/** Words of a line, decimal numerals, and sorted lists of strings. */
module Words {

  /** White space, as it separates words. */
  predicate IsSpace(c: char) { c == ' ' || '\t' <= c <= '\r' }

  predicate NoSpace(s: string) { forall i :: 0 <= i < |s| ==> !IsSpace(s[i]) }

  /** The length of the word at the front of `s`. */
  function WordLength(s: string): (n: nat)
    ensures n <= |s| && NoSpace(s[..n]) && (n < |s| ==> IsSpace(s[n]))
  {
    if s == "" || IsSpace(s[0]) then 0 else
      var n := WordLength(s[1..]);
      assert s[..n + 1] == [s[0]] + s[1..][..n];
      n + 1
  }

  /** The words of a line; leading white space does not count. */
  function WordsIn(line: string): seq<string>
    decreases |line|
  {
    if line == "" then []
    else if IsSpace(line[0]) then WordsIn(line[1..])
    else var n := WordLength(line); assert n > 0 by { WordLengthOf(line, 0); } [line[..n]] + WordsIn(line[n..])
  }

  /** The front word ends at the first white space. */
  lemma WordLengthOf(s: string, n: nat)
    requires n <= |s| && NoSpace(s[..n])
    ensures n <= WordLength(s)
    ensures n == |s| || IsSpace(s[n]) ==> WordLength(s) == n
  {
    var k := WordLength(s);
    forall i | 0 <= i < n ensures !IsSpace(s[i]) { assert s[..n][i] == s[i]; }
    forall i | 0 <= i < k ensures !IsSpace(s[i]) { assert s[..k][i] == s[i]; }
  }

  lemma {:induction false} WordsHaveNoSpace(line: string)
    ensures forall i :: 0 <= i < |WordsIn(line)| ==> NoSpace(WordsIn(line)[i]) && WordsIn(line)[i] != ""
    decreases |line|
  {
    if line != "" {
      if IsSpace(line[0]) { WordsHaveNoSpace(line[1..]); } else { WordsHaveNoSpace(line[WordLength(line)..]); }
    }
  }

  lemma FirstWord(w: string, rest: string)
    requires w != "" && NoSpace(w) && rest != "" && IsSpace(rest[0])
    ensures WordsIn(w + rest) == [w] + WordsIn(rest)
  {
    assert (w + rest)[..|w|] == w && (w + rest)[|w|..] == rest;
    WordLengthOf(w + rest, |w|);
    assert !IsSpace(w[0]);
  }

  lemma LastWord(w: string)
    requires w != "" && NoSpace(w)
    ensures WordsIn(w) == [w]
  {
    assert w[..|w|] == w;
    WordLengthOf(w, |w|);
    assert !IsSpace(w[0]);
  }

  /** A blank, a tab, a line feed, a vertical tab, a form feed or a carriage return. */
  predicate Blank(c: char) { c as int == 32 || 9 <= c as int <= 13 }

  predicate Gap(s: string) { forall i :: 0 <= i < |s| ==> Blank(s[i]) }

  predicate Word(s: string) { s != "" && forall i :: 0 <= i < |s| ==> !Blank(s[i]) }

  /** Words with a gap before each of them, and `end` behind the last. */
  function Woven(gaps: seq<string>, words: seq<string>, end: string): string
    requires |gaps| == |words|
  {
    if words == [] then end else gaps[0] + (words[0] + Woven(gaps[1..], words[1..], end))
  }

  /** All gaps are blank, and only the first one and the end may be empty. */
  predicate Spaced(gaps: seq<string>, words: seq<string>, end: string) {
    && |gaps| == |words| && Gap(end)
    && forall i :: 0 <= i < |words| ==> Word(words[i]) && Gap(gaps[i]) && (i > 0 ==> gaps[i] != "")
  }

  lemma {:induction false} GapSkipped(gap: string, rest: string)
    requires Gap(gap)
    ensures WordsIn(gap + rest) == WordsIn(rest)
  {
    if gap == "" {
      assert gap + rest == rest;
    } else {
      assert Blank(gap[0]) && (gap + rest)[1..] == gap[1..] + rest;
      GapSkipped(gap[1..], rest);
    }
  }

  /** The words of a line made of words and gaps are these words. */
  lemma {:induction false} WordsOfWoven(gaps: seq<string>, words: seq<string>, end: string)
    requires Spaced(gaps, words, end)
    ensures WordsIn(Woven(gaps, words, end)) == words
  {
    if words == [] {
      GapSkipped(end, "");
      assert end + "" == end;
    } else {
      var w, rest := words[0], Woven(gaps[1..], words[1..], end);
      GapSkipped(gaps[0], w + rest);
      WordsOfWoven(gaps[1..], words[1..], end);
      assert NoSpace(w);
      if rest == "" {
        assert w + rest == w;
        LastWord(w);
      } else {
        RestIsBlank(gaps[1..], words[1..], end, rest);
        FirstWord(w, rest);
      }
    }
  }

  lemma RestIsBlank(gaps: seq<string>, words: seq<string>, end: string, rest: string)
    requires |gaps| == |words| && Gap(end) && rest == Woven(gaps, words, end) && rest != ""
    requires words != [] ==> Gap(gaps[0]) && gaps[0] != ""
    ensures IsSpace(rest[0])
  {
    if words == [] { assert Blank(end[0]); } else { assert Blank(gaps[0][0]); }
  }

  /** Every line is made of its words and of gaps. */
  lemma {:induction false} Unwoven(line: string) returns (gaps: seq<string>, end: string)
    ensures Spaced(gaps, WordsIn(line), end) && Woven(gaps, WordsIn(line), end) == line
    decreases |line|
  {
    if line == "" {
      gaps, end := [], "";
    } else if IsSpace(line[0]) {
      gaps, end := Unwoven(line[1..]);
      assert line == [line[0]] + line[1..];
      if WordsIn(line) == [] {
        end := [line[0]] + end;
      } else {
        gaps := LongerGap(gaps, WordsIn(line), end, line[0]);
      }
    } else {
      WordLengthOf(line, 0);
      var n := WordLength(line);
      assert line == line[..n] + line[n..];
      gaps, end := Unwoven(line[n..]);
      gaps := OneWordMore(gaps, WordsIn(line[n..]), end, line[..n]);
    }
  }

  lemma LongerGap(gaps: seq<string>, words: seq<string>, end: string, c: char) returns (gaps': seq<string>)
    requires Spaced(gaps, words, end) && IsSpace(c) && words != []
    ensures Spaced(gaps', words, end) && Woven(gaps', words, end) == [c] + Woven(gaps, words, end)
  {
    gaps' := [[c] + gaps[0]] + gaps[1..];
    assert gaps'[1..] == gaps[1..];
    forall i | 0 <= i < |words| ensures Word(words[i]) && Gap(gaps'[i]) && (i > 0 ==> gaps'[i] != "") {
      if i > 0 { assert gaps'[i] == gaps[i]; }
    }
  }

  lemma OneWordMore(gaps: seq<string>, words: seq<string>, end: string, w: string) returns (gaps': seq<string>)
    requires Spaced(gaps, words, end) && w != "" && NoSpace(w) && (words != [] ==> gaps[0] != "")
    ensures Spaced(gaps', [w] + words, end) && Woven(gaps', [w] + words, end) == w + Woven(gaps, words, end)
  {
    gaps' := [""] + gaps;
    assert gaps'[1..] == gaps && ([w] + words)[1..] == words;
    forall i | 0 <= i < |[w] + words|
      ensures Word(([w] + words)[i]) && Gap(gaps'[i]) && (i > 0 ==> gaps'[i] != "")
    {
      if i > 0 { assert gaps'[i] == gaps[i - 1]; }
    }
  }

  // ---------------------------------------------------------------- order of strings

  predicate Before(s: string, t: string) {
    if t == "" then false
    else if s == "" then true
    else s[0] < t[0] || (s[0] == t[0] && Before(s[1..], t[1..]))
  }

  lemma {:induction false} BeforeIsOrder(s: string, t: string)
    ensures !(Before(s, t) && Before(t, s))
    ensures s == t <==> !Before(s, t) && !Before(t, s)
  {
    if s != "" && t != "" {
      BeforeIsOrder(s[1..], t[1..]);
      assert s == [s[0]] + s[1..] && t == [t[0]] + t[1..];
    }
  }

  /** `s` and `t` agree in `i` characters, and differ in the next. */
  predicate LowerAt(s: string, t: string, i: int) {
    0 <= i < |s| && i < |t| && s[..i] == t[..i] && s[i] < t[i]
  }

  /** The order is that of a dictionary. */
  lemma {:induction false} BeforeIs(s: string, t: string)
    ensures Before(s, t) <==> s < t || exists i :: LowerAt(s, t, i)
  {
    if s != "" && t != "" {
      var s', t' := s[1..], t[1..];
      assert s == [s[0]] + s' && t == [t[0]] + t';
      BeforeIs(s', t');
      if s[0] < t[0] { assert LowerAt(s, t, 0); }
      if s[0] == t[0] { FirstAgrees(s, t, s', t'); }
      if i :| LowerAt(s, t, i) { assert i > 0 ==> s[..i][0] == t[..i][0]; }
    }
  }

  lemma FirstAgrees(s: string, t: string, s': string, t': string)
    requires s != "" && t != "" && s[0] == t[0] && s' == s[1..] && t' == t[1..]
    ensures s' < t' <==> s < t
    ensures (exists i :: LowerAt(s', t', i)) <==> (exists i :: LowerAt(s, t, i))
  {
    assert s == [s[0]] + s' && t == [t[0]] + t';
    forall i ensures LowerAt(s', t', i - 1) <==> LowerAt(s, t, i) { LowerShift(s, t, s', t', i); }
    if i :| LowerAt(s', t', i) { assert LowerAt(s', t', i + 1 - 1); assert LowerAt(s, t, i + 1); }
    if i :| LowerAt(s, t, i) { assert LowerAt(s', t', i - 1); }
  }

  lemma LowerShift(s: string, t: string, s': string, t': string, i: int)
    requires s != "" && t != "" && s[0] == t[0] && s' == s[1..] && t' == t[1..]
    ensures LowerAt(s', t', i - 1) <==> LowerAt(s, t, i)
  {
    if 0 < i < |s| && i < |t| {
      assert s[..i] == [s[0]] + s'[..i - 1] && t[..i] == [t[0]] + t'[..i - 1];
      assert s[..i][1..] == s'[..i - 1] && t[..i][1..] == t'[..i - 1];
    }
  }

  lemma {:induction false} BeforeTrans(s: string, t: string, u: string)
    requires Before(s, t) && Before(t, u)
    ensures Before(s, u)
  {
    if s != "" && s[0] == t[0] == u[0] { BeforeTrans(s[1..], t[1..], u[1..]); }
  }

  ghost predicate Ascending(keys: seq<string>) {
    forall i, j :: 0 <= i < j < |keys| ==> Before(keys[i], keys[j])
  }

  lemma AscendingNew(keys: seq<string>, k: nat)
    requires Ascending(keys) && k < |keys|
    ensures keys[k] !in keys[..k]
  {
    forall j | 0 <= j < k ensures keys[j] != keys[k] { BeforeIsOrder(keys[j], keys[k]); }
  }

  lemma NoKeys(keys: seq<string>)
    ensures (forall k :: k !in keys) ==> keys == []
  {
    if keys != [] { var k := keys[0]; assert k in keys; }
  }

  /** The place of `key` in an ascending list. */
  method Place(keys: seq<string>, key: string) returns (k: nat)
    requires Ascending(keys) && key !in keys
    ensures k <= |keys|
    ensures forall i :: 0 <= i < k ==> Before(keys[i], key)
    ensures forall i :: k <= i < |keys| ==> Before(key, keys[i])
  {
    k := 0;
    while k < |keys| && Before(keys[k], key)
      invariant k <= |keys|
      invariant forall i :: 0 <= i < k ==> Before(keys[i], key)
    {
      k := k + 1;
    }
    forall i | k <= i < |keys| ensures Before(key, keys[i]) {
      BeforeIsOrder(keys[k], key);
      assert keys[k] in keys;
      if k < i { BeforeTrans(key, keys[k], keys[i]); }
    }
  }

  /** The members of a set in increasing order. */
  method SortKeys(s: set<string>) returns (keys: seq<string>)
    ensures Ascending(keys) && |keys| == |s|
    ensures forall k :: k in keys <==> k in s
  {
    keys := [];
    var rest := s;
    while rest != {}
      invariant rest <= s && Ascending(keys) && |keys| + |rest| == |s|
      invariant forall k :: k in keys <==> k in s && k !in rest
      decreases |rest|
    {
      var key :| key in rest;
      var k := Place(keys, key);
      ghost var was := keys;
      keys := keys[..k] + [key] + keys[k..];
      rest := rest - {key};
    }
  }

  // ---------------------------------------------------------------- numerals

  predicate Digits(s: string) { forall i :: 0 <= i < |s| ==> '0' <= s[i] <= '9' }

  /** A decimal numeral without leading zeros. */
  predicate Numeral(s: string) { s != "" && Digits(s) && (|s| > 1 ==> s[0] != '0') }

  function NatOf(s: string): nat {
    if s == "" then 0
    else
      var c := s[|s| - 1];
      NatOf(s[..|s| - 1]) * 10 + (if c < '0' then 0 else c as int - '0' as int)
  }

  lemma {:induction false} NumeralPositive(s: string)
    requires s != "" && Digits(s) && s[0] != '0'
    ensures NatOf(s) > 0
  {
    if |s| > 1 { NumeralPositive(s[..|s| - 1]); }
  }

  /** Different numerals denote different numbers. */
  lemma {:induction false} SameNumeral(s: string, t: string)
    requires Numeral(s) && Numeral(t) && NatOf(s) == NatOf(t)
    ensures s == t
  {
    var s', t' := s[..|s| - 1], t[..|t| - 1];
    assert s == s' + [s[|s| - 1]] && t == t' + [t[|t| - 1]];
    if |s| > 1 { NumeralPositive(s'); }
    if |t| > 1 { NumeralPositive(t'); }
    if |s| > 1 && |t| > 1 { SameNumeral(s', t'); }
  }

  function Digit(d: nat): char
    requires d < 10
  {
    "0123456789"[d]
  }

  /** The numeral printed for `n`. */
  function Decimal(n: nat): string {
    if n < 10 then [Digit(n)] else Decimal(n / 10) + [Digit(n % 10)]
  }

  /** A printed number is read back. */
  lemma {:induction false} ReadBack(n: nat)
    ensures Numeral(Decimal(n)) && NatOf(Decimal(n)) == n
    ensures n > 0 ==> Decimal(n)[0] != '0'
  {
    if n < 10 {
      assert NatOf([]) == 0 && [Digit(n)][..0] == [];
    } else {
      var s := Decimal(n);
      ReadBack(n / 10);
      assert s[..|s| - 1] == Decimal(n / 10);
    }
  }

  /** A numeral is what is printed for the number it is read as. */
  lemma PrintBack(s: string)
    requires Numeral(s)
    ensures Decimal(NatOf(s)) == s
  {
    ReadBack(NatOf(s));
    SameNumeral(Decimal(NatOf(s)), s);
  }
}
