/** The parts of Python's `str` behaviour the programs rely on: `strip()`,
    whitespace `split()`, `split(sep)`, `join`, `rstrip(c)`, `lower()` and
    integer formatting. */
module Text {
  import opened Seqs

  /** The characters for which Python's `str.isspace()` holds; `strip()` and
      `split()` with no argument use this set. */
  predicate IsSpace(c: char) {
    || c == ' '
    || ('\t' <= c <= '\r')
    || ('\U{1C}' <= c <= '\U{1F}')
    || c == '\U{85}' || c == '\U{A0}' || c == '\U{1680}'
    || ('\U{2000}' <= c <= '\U{200A}')
    || c == '\U{2028}' || c == '\U{2029}' || c == '\U{202F}' || c == '\U{205F}' || c == '\U{3000}'
  }

  predicate AllSpace(s: string) {
    forall i :: 0 <= i < |s| ==> IsSpace(s[i])
  }

  predicate NoSpace(s: string) {
    forall i :: 0 <= i < |s| ==> !IsSpace(s[i])
  }

  /** `s.lstrip()` */
  function TrimLeft(s: string): (r: string)
    ensures |r| <= |s| && r == s[|s| - |r|..]
    ensures AllSpace(s[..|s| - |r|])
    ensures r != [] ==> !IsSpace(r[0])
  {
    if s != [] && IsSpace(s[0]) then
      var r := TrimLeft(s[1..]);
      assert s[..|s| - |r|] == [s[0]] + s[1..][..|s| - 1 - |r|];
      r
    else s
  }

  /** `s.rstrip()` */
  function TrimRight(s: string): (r: string)
    ensures |r| <= |s| && r == s[..|r|]
    ensures AllSpace(s[|r|..])
    ensures r != [] ==> !IsSpace(r[|r| - 1])
    ensures s != [] && !IsSpace(s[0]) ==> r != []
  {
    if s != [] && IsSpace(s[|s| - 1]) then
      var r := TrimRight(s[..|s| - 1]);
      assert s[|r|..] == s[..|s| - 1][|r|..] + [s[|s| - 1]];
      r
    else s
  }

  /** `s.strip()` */
  function Strip(s: string): (r: string)
    ensures r == [] <==> AllSpace(s)
    ensures r != [] ==> !IsSpace(r[0]) && !IsSpace(r[|r| - 1])
  {
    StripEmpty(s);
    TrimRight(TrimLeft(s))
  }

  /** Both trims leave nothing exactly when the text is all whitespace. */
  lemma StripEmpty(s: string)
    ensures TrimRight(TrimLeft(s)) == [] <==> AllSpace(s)
  {
    var l := TrimLeft(s);
    var r := TrimRight(l);
    if l == [] {
      assert r == [];
      assert s[..|s|] == s;
    } else {
      var k := |s| - |l|;
      assert r != [] && r[0] == l[0];
      assert l[0] == s[k];
      assert !IsSpace(s[k]);
    }
  }

  /** `r` is the piece of `s` at offset `i`, with only whitespace before
      and after it. */
  predicate MiddleOf(r: string, s: string, i: int) {
    0 <= i <= |s| - |r| && r == s[i..i + |r|] && AllSpace(s[..i]) && AllSpace(s[i + |r|..])
  }

  /** `strip()` returns a piece of the text, with only whitespace around it:
      the whitespace inside the piece is kept. */
  lemma StripIsMiddle(s: string)
    ensures exists i :: MiddleOf(Strip(s), s, i)
  {
    TrimmedMiddle(s, TrimLeft(s), Strip(s));
  }

  /** Cutting whitespace off the front of `s`, leaving `l`, and then off the
      back of `l`, leaving `r`, leaves `r` in the middle of `s`. */
  lemma TrimmedMiddle(s: string, l: string, r: string)
    requires |l| <= |s| && l == s[|s| - |l|..] && AllSpace(s[..|s| - |l|])
    requires |r| <= |l| && r == l[..|r|] && AllSpace(l[|r|..])
    ensures MiddleOf(r, s, |s| - |l|)
  {
    var i := |s| - |l|;
    SliceOfSuffix(s, i, |r|);
    assert s[i + |r|..] == l[|r|..];
  }

  /** The longest prefix of `s` that holds no whitespace. */
  function Word(s: string): (w: string)
    ensures |w| <= |s| && w == s[..|w|]
    ensures NoSpace(w)
    ensures |w| < |s| ==> IsSpace(s[|w|])
  {
    if s == [] || IsSpace(s[0]) then [] else [s[0]] + Word(s[1..])
  }

  /** `s.split()`: the maximal runs of non-whitespace characters, in order. */
  function Tokens(s: string): (ts: seq<string>)
    ensures forall i :: 0 <= i < |ts| ==> ts[i] != [] && NoSpace(ts[i])
    decreases |s|
  {
    if s == [] then []
    else if IsSpace(s[0]) then Tokens(s[1..])
    else
      var w := Word(s);
      [w] + Tokens(s[|w|..])
  }

  /** `Word` is pinned down by its contract: a whitespace-free prefix that
      ends where the text ends or at whitespace. */
  lemma {:induction false} WordUnique(s: string, w: string)
    requires |w| <= |s| && w == s[..|w|] && NoSpace(w)
    requires |w| == |s| || IsSpace(s[|w|])
    ensures Word(s) == w
  {
    if s != [] && !IsSpace(s[0]) {
      assert w != [];
      WordUnique(s[1..], w[1..]);
    }
  }

  lemma {:induction false} TokensOfSpaces(s: string)
    ensures Tokens(s) == [] <==> AllSpace(s)
    decreases |s|
  {
    if s != [] {
      if IsSpace(s[0]) {
        TokensOfSpaces(s[1..]);
      }
    }
  }

  /** Leading whitespace yields no token. */
  lemma {:induction false} TokensSkipSpaces(p: string, q: string)
    requires AllSpace(p)
    ensures Tokens(p + q) == Tokens(q)
    decreases |p|
  {
    if p == [] {
      assert p + q == q;
    } else {
      assert (p + q)[1..] == p[1..] + q;
      TokensSkipSpaces(p[1..], q);
    }
  }

  /** Trailing whitespace yields no token. */
  lemma {:induction false} TokensDropSpaces(p: string, q: string)
    requires AllSpace(q)
    ensures Tokens(p + q) == Tokens(p)
    decreases |p|
  {
    if p == [] {
      assert p + q == q;
      TokensOfSpaces(q);
    } else if IsSpace(p[0]) {
      assert (p + q)[1..] == p[1..] + q;
      TokensDropSpaces(p[1..], q);
    } else {
      var w := Word(p);
      WordUnique(p + q, w);
      assert (p + q)[|w|..] == p[|w|..] + q;
      TokensDropSpaces(p[|w|..], q);
    }
  }

  /** `lstrip()` does not change what `split()` returns. */
  lemma {:induction false} TokensOfTrimLeft(s: string)
    ensures Tokens(TrimLeft(s)) == Tokens(s)
  {
    var l := TrimLeft(s);
    var p := s[..|s| - |l|];
    assert s == p + l;
    TokensSkipSpaces(p, l);
  }

  /** `rstrip()` does not change what `split()` returns. */
  lemma {:induction false} TokensOfTrimRight(s: string)
    ensures Tokens(TrimRight(s)) == Tokens(s)
  {
    var r := TrimRight(s);
    var q := s[|r|..];
    assert s == r + q;
    TokensDropSpaces(r, q);
  }

  /** `strip()` does not change what `split()` returns. */
  lemma TokensOfStrip(s: string)
    ensures Tokens(Strip(s)) == Tokens(s)
  {
    TokensOfTrimLeft(s);
    TokensOfTrimRight(TrimLeft(s));
  }

  /** `split()` of a whitespace-free word, a space and the remaining text. */
  lemma {:induction false} TokensOfWordThen(w: string, c: char, rest: string)
    requires w != [] && NoSpace(w) && IsSpace(c)
    ensures Tokens(w + [c] + rest) == [w] + Tokens(rest)
  {
    var s := w + [c] + rest;
    WordUnique(s, w);
    assert s[|w|..] == [c] + rest;
    assert ([c] + rest)[1..] == rest;
  }

  /** `(a + " " + b).split() == [a, b]` for two whitespace-free words. */
  lemma {:induction false} TokensOfPair(a: string, b: string)
    requires a != [] && NoSpace(a) && b != [] && NoSpace(b)
    ensures Tokens(a + " " + b) == [a, b]
  {
    TokensOfWordThen(a, ' ', b);
    WordUnique(b, b);
    assert b[|b|..] == [];
  }

  /** `sep.join(parts)` */
  function Join(parts: seq<string>, sep: string): string
  {
    if parts == [] then ""
    else if |parts| == 1 then parts[0]
    else parts[0] + sep + Join(parts[1..], sep)
  }

  /** A join starts with its first part. */
  lemma JoinStartsWithFirst(parts: seq<string>, sep: string)
    requires parts != []
    ensures parts[0] <= Join(parts, sep)
  {
  }

  /** A join ends with its last part. */
  lemma {:induction false} JoinEndsWithLast(parts: seq<string>, sep: string)
    requires parts != []
    ensures |parts[|parts| - 1]| <= |Join(parts, sep)|
    ensures Join(parts, sep)[|Join(parts, sep)| - |parts[|parts| - 1]|..] == parts[|parts| - 1]
  {
    if |parts| > 1 {
      JoinEndsWithLast(parts[1..], sep);
    }
  }

  /** `s.split(sep)` for a one-character separator: the pieces between
      separators, so that joining them back with `sep` gives `s`. */
  function Split(s: string, sep: char): (parts: seq<string>)
    ensures |parts| >= 1
    ensures forall i :: 0 <= i < |parts| ==> sep !in parts[i]
    ensures Join(parts, [sep]) == s
    ensures forall k, j :: 0 <= k < |parts| && 0 <= j < |parts[k]| ==> parts[k][j] in s
    decreases |s|
  {
    if sep !in s then [s]
    else
      var i := IndexOf(s, sep);
      var rest := Split(s[i + 1..], sep);
      assert s == s[..i] + [sep] + s[i + 1..];
      [s[..i]] + rest
  }

  /** No part holds the character `c`. */
  predicate NoneContain(parts: seq<string>, c: char) {
    parts == [] || (c !in parts[0] && NoneContain(parts[1..], c))
  }

  /** Splitting undoes joining when no part holds the separator. */
  lemma {:induction false} SplitJoin(parts: seq<string>, sep: char)
    requires |parts| >= 1 && NoneContain(parts, sep)
    ensures Split(Join(parts, [sep]), sep) == parts
  {
    if |parts| > 1 {
      var s := Join(parts, [sep]);
      var tail := Join(parts[1..], [sep]);
      assert s == parts[0] + ([sep] + tail);
      IndexOfAppend(parts[0], [sep] + tail, sep);
      assert IndexOf(s, sep) == |parts[0]|;
      assert s[..|parts[0]|] == parts[0];
      assert s[|parts[0]| + 1..] == tail;
      SplitJoin(parts[1..], sep);
    }
  }

  /** `s.rstrip(c)`: every trailing `c` removed. */
  function RStrip(s: string, c: char): (r: string)
    ensures |r| <= |s| && r == s[..|r|]
    ensures forall i :: |r| <= i < |s| ==> s[i] == c
    ensures r == [] || r[|r| - 1] != c
  {
    if s != [] && s[|s| - 1] == c then RStrip(s[..|s| - 1], c) else s
  }

  function LowerChar(c: char): char {
    if 'A' <= c <= 'Z' then (c as int + 32) as char else c
  }

  /** No ASCII capital letter. */
  predicate NoCapitals(s: string) {
    forall i :: 0 <= i < |s| ==> !('A' <= s[i] <= 'Z')
  }

  /** `s.lower()` on ASCII letters; other characters are kept. */
  function Lower(s: string): (r: string)
    ensures |r| == |s|
    ensures forall i :: 0 <= i < |s| && 'A' <= s[i] <= 'Z' ==> r[i] as int == s[i] as int + 32
    ensures forall i :: 0 <= i < |s| && !('A' <= s[i] <= 'Z') ==> r[i] == s[i]
  {
    seq(|s|, i requires 0 <= i < |s| => LowerChar(s[i]))
  }

  /** Text with no capitals is its own lower case. */
  lemma LowerOfLower(s: string)
    requires NoCapitals(s)
    ensures Lower(s) == s
  {
  }

  /** Lower-casing twice is lower-casing once. */
  lemma LowerIdempotent(s: string)
    ensures Lower(Lower(s)) == Lower(s)
  {
    assert NoCapitals(Lower(s));
    LowerOfLower(Lower(s));
  }

  /** `f"{n}"` for a natural number: its decimal digits. */
  function NatToString(n: nat): (r: string)
    ensures r != []
    ensures forall i :: 0 <= i < |r| ==> '0' <= r[i] <= '9'
  {
    var d := ['0', '1', '2', '3', '4', '5', '6', '7', '8', '9'];
    if n < 10 then [d[n]] else NatToString(n / 10) + [d[n % 10]]
  }

  /** `f"{n}"` for an integer: a minus sign exactly for a negative number,
      then decimal digits. */
  function IntToString(n: int): (r: string)
    ensures r != []
    ensures r[0] == '-' <==> n < 0
    ensures forall i :: 0 < i < |r| ==> '0' <= r[i] <= '9'
    ensures n >= 0 ==> '0' <= r[0] <= '9'
  {
    if n < 0 then "-" + NatToString(-n) else NatToString(n)
  }
}
