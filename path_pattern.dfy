/**
  The output path of a chunk: the caller's pattern with every occurrence of
  the placeholder "{}" replaced by the decimal rendering of the chunk index
  (Rust's `str::replace` and `usize::to_string`).
 */
module PathPattern {

  /** The placeholder the file pattern uses for the chunk index. */
  const Placeholder: string := "{}"

  predicate IsDigit(c: char) {
    '0' <= c <= '9'
  }

  function DigitChar(d: nat): (c: char)
    requires d < 10
    ensures IsDigit(c)
  {
    ['0', '1', '2', '3', '4', '5', '6', '7', '8', '9'][d]
  }

  function DigitValue(c: char): (d: nat)
    requires IsDigit(c)
    ensures d < 10 && DigitChar(d) == c
  {
    (c as int - '0' as int) as nat
  }

  /** A string of decimal digits. */
  predicate AllDigits(s: string) {
    forall i :: 0 <= i < |s| ==> IsDigit(s[i])
  }

  /** The form `to_string` produces: digits only, no leading zero except "0" itself. */
  predicate Canonical(s: string) {
    |s| > 0 && AllDigits(s) && (s[0] == '0' ==> |s| == 1)
  }

  /** The decimal rendering of a natural number, most significant digit first. */
  function NatToDecimal(n: nat): (s: string)
    ensures Canonical(s)
    ensures s[0] == '0' <==> n == 0
    decreases n
  {
    if n < 10 then [DigitChar(n)]
    else NatToDecimal(n / 10) + [DigitChar(n % 10)]
  }

  /** The number a string of decimal digits denotes. */
  function DecimalValue(s: string): nat
    requires AllDigits(s)
    decreases |s|
  {
    if s == [] then 0
    else DecimalValue(s[..|s| - 1]) * 10 + DigitValue(s[|s| - 1])
  }

  /** Reading back the rendering gives the number. */
  lemma {:induction false} DecimalRoundTrip(n: nat)
    ensures DecimalValue(NatToDecimal(n)) == n
    decreases n
  {
    var s := NatToDecimal(n);
    if n >= 10 {
      var p := NatToDecimal(n / 10);
      assert s[..|s| - 1] == p;
      DecimalRoundTrip(n / 10);
    }
  }

  /** Every canonical digit string is the rendering of the number it denotes. */
  lemma {:induction false} CanonicalRoundTrip(s: string)
    requires Canonical(s)
    ensures NatToDecimal(DecimalValue(s)) == s
    decreases |s|
  {
    var last := s[|s| - 1];
    if |s| == 1 {
      assert s[..0] == [];
      assert s == [last];
    } else {
      var p := s[..|s| - 1];
      assert p[0] == s[0];
      CanonicalRoundTrip(p);
      var v := DecimalValue(p);
      assert v != 0;
      var n := DecimalValue(s);
      assert n == v * 10 + DigitValue(last);
      assert n / 10 == v && n % 10 == DigitValue(last);
      assert s == p + [last];
    }
  }

  /** Distinct chunk indices render to distinct strings. */
  lemma NatToDecimalInjective(a: nat, b: nat)
    ensures NatToDecimal(a) == NatToDecimal(b) <==> a == b
  {
    DecimalRoundTrip(a);
    DecimalRoundTrip(b);
  }

  /** `from` occurs in `s` starting at position `i`. */
  predicate OccursAt(s: string, from: string, i: nat) {
    i + |from| <= |s| && s[i..i + |from|] == from
  }

  ghost predicate Contains(s: string, from: string) {
    exists i: nat :: OccursAt(s, from, i)
  }

  /**
    Replace every occurrence of `from`, scanning left to right and resuming
    after each match (the non-overlapping matches of `str::replace`).
   */
  function ReplaceAll(s: string, from: string, to: string): string
    requires |from| > 0
    decreases |s|
  {
    if |s| < |from| then s
    else if s[..|from|] == from then to + ReplaceAll(s[|from|..], from, to)
    else [s[0]] + ReplaceAll(s[1..], from, to)
  }

  /** The number of replacements `ReplaceAll` makes. */
  function Matches(s: string, from: string): nat
    requires |from| > 0
    decreases |s|
  {
    if |s| < |from| then 0
    else if s[..|from|] == from then 1 + Matches(s[|from|..], from)
    else Matches(s[1..], from)
  }

  /** The scan makes at least one replacement exactly when `from` occurs somewhere. */
  lemma {:induction false} MatchesIffContains(s: string, from: string)
    requires |from| > 0
    ensures Matches(s, from) > 0 <==> Contains(s, from)
    decreases |s|
  {
    if |s| < |from| {
      forall i: nat ensures !OccursAt(s, from, i) {
      }
    } else if s[..|from|] == from {
      assert OccursAt(s, from, 0);
    } else {
      var t := s[1..];
      MatchesIffContains(t, from);
      if Contains(t, from) {
        var i: nat :| OccursAt(t, from, i);
        assert s[i + 1..i + 1 + |from|] == t[i..i + |from|];
        assert OccursAt(s, from, i + 1);
      }
      if Contains(s, from) {
        var i: nat :| OccursAt(s, from, i);
        assert i != 0;
        assert t[i - 1..i - 1 + |from|] == s[i..i + |from|];
        assert OccursAt(t, from, i - 1);
      }
    }
  }

  /** Each replacement swaps |from| characters for |to| characters. */
  lemma {:induction false} ReplaceAllLength(s: string, from: string, to: string)
    requires |from| > 0
    ensures |ReplaceAll(s, from, to)| == |s| + Matches(s, from) * (|to| - |from|)
    decreases |s|
  {
    if |s| < |from| {
    } else if s[..|from|] == from {
      ReplaceAllLength(s[|from|..], from, to);
      MulSucc(Matches(s[|from|..], from), |to| - |from|);
    } else {
      ReplaceAllLength(s[1..], from, to);
    }
  }

  /** A string in which `from` never occurs is left as it is. */
  lemma {:induction false} ReplaceAllWithoutMatch(s: string, from: string, to: string)
    requires |from| > 0 && !Contains(s, from)
    ensures ReplaceAll(s, from, to) == s
  {
    MatchesIffContains(s, from);
    ReplaceAllSameWithoutMatch(s, from, to);
  }

  lemma {:induction false} ReplaceAllSameWithoutMatch(s: string, from: string, to: string)
    requires |from| > 0 && Matches(s, from) == 0
    ensures ReplaceAll(s, from, to) == s
    decreases |s|
  {
    if |s| >= |from| {
      ReplaceAllSameWithoutMatch(s[1..], from, to);
      assert s == [s[0]] + s[1..];
    }
  }

  /** With at least one match, equal results come from equal replacements of equal length. */
  lemma {:induction false} ReplaceAllCancel(s: string, from: string, a: string, b: string)
    requires |from| > 0 && Matches(s, from) > 0 && |a| == |b|
    requires ReplaceAll(s, from, a) == ReplaceAll(s, from, b)
    ensures a == b
    decreases |s|
  {
    if s[..|from|] == from {
      var ra, rb := ReplaceAll(s, from, a), ReplaceAll(s, from, b);
      assert ra[..|a|] == a && rb[..|b|] == b;
    } else {
      var t := s[1..];
      assert ReplaceAll(t, from, a) == ReplaceAll(s, from, a)[1..];
      ReplaceAllCancel(t, from, a, b);
    }
  }

  /** Where `from` occurs, different replacements give different results. */
  lemma ReplaceAllInjective(s: string, from: string, a: string, b: string)
    requires |from| > 0 && Contains(s, from)
    ensures ReplaceAll(s, from, a) == ReplaceAll(s, from, b) <==> a == b
  {
    if ReplaceAll(s, from, a) == ReplaceAll(s, from, b) {
      MatchesIffContains(s, from);
      ReplaceAllLength(s, from, a);
      ReplaceAllLength(s, from, b);
      var m := Matches(s, from);
      assert m * (|a| - |from|) == m * (|b| - |from|);
      MulCancel(m, |a| - |from|, |b| - |from|);
      ReplaceAllCancel(s, from, a, b);
    }
  }

  lemma MulCancel(m: int, x: int, y: int)
    requires m > 0 && m * x == m * y
    ensures x == y
  {
    assert m * (x - y) == m * x - m * y == 0;
  }

  /** (1 + m)·d == d + m·d, the step ReplaceAllLength takes at each match. */
  lemma MulSucc(m: int, d: int)
    ensures (1 + m) * d == d + m * d
  {
  }

  /** The first character of the result comes from `s` or is the first of `to`. */
  lemma {:induction false} ReplaceAllHead(s: string, from: string, to: string)
    requires |from| > 0 && |s| > 0 && |to| > 0
    ensures |ReplaceAll(s, from, to)| > 0
    ensures ReplaceAll(s, from, to)[0] == s[0] || ReplaceAll(s, from, to)[0] == to[0]
  {
  }

  /**
    Replacing "{}" by a non-empty text without braces leaves no "{}" behind:
    every occurrence is replaced, and none is formed anew.
   */
  lemma {:induction false} NoPlaceholderLeft(s: string, to: string)
    requires |to| > 0 && forall i :: 0 <= i < |to| ==> to[i] != '{' && to[i] != '}'
    ensures !Contains(ReplaceAll(s, Placeholder, to), Placeholder)
    decreases |s|
  {
    var r := ReplaceAll(s, Placeholder, to);
    if |s| < 2 {
      forall i: nat ensures !OccursAt(r, Placeholder, i) {
      }
    } else if s[..2] == Placeholder {
      var rest := ReplaceAll(s[2..], Placeholder, to);
      NoPlaceholderLeft(s[2..], to);
      assert r == to + rest;
      forall i: nat ensures !OccursAt(r, Placeholder, i) {
        if i >= |to| && OccursAt(r, Placeholder, i) {
          assert rest[i - |to|..i - |to| + 2] == r[i..i + 2];
          assert OccursAt(rest, Placeholder, i - |to|);
        }
        if i < |to| {
          assert r[i] == to[i];
        }
      }
    } else {
      var rest := ReplaceAll(s[1..], Placeholder, to);
      NoPlaceholderLeft(s[1..], to);
      ReplaceAllHead(s[1..], Placeholder, to);
      assert r == [s[0]] + rest;
      forall i: nat ensures !OccursAt(r, Placeholder, i) {
        if i >= 1 && OccursAt(r, Placeholder, i) {
          assert rest[i - 1..i + 1] == r[i..i + 2];
          assert OccursAt(rest, Placeholder, i - 1);
        }
        if i == 0 {
          assert r[0] == s[0] && r[1] == rest[0];
        }
      }
    }
  }

  /** The path of chunk `chunkIndex`: `pattern.replace("{}", &chunkIndex.to_string())`. */
  function ChunkPath(pattern: string, chunkIndex: nat): string {
    ReplaceAll(pattern, Placeholder, NatToDecimal(chunkIndex))
  }

  /**
    Two chunks share a path exactly when they are the same chunk or the
    pattern has no placeholder (then every chunk is written to the pattern
    itself).
   */
  lemma ChunkPathsCollide(pattern: string, a: nat, b: nat)
    ensures ChunkPath(pattern, a) == ChunkPath(pattern, b) <==> a == b || !Contains(pattern, Placeholder)
    ensures !Contains(pattern, Placeholder) ==> ChunkPath(pattern, a) == pattern
  {
    if Contains(pattern, Placeholder) {
      ReplaceAllInjective(pattern, Placeholder, NatToDecimal(a), NatToDecimal(b));
      NatToDecimalInjective(a, b);
    } else {
      ReplaceAllWithoutMatch(pattern, Placeholder, NatToDecimal(a));
      ReplaceAllWithoutMatch(pattern, Placeholder, NatToDecimal(b));
    }
  }

  /** No "{}" is left in a chunk path: every occurrence in the pattern was replaced. */
  lemma ChunkPathFilled(pattern: string, chunkIndex: nat)
    ensures !Contains(ChunkPath(pattern, chunkIndex), Placeholder)
  {
    NoPlaceholderLeft(pattern, NatToDecimal(chunkIndex));
  }
}
