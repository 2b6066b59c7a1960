/**
 * String primitives with JavaScript semantics: whitespace as `trim` and `\s`
 * see it, prefix and suffix tests, `indexOf`, `split` and `join`, and the
 * decimal rendering of non-negative integers used in template literals.
 */
module Text {

  /** JavaScript's WhiteSpace and LineTerminator characters, the set `trim` strips and `\s` matches. */
  predicate IsSpace(c: char) {
    || c == ' ' || c == '\t' || c == '\n' || c == '\r' || c == '\U{000B}' || c == '\U{000C}'
    || c == '\U{00A0}' || c == '\U{1680}' || ('\U{2000}' <= c <= '\U{200A}')
    || c == '\U{2028}' || c == '\U{2029}' || c == '\U{202F}' || c == '\U{205F}'
    || c == '\U{3000}' || c == '\U{FEFF}'
  }

  predicate IsDigit(c: char) {
    '0' <= c <= '9'
  }

  predicate AllDigits(s: string) {
    forall i :: 0 <= i < |s| ==> IsDigit(s[i])
  }

  /** `s.startsWith(p)` */
  predicate StartsWith(s: string, p: string) {
    |p| <= |s| && s[..|p|] == p
  }

  /** `s.endsWith(p)` */
  predicate EndsWith(s: string, p: string) {
    |p| <= |s| && s[|s| - |p|..] == p
  }

  /** `pat` occurs in `s` starting at index `i`. */
  predicate OccursAt(s: string, pat: string, i: int) {
    0 <= i && i + |pat| <= |s| && s[i..i + |pat|] == pat
  }

  /** `pat` occurs nowhere in `s`. */
  predicate Free(s: string, pat: string) {
    forall i :: 0 <= i <= |s| ==> !OccursAt(s, pat, i)
  }

  /** Removes leading whitespace: what remains is a suffix that does not start with whitespace. */
  function TrimStart(s: string): (r: string)
    ensures |r| <= |s| && r == s[|s| - |r|..]
    ensures forall k :: 0 <= k < |s| - |r| ==> IsSpace(s[k])
    ensures r != [] ==> !IsSpace(r[0])
    decreases |s|
  {
    if |s| > 0 && IsSpace(s[0]) then TrimStart(s[1..]) else s
  }

  /** Removes trailing whitespace: what remains is a prefix that does not end with whitespace. */
  function TrimEnd(s: string): (r: string)
    ensures |r| <= |s| && r == s[..|r|]
    ensures forall k :: |r| <= k < |s| ==> IsSpace(s[k])
    ensures r != [] ==> !IsSpace(r[|r| - 1])
    decreases |s|
  {
    if |s| > 0 && IsSpace(s[|s| - 1]) then TrimEnd(s[..|s| - 1]) else s
  }

  /** `s.trim()`: the infix of `s` left after whitespace is removed from both ends. */
  function Trim(s: string): (r: string)
    ensures |s| - |TrimStart(s)| + |r| <= |s|
    ensures r == s[|s| - |TrimStart(s)|..|s| - |TrimStart(s)| + |r|]
    ensures forall k :: |s| - |TrimStart(s)| + |r| <= k < |s| ==> IsSpace(s[k])
    ensures r != [] ==> !IsSpace(r[0]) && !IsSpace(r[|r| - 1])
  {
    var u := TrimStart(s);
    TrimSlices(s, u, TrimEnd(u));
    TrimEnd(u)
  }

  /** A prefix of a suffix is an infix, and what follows the prefix lies at the end of the whole. */
  lemma TrimSlices(s: string, u: string, t: string)
    requires |u| <= |s| && u == s[|s| - |u|..]
    requires |t| <= |u| && t == u[..|t|]
    requires forall k :: |t| <= k < |u| ==> IsSpace(u[k])
    ensures t == s[|s| - |u|..|s| - |u| + |t|]
    ensures forall k :: |s| - |u| + |t| <= k < |s| ==> IsSpace(s[k])
  {
    var i := |s| - |u|;
    forall k | i + |t| <= k < |s|
      ensures IsSpace(s[k])
    {
      assert s[k] == u[k - i];
    }
  }

  /** A character absent from a string is absent from its trim. */
  lemma TrimNoNewChar(s: string, c: char)
    requires c !in s
    ensures c !in Trim(s)
  {
    var t := Trim(s);
    var i := |s| - |TrimStart(s)|;
    forall k | 0 <= k < |t|
      ensures t[k] != c
    {
      assert t[k] == s[i + k];
    }
  }

  /** A string with no whitespace at either end is its own trim. */
  lemma TrimIdentity(s: string)
    requires s != [] ==> !IsSpace(s[0]) && !IsSpace(s[|s| - 1])
    ensures Trim(s) == s
  {
    assert TrimStart(s) == s;
    assert TrimEnd(s) == s;
  }

  /** An occurrence inside an infix is an occurrence in the whole string. */
  lemma InfixOccurrence(s: string, pat: string, i: nat, j: nat, k: int)
    requires i <= j <= |s|
    ensures OccursAt(s[i..j], pat, k) ==> OccursAt(s, pat, i + k)
  {
    if OccursAt(s[i..j], pat, k) {
      forall m | 0 <= m < |pat|
        ensures s[i + k..i + k + |pat|][m] == pat[m]
      {
        assert pat[m] == s[i..j][k + m];
      }
    }
  }

  /** An infix of a string free of `pat` is free of `pat` too. */
  lemma FreeInfix(s: string, pat: string, i: nat, j: nat)
    requires i <= j <= |s| && Free(s, pat)
    ensures Free(s[i..j], pat)
  {
    forall k | 0 <= k <= j - i
      ensures !OccursAt(s[i..j], pat, k)
    {
      InfixOccurrence(s, pat, i, j, k);
    }
  }

  /** Trimming cannot create an occurrence of a pattern. */
  lemma TrimFree(s: string, pat: string)
    requires Free(s, pat)
    ensures Free(Trim(s), pat)
  {
    var i := |s| - |TrimStart(s)|;
    FreeInfix(s, pat, i, i + |Trim(s)|);
  }

  /** `s.indexOf(pat, from)`: the first occurrence at or after `from`, or -1. */
  function IndexOfFrom(s: string, pat: string, from: nat): (r: int)
    requires |pat| > 0
    ensures r == -1 || (from <= r && OccursAt(s, pat, r))
    ensures r == -1 ==> forall i :: from <= i ==> !OccursAt(s, pat, i)
    ensures r != -1 ==> forall i :: from <= i < r ==> !OccursAt(s, pat, i)
    decreases |s| - from
  {
    if from + |pat| > |s| then -1
    else if OccursAt(s, pat, from) then from
    else IndexOfFrom(s, pat, from + 1)
  }

  /** `s.indexOf(c)`: the first position of `c`, or -1. */
  function IndexOfChar(s: string, c: char): (r: int)
    ensures r == -1 <==> c !in s
    ensures r != -1 ==> 0 <= r < |s| && s[r] == c && forall k :: 0 <= k < r ==> s[k] != c
  {
    if |s| == 0 then -1
    else if s[0] == c then 0
    else
      var k := IndexOfChar(s[1..], c);
      assert s == [s[0]] + s[1..];
      assert forall m :: 1 <= m < |s| ==> s[m] == s[1..][m - 1];
      if k == -1 then -1 else k + 1
  }

  /** `s.lastIndexOf(c)`: the last position of `c`, or -1. */
  function LastIndexOfChar(s: string, c: char): (r: int)
    ensures r == -1 <==> c !in s
    ensures r != -1 ==> 0 <= r < |s| && s[r] == c && forall k :: r < k < |s| ==> s[k] != c
  {
    if |s| == 0 then -1
    else if s[|s| - 1] == c then |s| - 1
    else
      assert s == s[..|s| - 1] + [s[|s| - 1]];
      LastIndexOfChar(s[..|s| - 1], c)
  }

  /** Number of characters of `s` that belong to `seps`. */
  function CountIn(s: string, seps: set<char>): nat {
    if |s| == 0 then 0 else (if s[0] in seps then 1 else 0) + CountIn(s[1..], seps)
  }

  /**
   * `s.split(sep)` for a single-character separator, or for a character
   * class such as `/[,;]/`: the pieces between separators, always at least one.
   */
  function Split(s: string, seps: set<char>): (r: seq<string>)
    ensures |r| == CountIn(s, seps) + 1
    ensures forall i, j :: 0 <= i < |r| && 0 <= j < |r[i]| ==> r[i][j] !in seps
    decreases |s|
  {
    if |s| == 0 then [""]
    else
      var rest := Split(s[1..], seps);
      if s[0] in seps then [""] + rest
      else
        assert forall j :: 0 <= j < |rest[0]| ==> ([s[0]] + rest[0])[j + 1] == rest[0][j];
        [[s[0]] + rest[0]] + rest[1..]
  }

  /** The characters of `s` that belong to `seps`, in order. */
  function SepsIn(s: string, seps: set<char>): (r: string)
    ensures |r| == CountIn(s, seps)
    ensures forall i :: 0 <= i < |r| ==> r[i] in seps
  {
    if |s| == 0 then ""
    else if s[0] in seps then [s[0]] + SepsIn(s[1..], seps)
    else SepsIn(s[1..], seps)
  }

  /** `parts` with the characters of `cs` put between neighbours, one each. */
  function Interleave(parts: seq<string>, cs: string): string
    requires |parts| == |cs| + 1
  {
    if |cs| == 0 then parts[0] else parts[0] + [cs[0]] + Interleave(parts[1..], cs[1..])
  }

  /**
   * Splitting loses nothing but the separators: putting back the separator
   * characters found in `s`, in order, between the pieces rebuilds `s`.
   * Since no piece holds a separator, this fixes every piece.
   */
  lemma {:induction false} SplitRebuild(s: string, seps: set<char>)
    ensures Interleave(Split(s, seps), SepsIn(s, seps)) == s
    decreases |s|
  {
    if |s| > 0 {
      var rest, cs := Split(s[1..], seps), SepsIn(s[1..], seps);
      SplitRebuild(s[1..], seps);
      if s[0] in seps {
        assert Split(s, seps) == [""] + rest;
        assert ([""] + rest)[1..] == rest;
        assert ([s[0]] + cs)[1..] == cs;
        assert s == [s[0]] + s[1..];
      } else {
        var parts := Split(s, seps);
        assert parts == [[s[0]] + rest[0]] + rest[1..];
        assert parts[1..] == rest[1..];
        assert s == [s[0]] + s[1..];
      }
    }
  }

  /** A piece free of the separator, then the separator: the piece comes off whole. */
  lemma {:induction false} SplitCons(h: string, c: char, b: string)
    requires c !in h
    ensures Split(h + [c] + b, {c}) == [h] + Split(b, {c})
    decreases |h|
  {
    var s := h + [c] + b;
    if |h| == 0 {
      assert s == [c] + b;
      assert s[1..] == b;
    } else {
      assert s[1..] == h[1..] + [c] + b;
      SplitCons(h[1..], c, b);
      assert h == [h[0]] + h[1..];
    }
  }

  /** `parts.join(sep)` */
  function Join(parts: seq<string>, sep: string): string {
    if |parts| == 0 then ""
    else if |parts| == 1 then parts[0]
    else parts[0] + sep + Join(parts[1..], sep)
  }

  /** Joining two parts puts the separator between them. */
  lemma JoinTwo(a: string, b: string, sep: string)
    ensures Join([a, b], sep) == a + sep + b
  {
    assert [a, b][1..] == [b];
  }

  /** Joining three parts puts the separator between each neighbouring pair. */
  lemma JoinThree(a: string, b: string, c: string, sep: string)
    ensures Join([a, b, c], sep) == a + sep + b + sep + c
  {
    assert [a, b, c][1..] == [b, c];
    JoinTwo(b, c, sep);
  }

  /**
   * Joining up to three parts, each present or not: the present ones in
   * order with the separator between neighbours only.
   */
  lemma JoinPresent(a: string, b: string, c: string, ha: bool, hb: bool, hc: bool, sep: string)
    ensures Join((if ha then [a] else []) + (if hb then [b] else []) + (if hc then [c] else []), sep) ==
      (if ha then a else "") + (if ha && hb then sep else "") + (if hb then b else "")
      + (if (ha || hb) && hc then sep else "") + (if hc then c else "")
  {
    if ha && hb && hc {
      assert [a] + [b] + [c] == [a, b, c];
      JoinThree(a, b, c, sep);
    } else if ha && hb {
      assert [a] + [b] + [] == [a, b];
      JoinTwo(a, b, sep);
    } else if ha && hc {
      assert [a] + [] + [c] == [a, c];
      JoinTwo(a, c, sep);
    } else if hb && hc {
      assert [] + [b] + [c] == [b, c];
      JoinTwo(b, c, sep);
    } else if ha {
      assert [a] + [] + [] == [a];
    } else if hb {
      assert [] + [b] + [] == [b];
    } else if hc {
      assert [] + [] + [c] == [c];
    }
  }

  /** Appending text keeps a prefix a prefix. */
  lemma StartsWithAppend(s: string, p: string, t: string)
    requires StartsWith(s, p)
    ensures StartsWith(s + t, p)
  {
    assert (s + t)[..|p|] == s[..|p|];
  }

  /** Appending text to a string with a suffix extends the suffix. */
  lemma EndsWithAppend(s: string, q: string, t: string)
    requires EndsWith(s, q)
    ensures EndsWith(s + t, q + t)
  {
    assert (s + t)[|s + t| - |q + t|..] == s[|s| - |q|..] + t;
  }

  /** A join begins with its first part. */
  lemma JoinStartsWith(parts: seq<string>, sep: string)
    requires |parts| > 0
    ensures StartsWith(Join(parts, sep), parts[0])
  {
    if |parts| > 1 {
      assert Join(parts, sep) == parts[0] + (sep + Join(parts[1..], sep));
    }
  }

  /** A join ends with its last part. */
  lemma {:induction false} JoinEndsWith(parts: seq<string>, sep: string)
    requires |parts| > 0
    ensures EndsWith(Join(parts, sep), parts[|parts| - 1])
    decreases |parts|
  {
    if |parts| > 1 {
      JoinEndsWith(parts[1..], sep);
      var head := parts[0] + sep;
      var tail := Join(parts[1..], sep);
      var last := parts[|parts| - 1];
      assert parts[1..][|parts| - 2] == last;
      assert Join(parts, sep) == head + tail;
      assert (head + tail)[|head + tail| - |last|..] == tail[|tail| - |last|..];
    }
  }

  /** Splitting on one character and joining with it gives back the text. */
  lemma {:induction false} SplitJoin(s: string, c: char)
    ensures Join(Split(s, {c}), [c]) == s
    decreases |s|
  {
    if |s| > 0 {
      var rest := Split(s[1..], {c});
      SplitJoin(s[1..], c);
      if s[0] == c {
        assert Split(s, {c}) == [""] + rest;
        assert ([""] + rest)[1..] == rest;
      } else {
        var parts := Split(s, {c});
        assert parts == [[s[0]] + rest[0]] + rest[1..];
        if |rest| > 1 {
          assert parts[1..] == rest[1..];
          assert Join(rest, [c]) == rest[0] + [c] + Join(rest[1..], [c]);
        }
      }
    }
  }

  function DigitChar(d: nat): (c: char)
    requires d < 10
    ensures IsDigit(c)
  {
    "0123456789"[d]
  }

  function DigitValue(c: char): nat
    requires IsDigit(c)
  {
    (c as int) - ('0' as int)
  }

  /** `String(n)` for a non-negative integer: its decimal digits, most significant first. */
  function NatToString(n: nat): (r: string)
    ensures |r| >= 1 && AllDigits(r)
    ensures |r| > 1 ==> r[0] != '0'
    decreases n
  {
    if n < 10 then [DigitChar(n)]
    else NatToString(n / 10) + [DigitChar(n % 10)]
  }

  /** The value of a run of decimal digits (0 for the empty run). */
  function DigitsValue(s: string): nat
    requires AllDigits(s)
  {
    if |s| == 0 then 0 else DigitsValue(s[..|s| - 1]) * 10 + DigitValue(s[|s| - 1])
  }

  /** Reading back the digits `NatToString` writes recovers the number. */
  lemma {:induction false} NatToStringRoundTrip(n: nat)
    ensures DigitsValue(NatToString(n)) == n
    decreases n
  {
    if n >= 10 {
      var s := NatToString(n);
      NatToStringRoundTrip(n / 10);
      assert s[..|s| - 1] == NatToString(n / 10);
      assert DigitValue(s[|s| - 1]) == n % 10;
    } else {
      assert DigitValue(DigitChar(n)) == n;
    }
  }

  /** Distinct numbers render as distinct strings. */
  lemma NatToStringInjective(m: nat, n: nat)
    requires NatToString(m) == NatToString(n)
    ensures m == n
  {
    NatToStringRoundTrip(m);
    NatToStringRoundTrip(n);
  }
}
