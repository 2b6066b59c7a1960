/**
 * The brace-depth scan both plan normalisers run over raw model output
 * (src/pages/PlanoAula.jsx and src/contexts/ClassroomContext.jsx). It counts
 * every `{` and `}`, string literals included, remembers where depth last
 * rose from 0, and when depth falls back to 0 tries to parse that span: the
 * first span that parses wins, a span that does not is forgotten.
 */
module BraceScan {
  import opened Wrappers
  import opened JsonData

  /** How one character moves the depth counter. */
  function Step(c: char): int {
    if c == '{' then 1 else if c == '}' then -1 else 0
  }

  /** The counter after the first `k` characters: opening minus closing braces so far. */
  function Depth(t: string, k: nat): int
    requires k <= |t|
  {
    if k == 0 then 0 else Depth(t, k - 1) + Step(t[k - 1])
  }

  /**
   * `t[a..b]` (both ends included) is a balanced span the scan would try:
   * it opens at depth 0, closes back to depth 0, and stays above 0 in between.
   */
  ghost predicate IsSpan(t: string, a: int, b: int) {
    && 0 <= a < b < |t|
    && t[a] == '{' && t[b] == '}'
    && Depth(t, a) == 0 && Depth(t, b + 1) == 0
    && forall k :: a < k <= b ==> Depth(t, k) > 0
  }

  /** The text of a span, braces included: `text.substring(start, i + 1)`. */
  function SpanText(t: string, a: nat, b: nat): string
    requires a <= b < |t|
  {
    t[a..b + 1]
  }

  /** What the scan knows when it reaches index `i` with counters `depth` and `start`. */
  ghost predicate ScanState(t: string, parse: string -> Option<Json>, i: nat, depth: int, start: int)
    requires i <= |t|
  {
    && depth == Depth(t, i)
    && (start != -1 <==> depth > 0)
    && (start != -1 ==>
          && 0 <= start < i && t[start] == '{' && Depth(t, start) == 0
          && forall k :: start < k <= i ==> Depth(t, k) > 0)
    && forall a, b :: IsSpan(t, a, b) && b < i ==> parse(t[a..b + 1]).None?
  }

  /** The JavaScript `for` loop, one character per call. */
  function ScanFrom(t: string, parse: string -> Option<Json>, i: nat, depth: int, start: int): Option<(nat, nat)>
    requires i <= |t|
    requires start == -1 || 0 <= start < i
    decreases |t| - i
  {
    if i == |t| then None
    else if t[i] == '{' then
      ScanFrom(t, parse, i + 1, depth + 1, if depth == 0 then i else start)
    else if t[i] == '}' then
      if depth - 1 == 0 && start != -1 then
        if parse(t[start..i + 1]).Some? then Some((start, i))
        else ScanFrom(t, parse, i + 1, 0, -1)
      else
        ScanFrom(t, parse, i + 1, depth - 1, start)
    else
      ScanFrom(t, parse, i + 1, depth, start)
  }

  /** A span that closes at `i` is the one the scan is tracking. */
  lemma SpanEndingHere(t: string, parse: string -> Option<Json>, i: nat, depth: int, start: int, a: int)
    requires i < |t| && ScanState(t, parse, i, depth, start)
    requires IsSpan(t, a, i)
    ensures start == a
  {
    assert Depth(t, i) > 0;
  }

  /** Spans closing before `i + 1` all failed, given that none closes at `i` or the one that does failed. */
  lemma NoSpanEndsAt(t: string, parse: string -> Option<Json>, i: nat, depth: int, start: int)
    requires i < |t| && ScanState(t, parse, i, depth, start)
    requires t[i] != '}' || Depth(t, i + 1) != 0 || start == -1 || parse(t[start..i + 1]).None?
    ensures forall a, b :: IsSpan(t, a, b) && b < i + 1 ==> parse(t[a..b + 1]).None?
  {
    forall a, b | IsSpan(t, a, b) && b < i + 1
      ensures parse(t[a..b + 1]).None?
    {
      if b == i {
        SpanEndingHere(t, parse, i, depth, start, a);
      }
    }
  }

  lemma OpenStep(t: string, parse: string -> Option<Json>, i: nat, depth: int, start: int)
    requires i < |t| && t[i] == '{' && ScanState(t, parse, i, depth, start)
    ensures ScanState(t, parse, i + 1, depth + 1, if depth == 0 then i else start)
  {
    NoSpanEndsAt(t, parse, i, depth, start);
  }

  lemma CloseStep(t: string, parse: string -> Option<Json>, i: nat, depth: int, start: int)
    requires i < |t| && t[i] == '}' && ScanState(t, parse, i, depth, start)
    requires depth != 1 || parse(t[start..i + 1]).None?
    ensures ScanState(t, parse, i + 1, depth - 1, if depth == 1 then -1 else start)
  {
    NoSpanEndsAt(t, parse, i, depth, start);
  }

  lemma OtherStep(t: string, parse: string -> Option<Json>, i: nat, depth: int, start: int)
    requires i < |t| && t[i] != '{' && t[i] != '}' && ScanState(t, parse, i, depth, start)
    ensures ScanState(t, parse, i + 1, depth, start)
  {
    NoSpanEndsAt(t, parse, i, depth, start);
  }

  /** What the scan returns from a state reached at index `i`. */
  ghost predicate ScanOutcome(t: string, parse: string -> Option<Json>, r: Option<(nat, nat)>) {
    && (r.Some? ==>
          && r.value.0 <= r.value.1 < |t| && IsSpan(t, r.value.0, r.value.1)
          && parse(t[r.value.0..r.value.1 + 1]).Some?
          && forall a, b :: IsSpan(t, a, b) && b < r.value.1 ==> parse(t[a..b + 1]).None?)
    && (r.None? ==> forall a, b :: IsSpan(t, a, b) ==> parse(t[a..b + 1]).None?)
  }

  lemma {:induction false} ScanFromCorrect(t: string, parse: string -> Option<Json>, i: nat, depth: int, start: int)
    requires i <= |t| && (start == -1 || 0 <= start < i)
    requires ScanState(t, parse, i, depth, start)
    ensures ScanOutcome(t, parse, ScanFrom(t, parse, i, depth, start))
    decreases |t| - i
  {
    if i == |t| {
      assert forall a, b :: IsSpan(t, a, b) ==> b < i;
    } else if t[i] == '{' {
      OpenStep(t, parse, i, depth, start);
      ScanFromCorrect(t, parse, i + 1, depth + 1, if depth == 0 then i else start);
    } else if t[i] == '}' {
      if depth - 1 == 0 && start != -1 {
        assert IsSpan(t, start, i);
        if parse(t[start..i + 1]).None? {
          CloseStep(t, parse, i, depth, start);
          ScanFromCorrect(t, parse, i + 1, 0, -1);
        }
      } else {
        CloseStep(t, parse, i, depth, start);
        ScanFromCorrect(t, parse, i + 1, depth - 1, start);
      }
    } else {
      OtherStep(t, parse, i, depth, start);
      ScanFromCorrect(t, parse, i + 1, depth, start);
    }
  }

  /**
   * The span the scan stops at: the first balanced span whose text parses.
   * None when no balanced span parses.
   */
  function FirstParsedSpan(t: string, parse: string -> Option<Json>): (r: Option<(nat, nat)>)
    ensures r.Some? ==> r.value.0 <= r.value.1 < |t| && IsSpan(t, r.value.0, r.value.1)
    ensures r.Some? ==> parse(SpanText(t, r.value.0, r.value.1)).Some?
    ensures r.Some? ==> forall a, b :: IsSpan(t, a, b) && b < r.value.1 ==> parse(t[a..b + 1]).None?
    ensures r.None? ==> forall a, b :: IsSpan(t, a, b) ==> parse(t[a..b + 1]).None?
  {
    ScanFromCorrect(t, parse, 0, 0, -1);
    ScanFrom(t, parse, 0, 0, -1)
  }

  /** `t[a..b]` is the first balanced span, by closing position, whose text parses. */
  ghost predicate FirstParsing(t: string, parse: string -> Option<Json>, a: int, b: int) {
    && IsSpan(t, a, b)
    && parse(t[a..b + 1]).Some?
    && forall a', b' :: IsSpan(t, a', b') && b' < b ==> parse(t[a'..b' + 1]).None?
  }

  /** Two balanced spans that close at the same brace open at the same brace. */
  lemma SpanStartUnique(t: string, a: int, a': int, b: int)
    requires IsSpan(t, a, b) && IsSpan(t, a', b)
    ensures a == a'
  {
  }

  /** `parsed` at the end of the scan: the value of the first span that parses, or null. */
  function ScanParse(t: string, parse: string -> Option<Json>): (r: Option<Json>)
    ensures r.Some? <==> exists a, b :: IsSpan(t, a, b) && parse(t[a..b + 1]).Some?
    ensures forall a, b :: FirstParsing(t, parse, a, b) ==> r == parse(t[a..b + 1])
  {
    match FirstParsedSpan(t, parse)
    case Some((a0, b0)) =>
      assert forall a, b :: FirstParsing(t, parse, a, b) ==> a == a0 && b == b0 by {
        forall a, b | FirstParsing(t, parse, a, b)
          ensures a == a0 && b == b0
        {
          assert b == b0;
          SpanStartUnique(t, a, a0, b);
        }
      }
      parse(SpanText(t, a0, b0))
    case None => None
  }

  /**
   * Braces inside string literals count: in `{"a":"}"}` the scan's first
   * span closes at the quoted brace, index 6, not at the real end.
   */
  lemma QuotedBraceCloses()
    ensures IsSpan("{\"a\":\"}\"}", 0, 6)
    ensures !IsSpan("{\"a\":\"}\"}", 0, 8)
  {
    var t := "{\"a\":\"}\"}";
    assert Depth(t, 1) == 1 && Depth(t, 2) == 1 && Depth(t, 3) == 1 && Depth(t, 4) == 1;
    assert Depth(t, 5) == 1 && Depth(t, 6) == 1 && Depth(t, 7) == 0;
  }
}
