/**
 * Recovering a lesson plan that was stored as `{ raw: text }` because the
 * first extraction failed. Two copies of this logic exist: the lesson-plan
 * page (src/pages/PlanoAula.jsx) looks inside the first code fence and, when
 * the brace scan finds nothing, parses the whole trimmed text; the classroom
 * context (src/contexts/ClassroomContext.jsx) only runs the brace scan over
 * the raw text.
 */
module PlanNormalize {
  import opened Wrappers
  import opened Text
  import opened JsonData
  import opened PlanShape
  import opened BraceScan
  import AiClient

  const Fence: string := AiClient.Fence

  /** The `json` tag holds no backtick. */
  lemma SkipTagNoBacktick(u: string)
    ensures forall k :: 0 <= k < |u| - |AiClient.SkipTag(u)| ==> u[k] != '`'
  {
    if StartsWith(u, "json") {
      forall k | 0 <= k < 4
        ensures u[k] != '`'
      {
        assert u[k] == u[..4][k];
      }
    }
  }

  /** Leading whitespace holds no backtick. */
  lemma TrimStartNoBacktick(v: string)
    ensures forall k :: 0 <= k < |v| - |TrimStart(v)| ==> v[k] != '`'
  {
    forall k | 0 <= k < |v| - |TrimStart(v)|
      ensures v[k] != '`'
    {
      assert IsSpace(v[k]);
    }
  }

  /** Characters the tag and whitespace skipping passes over are never backticks. */
  lemma SkippedNoBacktick(u: string)
    ensures forall k :: 0 <= k < |u| - |TrimStart(AiClient.SkipTag(u))| ==> u[k] != '`'
  {
    var v := AiClient.SkipTag(u);
    var d := |u| - |v|;
    assert v == u[d..];
    SkipTagNoBacktick(u);
    TrimStartNoBacktick(v);
    forall k | d <= k < |u| - |TrimStart(v)|
      ensures u[k] != '`'
    {
      assert u[k] == v[k - d];
    }
  }

  /** Where the body of a fence opening at `p` starts: past the fence, an optional tag and whitespace. */
  function BodyStart(s: string, p: nat): (b: nat)
    requires p + 3 <= |s|
    ensures p + 3 <= b <= |s| && s[b..] == TrimStart(AiClient.SkipTag(s[p + 3..]))
    ensures forall k :: p + 3 <= k < b ==> s[k] != '`'
  {
    var u := s[p + 3..];
    var v := AiClient.SkipTag(u);
    var rest := TrimStart(v);
    SkippedNoBacktick(u);
    assert v == u[|u| - |v|..];
    assert rest == u[|u| - |rest|..];
    var b := |s| - |rest|;
    assert s[b..] == u[b - p - 3..];
    forall k | p + 3 <= k < b
      ensures s[k] != '`'
    {
      assert s[k] == u[k - p - 3];
    }
    b
  }

  lemma FenceAfterFirst(s: string, p: nat, p': int)
    requires forall q :: 0 <= q < p ==> !OccursAt(s, Fence, q)
    requires OccursAt(s, Fence, p')
    ensures p <= p'
  {
  }

  /** A fence begins with a backtick. */
  lemma BacktickAt(s: string, c: int)
    ensures OccursAt(s, Fence, c) ==> s[c] == '`'
  {
    if OccursAt(s, Fence, c) {
      assert s[c] == s[c..c + 3][0];
    }
  }

  /** When the first fence has no partner after its body start, no pair of fences exists at all. */
  lemma NoPartner(s: string, p: nat)
    requires OccursAt(s, Fence, p) && forall q :: 0 <= q < p ==> !OccursAt(s, Fence, q)
    requires forall q :: BodyStart(s, p) <= q ==> !OccursAt(s, Fence, q)
    ensures forall p', c' :: OccursAt(s, Fence, p') && p' + 3 <= c' ==> !OccursAt(s, Fence, c')
  {
    var b := BodyStart(s, p);
    forall p', c' | OccursAt(s, Fence, p') && p' + 3 <= c'
      ensures !OccursAt(s, Fence, c')
    {
      FenceAfterFirst(s, p, p');
      BacktickAt(s, c');
    }
  }

  /**
   * `/```(?:json)?\s*\n?([\s\S]*?)```/`: the first fence, the start of its
   * body past an optional `json` tag and any whitespace, and the first fence
   * after that, as (opening, body start, closing). When the first fence has
   * no partner no later fence has one either, so the match fails.
   */
  function PlanFence(s: string): (r: Option<(nat, nat, nat)>)
    ensures r.Some? ==> (OccursAt(s, Fence, r.value.0)
      && (forall q :: 0 <= q < r.value.0 ==> !OccursAt(s, Fence, q))
      && r.value.1 == BodyStart(s, r.value.0) && r.value.1 <= r.value.2
      && OccursAt(s, Fence, r.value.2)
      && (forall q :: r.value.1 <= q < r.value.2 ==> !OccursAt(s, Fence, q)))
    ensures r.None? <==> forall p, c :: OccursAt(s, Fence, p) && p + 3 <= c ==> !OccursAt(s, Fence, c)
  {
    var p := IndexOfFrom(s, Fence, 0);
    if p == -1 then None
    else
      var b := BodyStart(s, p);
      var c := IndexOfFrom(s, Fence, b);
      if c == -1 then
        NoPartner(s, p);
        None
      else
        Some((p, b, c))
  }

  /** A stretch in which no fence starts holds no fence. */
  lemma BodyFree(raw: string, b: nat, c: nat)
    requires b <= c <= |raw|
    requires forall q :: b <= q < c ==> !OccursAt(raw, Fence, q)
    ensures Free(raw[b..c], Fence)
  {
    var t := raw[b..c];
    forall k | 0 <= k <= |t|
      ensures !OccursAt(t, Fence, k)
    {
      InfixOccurrence(raw, Fence, b, c, k);
    }
  }

  /** The text the page scans: the first fence's body when there is one, else the raw text. A body holds no fence. */
  function ScanText(raw: string): (t: string)
    ensures PlanFence(raw).None? ==> t == raw
    ensures PlanFence(raw).Some? ==> Free(t, Fence) && |t| < |raw|
    ensures PlanFence(raw).Some? ==> t == raw[PlanFence(raw).value.1..PlanFence(raw).value.2]
  {
    match PlanFence(raw)
    case None => raw
    case Some((p, b, c)) =>
      BodyFree(raw, b, c);
      raw[b..c]
  }

  /**
   * `parsed` after the page's two attempts: the value of the first span that
   * parses when it is truthy, otherwise the whole trimmed text parsed
   * (`None` when that throws).
   */
  function Recover(text: string, parse: string -> Option<Json>): (r: Option<Json>)
    ensures (forall a, b :: IsSpan(text, a, b) ==> parse(text[a..b + 1]).None?) ==> r == parse(Trim(text))
    ensures forall a, b :: FirstParsing(text, parse, a, b) ==>
      r == (if Truthy(parse(text[a..b + 1]).value) then parse(text[a..b + 1]) else parse(Trim(text)))
  {
    var scanned := ScanParse(text, parse);
    if scanned.Some? && Truthy(scanned.value) then scanned else parse(Trim(text))
  }

  /** The plan carries a non-empty raw reply text. */
  predicate HasRawText(plan: Json) {
    plan.Obj? && match Lookup(plan.fields, "raw") case Some(Str(raw)) => raw != "" case _ => false
  }

  /** The raw reply text of a plan that has one. */
  function RawText(plan: Json): string
    requires HasRawText(plan)
  {
    Lookup(plan.fields, "raw").value.s
  }

  /** `after` is `before` with only `plano` changed, and the new `plano` has `etapas`. */
  ghost predicate PlanoReplaced(before: Json, after: Json) {
    && before.Obj? && after.Obj?
    && HasPlanoEtapas(after)
    && forall k :: k != "plano" ==> Lookup(after.fields, k) == Lookup(before.fields, k)
  }

  /** `after` is `before` with `plano` set to exactly `plano`, which has `etapas`. */
  ghost predicate PlanoInstalled(before: Json, after: Json, plano: Json) {
    PlanoReplaced(before, after) && Lookup(after.fields, "plano") == Some(plano)
  }

  /** `{ ...plan, plano }` when the recovered value carries a plan; the plan unchanged otherwise. */
  function Install(plan: Json, recovered: Option<Json>): (r: Json)
    requires plan.Obj?
    ensures r == plan || PlanoReplaced(plan, r)
    ensures recovered.Some? && PlanoOf(recovered.value).Some? ==> PlanoInstalled(plan, r, PlanoOf(recovered.value).value)
    ensures (recovered.None? || PlanoOf(recovered.value).None?) ==> r == plan
  {
    match recovered
    case Some(v) =>
      (match PlanoOf(v)
       case Some(plano) => Obj(Set(plan.fields, "plano", plano))
       case None => plan)
    case None => plan
  }

  /**
   * `normalizedPlan` on the lesson-plan page. A plan that already has
   * `plano.etapas` is kept; a plan with a raw reply gets its `plano` from the
   * recovered value; anything else, or a recovery that throws or finds no
   * `etapas`, leaves the plan as it was.
   */
  function NormalizedPlan(lessonPlan: Json, parse: string -> Option<Json>): (r: Json)
    ensures HasPlanoEtapas(lessonPlan) || !HasRawText(lessonPlan) ==> r == lessonPlan
    ensures r == lessonPlan || PlanoReplaced(lessonPlan, r)
    ensures !HasPlanoEtapas(lessonPlan) && HasRawText(lessonPlan) ==>
      (PlanoReplaced(lessonPlan, r) <==> match Recover(ScanText(RawText(lessonPlan)), parse)
         case Some(v) => PlanoOf(v).Some?
         case None => false)
    ensures !HasPlanoEtapas(lessonPlan) && HasRawText(lessonPlan) ==>
      match Recover(ScanText(RawText(lessonPlan)), parse)
      case Some(v) => PlanoOf(v).Some? ==> PlanoInstalled(lessonPlan, r, PlanoOf(v).value)
      case None => true
  {
    if HasPlanoEtapas(lessonPlan) then lessonPlan
    else if HasRawText(lessonPlan) then
      var r := Install(lessonPlan, Recover(ScanText(RawText(lessonPlan)), parse));
      assert r == lessonPlan ==> !PlanoReplaced(lessonPlan, r);
      r
    else lessonPlan
  }

  /**
   * `normalizePlan` in the classroom context: a falsy plan becomes null; a
   * raw reply is recovered from the first balanced span that parses, with no
   * fence handling and no whole-text fallback.
   */
  function NormalizePlan(plan: Json, parse: string -> Option<Json>): (r: Json)
    ensures !Truthy(plan) ==> r == Null
    ensures Truthy(plan) && (HasPlanoEtapas(plan) || !HasRawText(plan)) ==> r == plan
    ensures Truthy(plan) ==> r == plan || PlanoReplaced(plan, r)
    ensures Truthy(plan) && !HasPlanoEtapas(plan) && HasRawText(plan) ==>
      var raw := RawText(plan);
      && ((forall a, b :: IsSpan(raw, a, b) ==> parse(raw[a..b + 1]).None?) ==> r == plan)
      && forall a, b :: FirstParsing(raw, parse, a, b) ==>
           (PlanoReplaced(plan, r) <==> PlanoOf(parse(raw[a..b + 1]).value).Some?)
    ensures Truthy(plan) && !HasPlanoEtapas(plan) && HasRawText(plan) ==>
      var raw := RawText(plan);
      forall a, b :: FirstParsing(raw, parse, a, b) && PlanoOf(parse(raw[a..b + 1]).value).Some? ==>
        PlanoInstalled(plan, r, PlanoOf(parse(raw[a..b + 1]).value).value)
  {
    if !Truthy(plan) then Null
    else if HasPlanoEtapas(plan) then plan
    else if HasRawText(plan) then
      var r := Install(plan, ScanParse(RawText(plan), parse));
      assert r == plan ==> !PlanoReplaced(plan, r);
      r
    else plan
  }

  /** A reply whose only brace pair cut short by a quoted `}`: `{"a":"}","etapas":[]}`. */
  const QuotedReply: string := "{\"a\":\"}\",\"etapas\":[]}"

  /** The only balanced span of `QuotedReply` ends at the quoted brace. */
  lemma QuotedReplySpans()
    ensures IsSpan(QuotedReply, 0, 6)
    ensures forall a, b :: IsSpan(QuotedReply, a, b) ==> a == 0 && b == 6
  {
    var raw := QuotedReply;
    assert Depth(raw, 1) == 1 && Depth(raw, 6) == 1 && Depth(raw, 7) == 0;
    DepthNoBraces(raw, 7, |raw| - 1);
    assert Depth(raw, |raw|) == -1;
    forall a, b | IsSpan(raw, a, b)
      ensures a == 0 && b == 6
    {
      assert raw[a] == '{';
      assert b == 6 || b == |raw| - 1;
    }
  }

  /** Without backticks there is no fence, and the page scans the raw text itself. */
  lemma NoBacktickNoFence(s: string)
    requires '`' !in s
    ensures ScanText(s) == s
  {
    forall p | 0 <= p <= |s|
      ensures !OccursAt(s, Fence, p)
    {
      BacktickAt(s, p);
      assert p < |s| ==> s[p] in s;
    }
  }

  /** When the quoted span does not parse, no balanced span of `QuotedReply` does. */
  lemma QuotedReplyUnparsed(parse: string -> Option<Json>)
    requires parse("{\"a\":\"}") == None
    ensures forall a, b :: IsSpan(QuotedReply, a, b) ==> parse(QuotedReply[a..b + 1]).None?
  {
    QuotedReplySpans();
    assert QuotedReply[0..7] == "{\"a\":\"}";
  }

  /** On `QuotedReply` the page's scan finds nothing, so the whole text is parsed. */
  lemma QuotedReplyFallsBack(parse: string -> Option<Json>)
    requires parse("{\"a\":\"}") == None
    ensures ScanText(QuotedReply) == QuotedReply
    ensures Recover(QuotedReply, parse) == parse(QuotedReply)
  {
    QuotedReplyUnparsed(parse);
    QuotedReplyScanned();
    QuotedReplyTrimmed();
  }

  /** `QuotedReply` has no backtick, so the scan keeps it whole. */
  lemma QuotedReplyScanned()
    ensures ScanText(QuotedReply) == QuotedReply
  {
    assert QuotedReply == "{\"a\":" + "\"}\"," + "\"etapas\":" + "[]}";
    assert '`' !in "{\"a\":" && '`' !in "\"}\"," && '`' !in "\"etapas\":" && '`' !in "[]}";
    NoBacktickNoFence(QuotedReply);
  }

  lemma QuotedReplyTrimmed()
    ensures Trim(QuotedReply) == QuotedReply
  {
    TrimIdentity(QuotedReply);
  }

  /** A plan holding nothing but a raw reply text. */
  function RawPlan(text: string): Json {
    Obj([("raw", Str(text))])
  }

  lemma RawPlanFacts(text: string)
    requires text != ""
    ensures HasRawText(RawPlan(text)) && RawText(RawPlan(text)) == text
    ensures !HasPlanoEtapas(RawPlan(text))
  {
    var fs := [("raw", Str(text))];
    assert Lookup(fs, "plano") == Lookup(fs[..0], "plano");
  }

  /** The value the whole of `QuotedReply` parses to carries a bare plan. */
  lemma QuotedValueHasPlan()
    ensures PlanoOf(Obj([("a", Str("}")), ("etapas", Arr([]))])).Some?
  {
    var fs := [("a", Str("}")), ("etapas", Arr([]))];
    LookupAt(fs, 1);
    assert HasEtapas(Obj(fs));
  }

  /** The page recovers the plan from `QuotedReply` by parsing the whole text. */
  lemma QuotedReplyOnPage(parse: string -> Option<Json>)
    requires parse("{\"a\":\"}") == None
    requires parse(QuotedReply) == Some(Obj([("a", Str("}")), ("etapas", Arr([]))]))
    ensures PlanoReplaced(RawPlan(QuotedReply), NormalizedPlan(RawPlan(QuotedReply), parse))
  {
    QuotedReplyFallsBack(parse);
    QuotedValueHasPlan();
    RawPlanFacts(QuotedReply);
  }

  /** The context keeps `QuotedReply` raw: no balanced span of it parses. */
  lemma QuotedReplyInContext(parse: string -> Option<Json>)
    requires parse("{\"a\":\"}") == None
    ensures NormalizePlan(RawPlan(QuotedReply), parse) == RawPlan(QuotedReply)
  {
    QuotedReplyUnparsed(parse);
    RawPlanFacts(QuotedReply);
  }

  /**
   * The two recoveries disagree on `QuotedReply`: its first balanced span
   * does not parse, so the page falls back to parsing the whole text and
   * finds the plan, while the context keeps the raw reply.
   */
  lemma QuotedBraceDivergence(parse: string -> Option<Json>)
    requires parse("{\"a\":\"}") == None
    requires parse(QuotedReply) == Some(Obj([("a", Str("}")), ("etapas", Arr([]))]))
    ensures NormalizedPlan(RawPlan(QuotedReply), parse) != NormalizePlan(RawPlan(QuotedReply), parse)
  {
    QuotedReplyOnPage(parse);
    QuotedReplyInContext(parse);
    RawPlanFacts(QuotedReply);
  }

  /** No brace between `i` and `j` leaves the depth as it was. */
  lemma {:induction false} DepthNoBraces(t: string, i: nat, j: nat)
    requires i <= j <= |t|
    requires forall k :: i <= k < j ==> t[k] != '{' && t[k] != '}'
    ensures Depth(t, j) == Depth(t, i)
    decreases j - i
  {
    if i < j {
      DepthNoBraces(t, i, j - 1);
    }
  }
}
