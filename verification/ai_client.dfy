/**
 * The deterministic part of the AI client: how a question and its context
 * become one prompt, and how the model's free-form reply is turned back into
 * structured data. The model call itself is not modelled: each extractor
 * takes the reply text as input, and `JSON.parse` is the parameter `parse`
 * (`None` when it throws).
 */
module AiClient {
  import opened Wrappers
  import opened Text
  import opened JsonData
  import opened PlanShape

  const Fence: string := "```"
  const JsonFenceOpen: string := "```json"

  // ---------------------------------------------------------------- prompts

  const ContextHeader: string := "Contexto:\n"
  const QuestionHeader: string := "\n\nPergunta/Instrução:\n"

  /** The prompt sent for a question: the context block comes first when there is one. */
  function FullPrompt(prompt: string, context: string): (r: string)
    ensures context == "" ==> r == prompt
    ensures context != "" ==> StartsWith(r, ContextHeader) && EndsWith(r, QuestionHeader + prompt)
    ensures context != "" ==> |r| >= |ContextHeader| + |context| && r[|ContextHeader|..|ContextHeader| + |context|] == context
    ensures context != "" ==> |r| == |ContextHeader| + |context| + |QuestionHeader| + |prompt|
  {
    if context != "" then ContextHeader + context + QuestionHeader + prompt else prompt
  }

  // ------------------------------------------------------- fence removal

  /** An optional `json` tag right after an opening fence. */
  function SkipTag(s: string): (r: string)
    ensures r == s || (StartsWith(s, "json") && r == s[4..])
  {
    if StartsWith(s, "json") then s[4..] else s
  }

  /**
   * `s.replace(/```(?:json)?\s*\n?/g, '')`: every fence found scanning left
   * to right is deleted together with an optional `json` tag and the
   * whitespace that follows it (`\s*` already takes any newline).
   */
  function StripTaggedFences(s: string): (r: string)
    ensures |r| <= |s|
    decreases |s|
  {
    if |s| < 3 then s
    else if s[..3] == Fence then
      var rest := TrimStart(SkipTag(s[3..]));
      assert |rest| < |s|;
      StripTaggedFences(rest)
    else [s[0]] + StripTaggedFences(s[1..])
  }

  /** `s.replace(/```/g, '')` */
  function RemoveFences(s: string): (r: string)
    ensures |r| <= |s|
    decreases |s|
  {
    if |s| < 3 then s
    else if s[..3] == Fence then RemoveFences(s[3..])
    else [s[0]] + RemoveFences(s[1..])
  }

  /** Text that does not start with a fence keeps its first character. */
  lemma KeepsFirst(y: string)
    requires |y| > 0 && !OccursAt(y, Fence, 0)
    ensures |RemoveFences(y)| > 0 && RemoveFences(y)[0] == y[0]
  {
  }

  /** `RemoveFences` leaves no fence behind, not even one formed by joining the kept pieces. */
  lemma {:induction false} RemoveFencesFree(s: string)
    ensures Free(RemoveFences(s), Fence)
    decreases |s|
  {
    if |s| < 3 {
    } else if s[..3] == Fence {
      RemoveFencesFree(s[3..]);
    } else {
      var y := s[1..];
      var rest := RemoveFences(y);
      RemoveFencesFree(y);
      var r := [s[0]] + rest;
      assert RemoveFences(s) == r;
      forall k | 0 <= k <= |r|
        ensures !OccursAt(r, Fence, k)
      {
        if k >= 1 {
          assert !OccursAt(rest, Fence, k - 1);
          if k + 3 <= |r| {
            assert r[k..k + 3] == rest[k - 1..k + 2];
          }
        } else if s[0] != '`' {
          assert r[0] != '`';
        } else {
          assert !OccursAt(y, Fence, 0) by {
            if |y| >= 3 {
              assert s[..3] == [s[0]] + y[..2];
            }
          }
          KeepsFirst(y);
          if s[1] != '`' {
            assert r[1] == s[1];
          } else if |s| >= 3 {
            assert s[2] != '`' by {
              assert s[..3] == [s[0], s[1], s[2]];
            }
            var z := y[1..];
            assert y[1] == s[2];
            if |y| >= 3 {
              assert RemoveFences(y) == [y[0]] + RemoveFences(z);
              KeepsFirst(z);
              assert rest[1] == s[2];
            } else {
              assert rest == y;
            }
            assert r[2] == s[2];
          }
        }
      }
    }
  }

  /**
   * The text `generateLessonPlan` parses: tagged fences and their trailing
   * whitespace removed, then every remaining fence, then trimmed. No fence
   * survives the cleaning.
   */
  function CleanResponse(result: string): (text: string)
    ensures Free(text, Fence)
    ensures text != [] ==> !IsSpace(text[0]) && !IsSpace(text[|text| - 1])
  {
    var stripped := RemoveFences(StripTaggedFences(result));
    RemoveFencesFree(StripTaggedFences(result));
    TrimFree(stripped, Fence);
    Trim(stripped)
  }

  /** Text with no backtick passes through the tagged-fence pass unchanged, as a prefix. */
  lemma {:induction false} StripTaggedPrefix(x: string, y: string)
    requires '`' !in x
    ensures StripTaggedFences(x + y) == x + StripTaggedFences(y)
    decreases |x|
  {
    if |x| > 0 {
      var s := x + y;
      if |s| >= 3 {
        assert s[..3] != Fence by {
          assert s[0] == x[0];
        }
      } else {
        assert StripTaggedFences(s) == s;
        assert |y| < 3;
        assert StripTaggedFences(y) == y;
      }
      assert s[1..] == x[1..] + y;
      StripTaggedPrefix(x[1..], y);
      if |s| >= 3 {
        assert StripTaggedFences(s) == [x[0]] + StripTaggedFences(x[1..] + y);
        assert x == [x[0]] + x[1..];
      }
    } else {
      assert x + y == y;
    }
  }

  /** Text with no backtick survives the fence removal unchanged. */
  lemma {:induction false} RemoveFencesPlain(x: string)
    requires '`' !in x
    ensures RemoveFences(x) == x
    decreases |x|
  {
    if |x| >= 3 {
      assert x[..3] != Fence by {
        assert x[0] != '`';
      }
      RemoveFencesPlain(x[1..]);
      assert x == [x[0]] + x[1..];
    }
  }

  /** The reply as a model usually wraps it: a fence, an optional `json` tag, a newline, the text, a newline, a fence. */
  function Fenced(tag: string, x: string): string {
    Fence + tag + "\n" + x + "\n" + Fence
  }

  /** The optional `json` tag is skipped when a newline follows it. */
  lemma SkipKnownTag(tag: string, body: string)
    requires tag == "" || tag == "json"
    requires body != [] && body[0] == '\n'
    ensures SkipTag(tag + body) == body
  {
    if tag == "json" {
      assert (tag + body)[..4] == "json";
      assert (tag + body)[4..] == body;
    } else {
      assert tag + body == body;
    }
  }

  /** One leading newline before a non-space character is all that `trimStart` removes. */
  lemma TrimNewline(y: string)
    requires y != [] && !IsSpace(y[0])
    ensures TrimStart("\n" + y) == y
  {
    var ny := "\n" + y;
    assert ny[1..] == y;
    assert TrimStart(y) == y;
  }

  /** After an opening fence, the optional tag and the newline are skipped up to the reply's first character. */
  lemma OpeningSkipped(tag: string, x: string, tail: string)
    requires tag == "" || tag == "json"
    requires x != [] && !IsSpace(x[0])
    ensures TrimStart(SkipTag(tag + "\n" + x + tail)) == x + tail
  {
    var y := x + tail;
    assert y[0] == x[0];
    assert tag + "\n" + x + tail == tag + ("\n" + y);
    SkipKnownTag(tag, "\n" + y);
    TrimNewline(y);
  }

  /** The closing fence goes, the newline before it stays. */
  lemma ClosingStripped()
    ensures StripTaggedFences("\n" + Fence) == "\n"
  {
    var tail := "\n" + Fence;
    assert tail[..3] == ['\n', '`', '`'];
    assert tail[1..] == Fence;
    assert Fence[..3] == Fence && Fence[3..] == "";
    assert SkipTag("") == "" && TrimStart("") == "";
    assert StripTaggedFences(Fence) == StripTaggedFences("");
    assert StripTaggedFences(tail) == [tail[0]] + StripTaggedFences(tail[1..]);
  }

  /** The tagged-fence pass turns a fenced reply into the reply plus the newline before the closing fence. */
  lemma StripFenced(tag: string, x: string)
    requires tag == "" || tag == "json"
    requires '`' !in x && x != [] && !IsSpace(x[0])
    ensures StripTaggedFences(Fenced(tag, x)) == x + "\n"
  {
    var w := Fenced(tag, x);
    var tail := "\n" + Fence;
    assert w[..3] == Fence;
    assert w[3..] == tag + "\n" + x + tail;
    OpeningSkipped(tag, x, tail);
    assert StripTaggedFences(w) == StripTaggedFences(x + tail);
    StripTaggedPrefix(x, tail);
    ClosingStripped();
  }

  /** A trimmed, backtick-free reply is parsed exactly as received. */
  lemma CleanPlain(x: string)
    requires '`' !in x && (x != [] ==> !IsSpace(x[0]) && !IsSpace(x[|x| - 1]))
    ensures CleanResponse(x) == x
  {
    StripTaggedPrefix(x, "");
    assert x + "" == x;
    RemoveFencesPlain(x);
    TrimIdentity(x);
  }

  /**
   * Wrapping a trimmed, backtick-free reply in a code fence, with or without
   * the `json` tag, does not change the text that gets parsed.
   */
  lemma FencedCleansToSame(tag: string, x: string)
    requires tag == "" || tag == "json"
    requires '`' !in x && x != [] && !IsSpace(x[0]) && !IsSpace(x[|x| - 1])
    ensures CleanResponse(Fenced(tag, x)) == CleanResponse(x)
  {
    StripFenced(tag, x);
    RemoveFencesPlain(x + "\n");
    TrimEndNewline(x);
    CleanPlain(x);
  }

  /** A trailing newline after text that ends in a non-space is exactly what `trim` removes. */
  lemma TrimEndNewline(x: string)
    requires x != [] && !IsSpace(x[0]) && !IsSpace(x[|x| - 1])
    ensures Trim(x + "\n") == x
  {
    var xn := x + "\n";
    assert TrimStart(xn) == xn by {
      assert xn[0] == x[0];
    }
    var t := Trim(xn);
    assert xn[|x|] == '\n' && xn[|x| - 1] == x[|x| - 1];
    assert t == xn[..|x|];
  }

  // ------------------------------------------------------ brace slicing

  /**
   * `text.indexOf('{')` and `text.lastIndexOf('}')` when the last closing
   * brace follows the first opening one: the widest candidate object.
   */
  function BraceSlice(text: string): (r: Option<(nat, nat)>)
    ensures r.Some? ==> (r.value.0 < r.value.1 < |text|
      && text[r.value.0] == '{' && text[r.value.1] == '}'
      && (forall k :: 0 <= k < r.value.0 ==> text[k] != '{')
      && (forall k :: r.value.1 < k < |text| ==> text[k] != '}'))
    ensures r.None? <==> forall i, j :: 0 <= i < j < |text| && text[i] == '{' ==> text[j] != '}'
  {
    var first := IndexOfChar(text, '{');
    var last := LastIndexOfChar(text, '}');
    if first != -1 && last > first then
      Some((first, last))
    else
      assert forall i, j :: 0 <= i < j < |text| && text[i] == '{' ==> text[j] != '}' by {
        forall i, j | 0 <= i < j < |text| && text[i] == '{'
          ensures text[j] != '}'
        {
          assert text[i] in text && text[j] in text;
        }
      }
      None
  }

  /** The text between the braces `BraceSlice` found, both included. */
  function SliceText(text: string, span: (nat, nat)): string
    requires span.0 <= span.1 < |text|
  {
    text[span.0..span.1 + 1]
  }

  // -------------------------------------------------- lesson-plan reply

  /** What the second attempt yields: a plan when it carries `etapas`, else the parsed value as it is. */
  function Shape(parsed: Json): (r: Json)
    ensures HasPlanoEtapas(parsed) ==> r == parsed
    ensures !HasPlanoEtapas(parsed) && HasEtapas(parsed) ==> r == Wrap(parsed)
    ensures !HasEtapas(parsed) ==> HasPlanoEtapas(r) == HasPlanoEtapas(parsed)
    ensures !HasPlanoEtapas(parsed) && !HasEtapas(parsed) ==> r == parsed
  {
    if HasPlanoEtapas(parsed) then parsed
    // `parsed?.titulo && parsed?.etapas` and `parsed?.etapas` wrap alike
    else if HasEtapas(parsed) then Wrap(parsed)
    else parsed
  }

  /** `parse` accepts some slice of `text`, giving `v`. */
  ghost predicate ParsesSlice(text: string, parse: string -> Option<Json>, v: Json) {
    exists a, b :: 0 <= a <= b <= |text| && parse(text[a..b]) == Some(v)
  }

  /** The whole-text parse yields a plan, bare or wrapped. */
  predicate DirectPlan(text: string, parse: string -> Option<Json>) {
    parse(text).Some? && (HasPlanoEtapas(parse(text).value) || HasEtapas(parse(text).value))
  }

  /**
   * The attempts `generateLessonPlan` makes on the cleaned reply `text`. The
   * whole text is parsed first; a plan found there is returned (wrapped when
   * `etapas` is bare). A parse that fails, or yields something without
   * `etapas`, falls through to the widest brace slice, whose parsed value is
   * returned whatever its shape. When that fails too the reply is kept as
   * `{ raw }`.
   */
  function PlanFromText(result: string, text: string, parse: string -> Option<Json>): (r: Json)
    ensures DirectPlan(text, parse) ==> HasPlanoEtapas(r)
    ensures r == RawReply(result) || HasPlanoEtapas(r) || ParsesSlice(text, parse, r)
    ensures BraceSlice(text).None? && !DirectPlan(text, parse) ==> r == RawReply(result)
  {
    var direct := parse(text);
    if direct.Some? && HasPlanoEtapas(direct.value) then direct.value
    else if direct.Some? && HasEtapas(direct.value) then Wrap(direct.value)
    else
      match BraceSlice(text)
      case None => RawReply(result)
      case Some(span) =>
        match parse(SliceText(text, span))
        case None => RawReply(result)
        case Some(parsed) =>
          assert parse(text[span.0..span.1 + 1]) == Some(parsed);
          Shape(parsed)
  }

  /** A direct parse with a plan shape is returned: as it is, or wrapped when `etapas` is bare. */
  lemma DirectPlanReturned(result: string, text: string, parse: string -> Option<Json>, v: Json)
    requires parse(text) == Some(v)
    ensures HasPlanoEtapas(v) ==> PlanFromText(result, text, parse) == v
    ensures !HasPlanoEtapas(v) && HasEtapas(v) ==> PlanFromText(result, text, parse) == Wrap(v)
  {
  }

  /**
   * A direct parse without `etapas` is not an answer: the outcome is decided
   * by the brace slice alone, exactly as if the direct parse had thrown. The
   * same value comes back only when the slice is the whole text.
   */
  lemma DirectWithoutPlanFallsThrough(result: string, text: string, parse: string -> Option<Json>,
                                      parse': string -> Option<Json>)
    requires parse(text).Some? && !HasPlanoEtapas(parse(text).value) && !HasEtapas(parse(text).value)
    requires parse'(text).None?
    requires forall t :: t != text ==> parse'(t) == parse(t)
    ensures BraceSlice(text).None? ==> PlanFromText(result, text, parse) == RawReply(result)
    ensures BraceSlice(text).Some? && SliceText(text, BraceSlice(text).value) != text ==>
      PlanFromText(result, text, parse) == PlanFromText(result, text, parse')
    ensures BraceSlice(text).Some? && SliceText(text, BraceSlice(text).value) == text ==>
      PlanFromText(result, text, parse) == parse(text).value
  {
  }

  /**
   * On the slice path a parsed value is returned whatever its shape: only
   * `etapas` causes wrapping, and a value without it comes back unchanged.
   */
  lemma SliceReturnedUngated(result: string, text: string, parse: string -> Option<Json>, w: Json)
    requires !DirectPlan(text, parse) && BraceSlice(text).Some?
    requires parse(SliceText(text, BraceSlice(text).value)) == Some(w)
    ensures !HasPlanoEtapas(w) && !HasEtapas(w) ==> PlanFromText(result, text, parse) == w
    ensures HasPlanoEtapas(PlanFromText(result, text, parse)) == (HasPlanoEtapas(w) || HasEtapas(w))
  {
  }

  /** `generateLessonPlan` after the model call: the attempts above, on the cleaned reply. */
  function GenerateLessonPlan(result: string, parse: string -> Option<Json>): (r: Json)
    ensures r == RawReply(result) || HasPlanoEtapas(r) || ParsesSlice(CleanResponse(result), parse, r)
    ensures '`' !in result && '{' !in result && !DirectPlan(Trim(result), parse) ==> r == RawReply(result)
  {
    var text := CleanResponse(result);
    if '`' !in result then
      CleanNoBacktick(result);
      PlanFromText(result, text, parse)
    else
      PlanFromText(result, text, parse)
  }

  /** A reply without backticks is only trimmed, which adds no character. */
  lemma CleanNoBacktick(result: string)
    requires '`' !in result
    ensures CleanResponse(result) == Trim(result)
    ensures '{' !in result ==> '{' !in CleanResponse(result)
  {
    StripTaggedPrefix(result, "");
    assert result + "" == result;
    RemoveFencesPlain(result);
    if '{' !in result {
      TrimNoNewChar(result, '{');
    }
  }

  /**
   * A fenced reply yields the same plan as the bare reply; only the `{ raw }`
   * fallback differs, since it keeps the reply exactly as received.
   */
  lemma FencedReplySamePlan(tag: string, x: string, parse: string -> Option<Json>)
    requires tag == "" || tag == "json"
    requires '`' !in x && x != [] && !IsSpace(x[0]) && !IsSpace(x[|x| - 1])
    ensures var plain := GenerateLessonPlan(x, parse);
      var fenced := GenerateLessonPlan(Fenced(tag, x), parse);
      fenced == plain || (plain == RawReply(x) && fenced == RawReply(Fenced(tag, x)))
  {
    FencedCleansToSame(tag, x);
    var text := CleanResponse(x);
    PlanOnCleanedText(x, parse);
    PlanOnCleanedText(Fenced(tag, x), parse);
    SameTextSamePlan(x, Fenced(tag, x), text, parse);
  }

  /** The plan is decided by the cleaned text alone. */
  lemma PlanOnCleanedText(result: string, parse: string -> Option<Json>)
    ensures GenerateLessonPlan(result, parse) == PlanFromText(result, CleanResponse(result), parse)
  {
  }

  /** The received reply only matters for the `{ raw }` fallback. */
  lemma SameTextSamePlan(r1: string, r2: string, text: string, parse: string -> Option<Json>)
    ensures var p1 := PlanFromText(r1, text, parse);
      var p2 := PlanFromText(r2, text, parse);
      p1 == p2 || (p1 == RawReply(r1) && p2 == RawReply(r2))
  {
  }

  // ------------------------------------------ notebook and class analysis

  /**
   * `/```json\n?([\s\S]*?)```/`: the first `json`-tagged fence and the first
   * fence after it, as (opening, body start, closing). The body starts after
   * the tag and one optional newline.
   */
  function JsonFence(s: string): (r: Option<(nat, nat, nat)>)
    ensures r.Some? ==>
      OccursAt(s, JsonFenceOpen, r.value.0)
      && (forall q :: 0 <= q < r.value.0 ==> !OccursAt(s, JsonFenceOpen, q))
      && r.value.1 == r.value.0 + 7 + (if r.value.0 + 7 < |s| && s[r.value.0 + 7] == '\n' then 1 else 0)
      && r.value.1 <= r.value.2 && OccursAt(s, Fence, r.value.2)
      && (forall q :: r.value.1 <= q < r.value.2 ==> !OccursAt(s, Fence, q))
    ensures r.None? <==> forall p, c :: OccursAt(s, JsonFenceOpen, p) && p + 7 <= c ==> !OccursAt(s, Fence, c)
  {
    var p := IndexOfFrom(s, JsonFenceOpen, 0);
    if p == -1 then None
    else
      var b := p + 7 + (if p + 7 < |s| && s[p + 7] == '\n' then 1 else 0);
      var c := IndexOfFrom(s, Fence, b);
      if c == -1 then
        assert forall p', c' :: OccursAt(s, JsonFenceOpen, p') && p' + 7 <= c' ==> !OccursAt(s, Fence, c') by {
          forall p', c' | OccursAt(s, JsonFenceOpen, p') && p' + 7 <= c'
            ensures !OccursAt(s, Fence, c')
          {
            assert p <= p';
            assert c' < b ==> c' == p + 7 && s[c'] == '\n';
          }
        }
        None
      else
        Some((p, b, c))
  }

  /** `jsonMatch[1] || jsonMatch[0]`: the fence body, or the whole match when the body is empty. */
  function FenceCandidate(s: string, m: (nat, nat, nat)): string
    requires m.0 <= m.1 <= m.2 && m.2 + 3 <= |s|
  {
    if m.1 < m.2 then s[m.1..m.2] else s[m.0..m.2 + 3]
  }

  /**
   * `processNotebookLM` and `analyzeClassroom` after the model call. A closed
   * `json` fence wins, and when its contents do not parse the reply falls
   * back to `{ raw }` without trying the brace slice. Without such a fence the
   * widest brace slice is parsed. Whatever parses is returned unchecked.
   */
  function ParseStructuredReply(result: string, parse: string -> Option<Json>): (r: Json)
    ensures match JsonFence(result)
      case Some(m) => r == (match parse(FenceCandidate(result, m)) case Some(v) => v case None => RawReply(result))
      case None => r == (match BraceSlice(result)
        case Some(span) => (match parse(SliceText(result, span)) case Some(v) => v case None => RawReply(result))
        case None => RawReply(result))
    ensures r == RawReply(result)
      || exists a, b :: 0 <= a <= b <= |result| && parse(result[a..b]) == Some(r)
  {
    match JsonFence(result)
    case Some(m) =>
      (match parse(FenceCandidate(result, m))
       case Some(v) => v
       case None => RawReply(result))
    case None =>
      match BraceSlice(result)
      case Some(span) =>
        (match parse(SliceText(result, span))
         case Some(v) => v
         case None => RawReply(result))
      case None => RawReply(result)
  }

  /** A reply with no closed `json` fence and no `{ ... }` pair is kept raw, whatever `parse` does. */
  lemma ReplyWithoutObjectIsRaw(result: string, parse: string -> Option<Json>)
    requires forall p :: !OccursAt(result, JsonFenceOpen, p)
    requires '{' !in result
    ensures ParseStructuredReply(result, parse) == RawReply(result)
  {
    assert BraceSlice(result).None?;
  }
}
