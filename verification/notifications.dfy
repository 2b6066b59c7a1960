/**
 * The notification list (src/contexts/NotificationContext.jsx): entries are
 * appended with a generated id, removed by id or all at once, and the AI
 * analysis is announced by at most one consolidated digest.
 */
module Notifications {
  import opened Wrappers
  import opened Text
  import opened JsonData
  import opened Seqs

  /**
   * `{ id, ...notification, createdAt: Date.now() }`: the generated id comes
   * first, so an `id` the caller supplies overrides it.
   */
  function NewEntry(notification: Fields, id: real, now: real): (r: Json)
    ensures r.Obj?
    ensures Get(r, "createdAt") == Some(Num(now))
    ensures Get(r, "id") == (if Lookup(notification, "id").Some? then Lookup(notification, "id") else Some(Num(id)))
    ensures forall k :: k != "id" && k != "createdAt" ==> Get(r, k) == Lookup(notification, k)
  {
    var generated := [("id", Num(id))];
    LookupAt(generated, 0);
    var fs := Spread(generated, notification);
    assert forall k :: k != "id" ==> Lookup(generated, k).None? by {
      assert generated[..0] == [];
    }
    Obj(Set(fs, "createdAt", Num(now)))
  }

  /**
   * `addNotification`: one new entry at the end, the existing ones kept. The
   * id (`Date.now() + Math.random()`) and the clock are parameters.
   */
  function AddNotification(list: seq<Json>, notification: Fields, id: real, now: real): (r: seq<Json>)
    ensures |r| == |list| + 1
    ensures r[..|list|] == list
    ensures r[|list|] == NewEntry(notification, id, now)
  {
    list + [NewEntry(notification, id, now)]
  }

  /**
   * The auto-dismiss timer: none when `autoDismiss` is `false`, otherwise
   * after `duration`, or 8000 ms when that is falsy.
   */
  function DismissDelay(notification: Fields): (r: Option<Json>)
    ensures r.None? <==> Lookup(notification, "autoDismiss") == Some(Bool(false))
    ensures r.Some? && Present(Lookup(notification, "duration")) ==> r.value == Lookup(notification, "duration").value
    ensures r.Some? && !Present(Lookup(notification, "duration")) ==> r.value == Num(8000.0)
  {
    if Lookup(notification, "autoDismiss") == Some(Bool(false)) then None
    else if Present(Lookup(notification, "duration")) then Some(Lookup(notification, "duration").value)
    else Some(Num(8000.0))
  }

  /** `n.id !== id` */
  predicate KeepsId(n: Json, id: Json) {
    Get(n, "id") != Some(id)
  }

  /** `removeNotification` (and the dismiss timer): every entry with the id goes, the rest stay in order. */
  function RemoveNotification(list: seq<Json>, id: Json): (r: seq<Json>)
    ensures |r| <= |list|
    ensures forall n :: n in r <==> n in list && Get(n, "id") != Some(id)
    ensures forall n :: n in list ==> multiset(r)[n] == if KeepsId(n, id) then multiset(list)[n] else 0
  {
    FilterCount(list, n => KeepsId(n, id));
    Filter(list, n => KeepsId(n, id))
  }

  /** One entry survives removal exactly when its id differs. */
  lemma RemoveNotificationSingle(n: Json, id: Json)
    ensures RemoveNotification([n], id) == if KeepsId(n, id) then [n] else []
  {
    FilterSingleton(n, m => KeepsId(m, id));
  }

  /** Removal works piece by piece, so the survivors keep their order. */
  lemma {:induction false} RemoveNotificationConcat(a: seq<Json>, b: seq<Json>, id: Json)
    ensures RemoveNotification(a + b, id) == RemoveNotification(a, id) + RemoveNotification(b, id)
  {
    FilterConcat(a, b, n => KeepsId(n, id));
  }

  /** `clearAll` */
  function ClearAll(list: seq<Json>): (r: seq<Json>)
    ensures |r| == 0
  {
    []
  }

  /** Removing a freshly added notification by the id it was given restores the list. */
  lemma AddThenRemove(list: seq<Json>, notification: Fields, id: real, now: real)
    requires forall i :: 0 <= i < |list| ==> Get(list[i], "id") != Some(Num(id))
    requires Lookup(notification, "id").None?
    ensures RemoveNotification(AddNotification(list, notification, id, now), Num(id)) == list
  {
    var e := NewEntry(notification, id, now);
    assert RemoveNotification(list, Num(id)) == list by {
      FilterKeepsAll(list, n => KeepsId(n, Num(id)));
    }
    assert RemoveNotification([e], Num(id)) == [] by {
      RemoveNotificationSingle(e, Num(id));
    }
    RemoveNotificationConcat(list, [e], Num(id));
  }

  /**
   * A notification that brings its own `id` is out of reach of the id
   * `addNotification` returns: removing by that id, as the dismiss timer
   * does, leaves it in place.
   */
  lemma OwnIdOutlivesDismissal(list: seq<Json>, notification: Fields, id: real, now: real)
    requires Lookup(notification, "id").Some? && Lookup(notification, "id") != Some(Num(id))
    ensures NewEntry(notification, id, now) in RemoveNotification(AddNotification(list, notification, id, now), Num(id))
  {
    var r := AddNotification(list, notification, id, now);
    assert r[|list|] in r;
  }

  // ----------------------------------------------------------------- digest

  const DigestTitle := "Análise da turma concluída"
  const DigestSeparator := " · "
  const DigestSuffix := ". Confira os detalhes no Dashboard."

  function RiskPart(n: nat): string { NatToString(n) + " aluno(s) em risco" }
  function InvisiblePart(n: nat): string { NatToString(n) + " aluno(s) invisível(eis)" }
  function SuggestionPart(n: nat): string { NatToString(n) + " sugestão(ões) disponível(eis)" }

  /** The digest's parts: one per non-empty list, in the order risk, invisible, suggestions. */
  function DigestParts(risk: nat, invisible: nat, suggestions: nat): (parts: seq<string>)
    ensures |parts| == (if risk > 0 then 1 else 0) + (if invisible > 0 then 1 else 0) + (if suggestions > 0 then 1 else 0)
    ensures risk > 0 ==> parts[0] == RiskPart(risk)
    ensures invisible > 0 ==> parts[if risk > 0 then 1 else 0] == InvisiblePart(invisible)
    ensures suggestions > 0 ==> parts[|parts| - 1] == SuggestionPart(suggestions)
    ensures suggestions == 0 && invisible > 0 ==> parts[|parts| - 1] == InvisiblePart(invisible)
  {
    (if risk > 0 then [RiskPart(risk)] else [])
    + (if invisible > 0 then [InvisiblePart(invisible)] else [])
    + (if suggestions > 0 then [SuggestionPart(suggestions)] else [])
  }

  /** `parts.join(' · ') + '. Confira os detalhes no Dashboard.'` */
  function DigestMessage(risk: nat, invisible: nat, suggestions: nat): (m: string)
    requires risk > 0 || invisible > 0 || suggestions > 0
    ensures EndsWith(m, DigestSuffix)
    ensures risk > 0 ==> StartsWith(m, RiskPart(risk))
    ensures risk == 0 && invisible > 0 ==> StartsWith(m, InvisiblePart(invisible))
    ensures suggestions > 0 ==> EndsWith(m, SuggestionPart(suggestions) + DigestSuffix)
  {
    var parts := DigestParts(risk, invisible, suggestions);
    var body := Join(parts, DigestSeparator);
    JoinStartsWith(parts, DigestSeparator);
    JoinEndsWith(parts, DigestSeparator);
    StartsWithAppend(body, parts[0], DigestSuffix);
    EndsWithAppend(body, parts[|parts| - 1], DigestSuffix);
    EndsWithAppend(body, [], DigestSuffix);
    body + DigestSuffix
  }

  /**
   * The digest message spelled out: each present part in order, a ` · `
   * between two present parts and none elsewhere, then the closing sentence.
   */
  lemma DigestMessageExplicit(risk: nat, invisible: nat, suggestions: nat)
    requires risk > 0 || invisible > 0 || suggestions > 0
    ensures DigestMessage(risk, invisible, suggestions) ==
      (if risk > 0 then RiskPart(risk) else "")
      + (if risk > 0 && invisible > 0 then DigestSeparator else "")
      + (if invisible > 0 then InvisiblePart(invisible) else "")
      + (if (risk > 0 || invisible > 0) && suggestions > 0 then DigestSeparator else "")
      + (if suggestions > 0 then SuggestionPart(suggestions) else "")
      + DigestSuffix
  {
    JoinPresent(RiskPart(risk), InvisiblePart(invisible), SuggestionPart(suggestions), risk > 0, invisible > 0, suggestions > 0, DigestSeparator);
  }

  /** `analysis?.<list>?.length` for the three lists the digest counts. */
  function RiskCount(analysis: Json): nat { LengthOr0(Get(analysis, "alunosEmRisco")) }
  function InvisibleTotal(analysis: Json): nat { LengthOr0(Get(analysis, "alunosInvisiveis")) }
  function SuggestionCount(analysis: Json): nat { LengthOr0(Get(analysis, "sugestoes")) }

  /**
   * `pushAIInsights`'s notification: none when all three lists are empty or
   * missing; otherwise an 'alert' exactly when students are at risk (else an
   * 'insight'), with the fixed title, the digest message and a 10-second
   * duration.
   */
  function Digest(analysis: Json): (r: Option<Fields>)
    ensures r.None? <==> RiskCount(analysis) == 0 && InvisibleTotal(analysis) == 0 && SuggestionCount(analysis) == 0
    ensures r.Some? ==> Lookup(r.value, "type") == Some(Str(if RiskCount(analysis) > 0 then "alert" else "insight"))
    ensures r.Some? ==> Lookup(r.value, "title") == Some(Str(DigestTitle))
    ensures r.Some? ==>
      Lookup(r.value, "message") == Some(Str(DigestMessage(RiskCount(analysis), InvisibleTotal(analysis), SuggestionCount(analysis))))
    ensures r.Some? ==> DismissDelay(r.value) == Some(Num(10000.0))
  {
    var risk, invisible, suggestions := RiskCount(analysis), InvisibleTotal(analysis), SuggestionCount(analysis);
    if risk == 0 && invisible == 0 && suggestions == 0 then None
    else
      var kind := if risk > 0 then "alert" else "insight";
      var message := DigestMessage(risk, invisible, suggestions);
      DigestFieldsRead(kind, message);
      Some(DigestFields(kind, message))
  }

  /** The digest notification's fields, in the order the page writes them. */
  function DigestFields(kind: string, message: string): Fields {
    [("type", Str(kind)), ("title", Str(DigestTitle)), ("message", Str(message)), ("duration", Num(10000.0))]
  }

  lemma DigestFieldsRead(kind: string, message: string)
    ensures var fs := DigestFields(kind, message);
      && Lookup(fs, "type") == Some(Str(kind)) && Lookup(fs, "title") == Some(Str(DigestTitle))
      && Lookup(fs, "message") == Some(Str(message)) && DismissDelay(fs) == Some(Num(10000.0))
  {
    var fs := DigestFields(kind, message);
    LookupAt(fs, 0);
    LookupAt(fs, 1);
    LookupAt(fs, 2);
    LookupAt(fs, 3);
    LookupMissing(fs, "autoDismiss");
  }

  /** `pushAIInsights` on the list: at most one entry is added, and one is exactly when some list is non-empty. */
  function PushAIInsights(list: seq<Json>, analysis: Json, id: real, now: real): (r: seq<Json>)
    ensures |list| <= |r| <= |list| + 1
    ensures r[..|list|] == list
    ensures |r| == |list| + 1 <==> RiskCount(analysis) > 0 || InvisibleTotal(analysis) > 0 || SuggestionCount(analysis) > 0
    ensures |r| == |list| + 1 ==> Digest(analysis).Some? && r[|list|] == NewEntry(Digest(analysis).value, id, now)
  {
    match Digest(analysis)
    case None => list
    case Some(n) => AddNotification(list, n, id, now)
  }
}
