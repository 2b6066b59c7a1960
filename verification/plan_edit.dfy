/**
 * Editing the lessons of a lesson plan in place (src/pages/PlanoAula.jsx):
 * change one field of a lesson, append a default lesson to a stage, remove a
 * lesson. Each edit works on a deep copy; an edit whose path does not exist
 * throws in the page, and here leaves the plan as it was. The saved-plans list
 * shows how many lessons a plan has, which these edits move by one at most.
 */
module PlanEdit {
  import opened Wrappers
  import opened JsonData

  /** `plan.plano.etapas`, when it is an array inside an object. */
  function Etapas(plan: Json): Option<seq<Json>> {
    match Get(plan, "plano")
    case Some(Obj(pf)) => (match Lookup(pf, "etapas") case Some(Arr(es)) => Some(es) case _ => None)
    case _ => None
  }

  /** `etapa.aulas`, when it is an array inside an object. */
  function Aulas(etapa: Json): Option<seq<Json>> {
    match Get(etapa, "aulas") case Some(Arr(aulas)) => Some(aulas) case _ => None
  }

  /** Stage `e` exists and holds a lesson array, so `plano.etapas[e].aulas` can be edited. */
  predicate Editable(plan: Json, e: nat) {
    Etapas(plan).Some? && e < |Etapas(plan).value| && Aulas(Etapas(plan).value[e]).Some?
  }

  function AulasAt(plan: Json, e: nat): seq<Json>
    requires Editable(plan, e)
  {
    Aulas(Etapas(plan).value[e]).value
  }

  /** The fields of `plan.plano`. */
  function PlanoFields(plan: Json): Fields
    requires Etapas(plan).Some?
  {
    Get(plan, "plano").value.fields
  }

  /**
   * `after` differs from `before` at most in stage `e`'s lesson list: the
   * same number of stages, every other stage equal, every other key of stage
   * `e`, of `plano` and of the plan itself equal.
   */
  ghost predicate OnlyAulasChanged(before: Json, after: Json, e: nat) {
    && Editable(before, e) && Editable(after, e)
    && |Etapas(after).value| == |Etapas(before).value|
    && (forall i :: 0 <= i < |Etapas(after).value| && i != e ==> Etapas(after).value[i] == Etapas(before).value[i])
    && (forall k :: k != "aulas" ==> Lookup(Etapas(after).value[e].fields, k) == Lookup(Etapas(before).value[e].fields, k))
    && (forall k :: k != "etapas" ==> Lookup(PlanoFields(after), k) == Lookup(PlanoFields(before), k))
    && (forall k :: k != "plano" ==> Lookup(after.fields, k) == Lookup(before.fields, k))
  }

  /**
   * The plan with stage `e`'s lesson list replaced by `aulas`, every other
   * stage, every other key of that stage, of `plano` and of the plan kept.
   */
  function WithAulas(plan: Json, e: nat, aulas: seq<Json>): (r: Json)
    requires Editable(plan, e)
    ensures Editable(r, e) && AulasAt(r, e) == aulas
    ensures OnlyAulasChanged(plan, r, e)
  {
    var es := Etapas(plan).value;
    var etapa := Obj(Set(es[e].fields, "aulas", Arr(aulas)));
    var plano := Obj(Set(PlanoFields(plan), "etapas", Arr(es[e := etapa])));
    Obj(Set(plan.fields, "plano", plano))
  }

  /**
   * `updateAula`: `plano.etapas[e].aulas[a][field] = value`. A missing stage,
   * lesson list or lesson, or a lesson that is not an object, leaves the plan
   * unchanged.
   */
  function UpdateAula(plan: Json, e: nat, a: nat, field: string, value: Json): (r: Json)
    ensures !(Editable(plan, e) && a < |AulasAt(plan, e)| && AulasAt(plan, e)[a].Obj?) ==> r == plan
    ensures Editable(plan, e) && a < |AulasAt(plan, e)| && AulasAt(plan, e)[a].Obj? ==>
      var before := AulasAt(plan, e);
      && Editable(r, e) && |AulasAt(r, e)| == |before|
      && AulasAt(r, e)[a].Obj? && Lookup(AulasAt(r, e)[a].fields, field) == Some(value)
      && (forall k :: k != field ==> Lookup(AulasAt(r, e)[a].fields, k) == Lookup(before[a].fields, k))
      && (forall j :: 0 <= j < |before| && j != a ==> AulasAt(r, e)[j] == before[j])
      && OnlyAulasChanged(plan, r, e)
  {
    if Editable(plan, e) && a < |AulasAt(plan, e)| && AulasAt(plan, e)[a].Obj? then
      var aulas := AulasAt(plan, e);
      WithAulas(plan, e, aulas[a := Obj(Set(aulas[a].fields, field, value))])
    else plan
  }

  /** The lesson `addAula` appends, numbered one past the stage's lesson count. */
  function NewAula(numero: nat): Json {
    Obj([
      ("numero", Num(numero as real)), ("data", Str("")), ("tipo", Str("aula")),
      ("titulo", Str("Nova aula")), ("conteudo", Str("")),
      ("objetivos", Arr([])), ("referencias", Arr([]))
    ])
  }

  /** A blank lesson numbered `numero`: empty date and content, kind `aula`, title `Nova aula`, no objectives or references. */
  predicate IsNewAula(x: Json, numero: nat) {
    && x.Obj?
    && Lookup(x.fields, "numero") == Some(Num(numero as real))
    && Lookup(x.fields, "data") == Some(Str(""))
    && Lookup(x.fields, "tipo") == Some(Str("aula"))
    && Lookup(x.fields, "titulo") == Some(Str("Nova aula"))
    && Lookup(x.fields, "conteudo") == Some(Str(""))
    && Lookup(x.fields, "objetivos") == Some(Arr([]))
    && Lookup(x.fields, "referencias") == Some(Arr([]))
  }

  /** Each of the new lesson's seven fields reads back as written. */
  lemma NewAulaFields(numero: nat)
    ensures IsNewAula(NewAula(numero), numero)
  {
    var fs := NewAula(numero).fields;
    LookupAt(fs, 0);
    LookupAt(fs, 1);
    LookupAt(fs, 2);
    LookupAt(fs, 3);
    LookupAt(fs, 4);
    LookupAt(fs, 5);
    LookupAt(fs, 6);
  }

  /** `addAula`: append a blank lesson to stage `e`; nothing happens when the stage has no lesson list. */
  function AddAula(plan: Json, e: nat): (r: Json)
    ensures !Editable(plan, e) ==> r == plan
    ensures Editable(plan, e) ==>
      var before := AulasAt(plan, e);
      && Editable(r, e) && |AulasAt(r, e)| == |before| + 1
      && AulasAt(r, e)[..|before|] == before
      && IsNewAula(AulasAt(r, e)[|before|], |before| + 1)
      && OnlyAulasChanged(plan, r, e)
  {
    if Editable(plan, e) then
      var aulas := AulasAt(plan, e);
      assert (aulas + [NewAula(|aulas| + 1)])[..|aulas|] == aulas;
      NewAulaFields(|aulas| + 1);
      WithAulas(plan, e, aulas + [NewAula(|aulas| + 1)])
    else plan
  }

  /**
   * `removeAula`: `aulas.splice(a, 1)`. The lessons after `a` move up one
   * place and keep their `numero`, so numbering can be left with a gap. An
   * index past the end removes nothing.
   */
  function RemoveAula(plan: Json, e: nat, a: nat): (r: Json)
    ensures !(Editable(plan, e) && a < |AulasAt(plan, e)|) ==> r == plan
    ensures Editable(plan, e) && a < |AulasAt(plan, e)| ==>
      var before := AulasAt(plan, e);
      && Editable(r, e) && |AulasAt(r, e)| == |before| - 1
      && (forall j :: 0 <= j < a ==> AulasAt(r, e)[j] == before[j])
      && (forall j :: a <= j < |before| - 1 ==> AulasAt(r, e)[j] == before[j + 1])
      && OnlyAulasChanged(plan, r, e)
  {
    if Editable(plan, e) && a < |AulasAt(plan, e)| then
      var aulas := AulasAt(plan, e);
      WithAulas(plan, e, aulas[..a] + aulas[a + 1..])
    else plan
  }

  /** `e.aulas?.length || 0` */
  function AulaLength(etapa: Json): nat {
    LengthOr0(Get(etapa, "aulas"))
  }

  /**
   * The saved-plans list's lesson total,
   * `etapas.reduce((sum, e) => sum + (e.aulas?.length || 0), 0)`; a null
   * stage makes the page throw, which is `None`.
   */
  function AulaCount(es: seq<Json>): Option<nat> {
    if |es| == 0 then Some(0)
    else if es[0] == Null then None
    else match AulaCount(es[1..])
      case Some(n) => Some(AulaLength(es[0]) + n)
      case None => None
  }

  /** Replacing one non-null stage by another changes the total by the difference of their lesson counts. */
  lemma {:induction false} AulaCountReplace(es: seq<Json>, e: nat, x: Json)
    requires e < |es| && es[e] != Null && x != Null
    ensures AulaCount(es).Some? <==> AulaCount(es[e := x]).Some?
    ensures AulaCount(es).Some? ==>
      AulaCount(es[e := x]).value + AulaLength(es[e]) == AulaCount(es).value + AulaLength(x)
    decreases e
  {
    if e > 0 {
      AulaCountReplace(es[1..], e - 1, x);
      assert es[e := x][1..] == es[1..][e - 1 := x];
    } else {
      assert es[e := x][1..] == es[1..];
    }
  }

  /**
   * Replacing stage `e`'s lesson list replaces that stage alone, and the
   * stage then counts `|aulas|` lessons.
   */
  lemma WithAulasStages(plan: Json, e: nat, aulas: seq<Json>)
    requires Editable(plan, e)
    ensures var es := Etapas(plan).value;
      var es' := Etapas(WithAulas(plan, e, aulas)).value;
      es' == es[e := es'[e]] && es'[e] != Null && AulaLength(es'[e]) == |aulas|
  {
    var es := Etapas(plan).value;
    var es' := Etapas(WithAulas(plan, e, aulas)).value;
    assert |es'| == |es|;
    assert forall i :: 0 <= i < |es| && i != e ==> es'[i] == es[i];
  }

  /** Replacing stage `e`'s lesson list moves the plan's lesson total by the difference in length. */
  lemma WithAulasCount(plan: Json, e: nat, aulas: seq<Json>)
    requires Editable(plan, e) && AulaCount(Etapas(plan).value).Some?
    ensures var n' := AulaCount(Etapas(WithAulas(plan, e, aulas)).value);
      n'.Some? && n'.value + |AulasAt(plan, e)| == AulaCount(Etapas(plan).value).value + |aulas|
  {
    var es := Etapas(plan).value;
    var es' := Etapas(WithAulas(plan, e, aulas)).value;
    WithAulasStages(plan, e, aulas);
    assert AulaLength(es[e]) == |AulasAt(plan, e)|;
    AulaCountReplace(es, e, es'[e]);
  }

  /** Appending a lesson raises the plan's lesson total by one. */
  lemma AddAulaCount(plan: Json, e: nat)
    requires Editable(plan, e) && AulaCount(Etapas(plan).value).Some?
    ensures AulaCount(Etapas(AddAula(plan, e)).value) == Some(AulaCount(Etapas(plan).value).value + 1)
  {
    var aulas := AulasAt(plan, e);
    var aulas' := aulas + [NewAula(|aulas| + 1)];
    assert AddAula(plan, e) == WithAulas(plan, e, aulas');
    WithAulasCount(plan, e, aulas');
  }

  /** Removing an existing lesson lowers the plan's lesson total by one. */
  lemma RemoveAulaCount(plan: Json, e: nat, a: nat)
    requires Editable(plan, e) && a < |AulasAt(plan, e)| && AulaCount(Etapas(plan).value).Some?
    ensures AulaCount(Etapas(RemoveAula(plan, e, a)).value) == Some(AulaCount(Etapas(plan).value).value - 1)
  {
    var aulas := AulasAt(plan, e);
    var aulas' := aulas[..a] + aulas[a + 1..];
    assert RemoveAula(plan, e, a) == WithAulas(plan, e, aulas');
    WithAulasCount(plan, e, aulas');
  }

  /** Editing a lesson field leaves the plan's lesson total as it was. */
  lemma UpdateAulaCount(plan: Json, e: nat, a: nat, field: string, value: Json)
    requires Editable(plan, e) && AulaCount(Etapas(plan).value).Some?
    ensures AulaCount(Etapas(UpdateAula(plan, e, a, field, value)).value) == AulaCount(Etapas(plan).value)
  {
    var aulas := AulasAt(plan, e);
    if a < |aulas| && aulas[a].Obj? {
      var aulas' := aulas[a := Obj(Set(aulas[a].fields, field, value))];
      assert UpdateAula(plan, e, a, field, value) == WithAulas(plan, e, aulas');
      WithAulasCount(plan, e, aulas');
    }
  }
}
