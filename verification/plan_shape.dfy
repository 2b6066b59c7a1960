/**
 * The structural tests every lesson-plan extractor applies to a parsed
 * value, and the two fixed objects they build: the `{ plano: ... }` wrapper
 * and the `{ raw: text }` fallback.
 */
module PlanShape {
  import opened Wrappers
  import opened JsonData

  /** `v?.plano?.etapas` is truthy. */
  predicate HasPlanoEtapas(v: Json) {
    Present(Member(Get(v, "plano"), "etapas"))
  }

  /** `v?.etapas` is truthy: a bare plan without the `plano` wrapper. */
  predicate HasEtapas(v: Json) {
    Present(Get(v, "etapas"))
  }

  /** `{ plano: v }` */
  function Wrap(v: Json): (r: Json)
    ensures Get(r, "plano") == Some(v)
    ensures HasEtapas(v) ==> HasPlanoEtapas(r)
  {
    Obj([("plano", v)])
  }

  /** `{ raw: text }`: the fallback that keeps the model's reply for display. */
  function RawReply(text: string): Json {
    Obj([("raw", Str(text))])
  }

  /**
   * The plan object an extracted value contributes: `parsed.plano` when it
   * carries `plano.etapas`, the value itself when `etapas` is bare, and
   * nothing otherwise.
   */
  function PlanoOf(v: Json): (r: Option<Json>)
    ensures r.Some? <==> HasPlanoEtapas(v) || HasEtapas(v)
    ensures r.Some? ==> HasEtapas(r.value)
    ensures HasPlanoEtapas(v) ==> r == Get(v, "plano")
    ensures !HasPlanoEtapas(v) && HasEtapas(v) ==> r == Some(v)
  {
    if HasPlanoEtapas(v) then Get(v, "plano")
    else if HasEtapas(v) then Some(v)
    else None
  }
}
