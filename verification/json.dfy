/**
 * JSON values as the application's JavaScript sees them after `JSON.parse`,
 * together with the object operations it performs on them: property lookup,
 * property assignment, object spread, optional chaining, truthiness and
 * numeric coercion.
 *
 * Objects are ordered lists of entries because JavaScript objects keep
 * insertion order; `Set` assigns in place or appends, exactly as property
 * assignment does.
 */
module JsonData {
  import opened Wrappers
  import opened Text

  datatype Json =
    | Null
    | Bool(b: bool)
    | Num(n: real)
    | Str(s: string)
    | Arr(items: seq<Json>)
    | Obj(fields: seq<(string, Json)>)

  /** The entries of an object, in insertion order. */
  type Fields = seq<(string, Json)>

  /** `obj[k]`: the value of the last entry named `k` (duplicate keys resolve as in `JSON.parse`). */
  function Lookup(fs: Fields, k: string): Option<Json> {
    if |fs| == 0 then None
    else if fs[|fs| - 1].0 == k then Some(fs[|fs| - 1].1)
    else Lookup(fs[..|fs| - 1], k)
  }

  /** An entry that no later entry shadows is what its key reads. */
  lemma {:induction false} LookupAt(fs: Fields, i: nat)
    requires i < |fs| && forall j :: i < j < |fs| ==> fs[j].0 != fs[i].0
    ensures Lookup(fs, fs[i].0) == Some(fs[i].1)
    decreases |fs|
  {
    if i < |fs| - 1 {
      LookupAt(fs[..|fs| - 1], i);
    }
  }

  /** A key no entry carries reads as missing. */
  lemma {:induction false} LookupMissing(fs: Fields, k: string)
    requires forall i :: 0 <= i < |fs| ==> fs[i].0 != k
    ensures Lookup(fs, k).None?
    decreases |fs|
  {
    if |fs| > 0 {
      LookupMissing(fs[..|fs| - 1], k);
    }
  }

  /** Rewrites every entry named `k` to carry `v`, keeping its position. */
  function Replace(fs: Fields, k: string, v: Json): (r: Fields)
    ensures |r| == |fs|
    ensures forall i :: 0 <= i < |fs| ==> r[i].0 == fs[i].0
    ensures forall k' :: Lookup(r, k') == (if k' == k && Lookup(fs, k).Some? then Some(v) else Lookup(fs, k'))
  {
    if |fs| == 0 then []
    else
      var init := Replace(fs[..|fs| - 1], k, v);
      var last := fs[|fs| - 1];
      var r := init + [if last.0 == k then (k, v) else last];
      assert r[..|r| - 1] == init;
      r
  }

  /**
   * `obj[k] = v`: an existing property keeps its place, a new one goes last.
   * Afterwards `k` reads `v` and every other key reads as before.
   */
  function Set(fs: Fields, k: string, v: Json): (r: Fields)
    ensures Lookup(r, k) == Some(v)
    ensures forall k' :: k' != k ==> Lookup(r, k') == Lookup(fs, k')
    ensures |r| == |fs| + (if Lookup(fs, k).Some? then 0 else 1)
    ensures forall i :: 0 <= i < |fs| ==> r[i].0 == fs[i].0
  {
    if Lookup(fs, k).Some? then Replace(fs, k, v)
    else
      var r := fs + [(k, v)];
      assert r[..|r| - 1] == fs;
      r
  }

  /** `{...a, ...b}`: the entries of `b` assigned, in order, onto a copy of `a`. */
  function Spread(a: Fields, b: Fields): (r: Fields)
    ensures forall k :: Lookup(r, k) == (if Lookup(b, k).Some? then Lookup(b, k) else Lookup(a, k))
    decreases |b|
  {
    if |b| == 0 then a
    else
      var last := b[|b| - 1];
      var init := b[..|b| - 1];
      assert forall k :: Lookup(b, k) == (if last.0 == k then Some(last.1) else Lookup(init, k));
      Set(Spread(a, init), last.0, last.1)
  }

  /** `j.k` for a value that is not `null`: only objects have named properties. */
  function Get(j: Json, k: string): Option<Json> {
    match j
    case Obj(fs) => Lookup(fs, k)
    case _ => None
  }

  /** `o?.k`: property access that stays undefined once something is missing. */
  function Member(o: Option<Json>, k: string): Option<Json> {
    match o
    case Some(j) => Get(j, k)
    case None => None
  }

  /** JavaScript truthiness of a JSON value (NaN cannot occur in parsed JSON). */
  predicate Truthy(j: Json) {
    match j
    case Null => false
    case Bool(b) => b
    case Num(n) => n != 0.0
    case Str(s) => s != ""
    case Arr(_) => true
    case Obj(_) => true
  }

  /** Truthiness of a possibly undefined value. */
  predicate Present(o: Option<Json>) {
    o.Some? && Truthy(o.value)
  }

  /** The entries of a value spread as an object; anything but an object contributes none. */
  function FieldsOf(j: Json): Fields {
    match j
    case Obj(fs) => fs
    case _ => []
  }

  /** `o?.length || 0`: arrays and strings have a length, everything else counts as 0. */
  function LengthOr0(o: Option<Json>): nat {
    match o
    case Some(Arr(items)) => |items|
    case Some(Str(s)) => |s|
    case _ => 0
  }

  /** A JavaScript number as the application computes with it: exact, or NaN. */
  datatype JsNumber = Finite(value: real) | NaN

  /** `x < y` on JavaScript numbers: every comparison with NaN is false. */
  predicate Less(x: JsNumber, y: real) {
    x.Finite? && x.value < y
  }

  /** `x > y` on JavaScript numbers. */
  predicate Greater(x: JsNumber, y: real) {
    x.Finite? && x.value > y
  }

  /** `Number(v)` */
  function ToNumber(v: Json): JsNumber
    decreases v, 0
  {
    match v
    case Null => Finite(0.0)
    case Bool(b) => Finite(if b then 1.0 else 0.0)
    case Num(n) => Finite(n)
    case Str(s) => StringToNumber(s)
    case Arr(items) =>
      if |items| == 0 then Finite(0.0)
      else if |items| == 1 then ElementNumber(items[0])
      else NaN
    case Obj(_) => NaN
  }

  /** `Number([x])` goes through `String(x)`, where `null` prints as "" and `true` as "true". */
  function ElementNumber(x: Json): JsNumber
    decreases x, 1
  {
    match x
    case Null => Finite(0.0)
    case Bool(_) => NaN
    case _ => ToNumber(x)
  }

  function Pow10(n: nat): (r: real)
    ensures r >= 1.0
  {
    if n == 0 then 1.0 else 10.0 * Pow10(n - 1)
  }

  /** Number of leading decimal digits of `s`. */
  function DigitRun(s: string): (n: nat)
    ensures n <= |s| && AllDigits(s[..n])
    ensures n < |s| ==> !IsDigit(s[n])
  {
    if |s| > 0 && IsDigit(s[0]) then
      var n := 1 + DigitRun(s[1..]);
      assert forall i :: 1 <= i < n ==> s[..n][i] == s[1..][..n - 1][i - 1];
      n
    else 0
  }

  /** An unsigned decimal literal: digits, optionally a point and more digits, at least one digit in all. */
  function UnsignedDecimal(t: string): JsNumber {
    var i := DigitRun(t);
    if i == |t| then
      (if i == 0 then NaN else Finite(DigitsValue(t) as real))
    else if t[i] == '.' && AllDigits(t[i + 1..]) && (i > 0 || i + 1 < |t|) then
      var f := t[i + 1..];
      Finite(DigitsValue(t[..i]) as real + (DigitsValue(f) as real) / Pow10(|f|))
    else NaN
  }

  /** `Number(s)` for decimal literals surrounded by optional whitespace. */
  function StringToNumber(s: string): JsNumber {
    var t := Trim(s);
    if t == "" then Finite(0.0)
    else if t[0] == '-' then
      (match UnsignedDecimal(t[1..]) case Finite(x) => Finite(-x) case NaN => NaN)
    else if t[0] == '+' then UnsignedDecimal(t[1..])
    else UnsignedDecimal(t)
  }

  /** A number written by a template literal reads back as the same number. */
  lemma StringToNumberOfNat(n: nat)
    ensures StringToNumber(NatToString(n)) == Finite(n as real)
  {
    StringToNumberOfDigits(NatToString(n));
    NatToStringRoundTrip(n);
  }

  /** A plain run of digits reads as its decimal value. */
  lemma StringToNumberOfDigits(s: string)
    requires s != [] && AllDigits(s)
    ensures StringToNumber(s) == Finite(DigitsValue(s) as real)
  {
    assert IsDigit(s[0]) && IsDigit(s[|s| - 1]);
    TrimIdentity(s);
    DigitRunAll(s);
  }

  lemma {:induction false} DigitRunAll(s: string)
    requires AllDigits(s)
    ensures DigitRun(s) == |s|
    decreases |s|
  {
    if |s| > 0 {
      DigitRunAll(s[1..]);
    }
  }
}
