/**
 * The grade editor inside the student modal (src/pages/Alunos.jsx): rows of
 * `{ key, value }` for exams (`prova…`) and assignments (`trabalho…`), a
 * button that appends an empty row, and the save that turns the form into
 * the new `extra` entries sent to the server.
 */
module GradeEditor {
  import opened Wrappers
  import opened Text
  import opened JsonData

  /** One row of the edit form. */
  datatype GradeEdit = GradeEdit(key: string, value: Json)

  /** `Number(value)` as it reaches the server: NaN is sent as `null`. */
  function SavedNumber(v: Json): (r: Json)
    ensures r.Num? || r == Null
    ensures ToNumber(v).Finite? ==> r == Num(ToNumber(v).value)
    ensures ToNumber(v).NaN? ==> r == Null
  {
    match ToNumber(v)
    case Finite(x) => Num(x)
    case NaN => Null
  }

  /** An input the save skips: `value === ''`. */
  predicate IsBlank(v: Json) {
    v == Str("")
  }

  /** `edits[i]` is the last non-blank row named `k`. */
  ghost predicate LastFilledAt(edits: seq<GradeEdit>, k: string, i: int) {
    && 0 <= i < |edits| && edits[i].key == k && !IsBlank(edits[i].value)
    && forall j :: i < j < |edits| ==> edits[j].key != k || IsBlank(edits[j].value)
  }

  /** Every row named `k` is blank. */
  ghost predicate AllBlank(edits: seq<GradeEdit>, k: string) {
    forall i :: 0 <= i < |edits| && edits[i].key == k ==> IsBlank(edits[i].value)
  }

  /**
   * `edits.forEach(({ key, value }) => { if (value !== '') acc[key] = Number(value); })`
   * on an accumulated map; `ApplyEditsFilled` and `ApplyEditsBlank` state
   * what each key then reads.
   */
  function ApplyEdits(acc: Fields, edits: seq<GradeEdit>): Fields
    decreases |edits|
  {
    if |edits| == 0 then acc
    else
      var last := edits[|edits| - 1];
      var prev := ApplyEdits(acc, edits[..|edits| - 1]);
      if IsBlank(last.value) then prev else Set(prev, last.key, SavedNumber(last.value))
  }

  /** Dropping the last row keeps an earlier last non-blank row the last one. */
  lemma LastFilledPrefix(edits: seq<GradeEdit>, k: string, i: int)
    requires LastFilledAt(edits, k, i) && i < |edits| - 1
    ensures LastFilledAt(edits[..|edits| - 1], k, i)
  {
  }

  lemma AllBlankPrefix(edits: seq<GradeEdit>, k: string)
    requires AllBlank(edits, k) && |edits| > 0
    ensures AllBlank(edits[..|edits| - 1], k)
  {
  }

  /** One step of the loop: a non-blank row sets its key, and every other key reads as before. */
  lemma ApplyEditsStep(acc: Fields, edits: seq<GradeEdit>, k: string)
    requires |edits| > 0
    ensures var n := |edits| - 1;
      Lookup(ApplyEdits(acc, edits), k)
        == (if edits[n].key == k && !IsBlank(edits[n].value) then Some(SavedNumber(edits[n].value))
            else Lookup(ApplyEdits(acc, edits[..n]), k))
  {
  }

  /** A key reads the number of its last non-blank row. */
  lemma {:induction false} ApplyEditsFilled(acc: Fields, edits: seq<GradeEdit>, k: string, i: int)
    requires LastFilledAt(edits, k, i)
    ensures Lookup(ApplyEdits(acc, edits), k) == Some(SavedNumber(edits[i].value))
    decreases |edits|
  {
    ApplyEditsStep(acc, edits, k);
    if i < |edits| - 1 {
      LastFilledPrefix(edits, k, i);
      ApplyEditsFilled(acc, edits[..|edits| - 1], k, i);
    }
  }

  /** A key whose rows are all blank reads as it did before. */
  lemma {:induction false} ApplyEditsBlank(acc: Fields, edits: seq<GradeEdit>, k: string)
    requires AllBlank(edits, k)
    ensures Lookup(ApplyEdits(acc, edits), k) == Lookup(acc, k)
    decreases |edits|
  {
    if |edits| > 0 {
      ApplyEditsStep(acc, edits, k);
      AllBlankPrefix(edits, k);
      ApplyEditsBlank(acc, edits[..|edits| - 1], k);
    }
  }

  /** `if (editFreq !== '') newExtra.frequencia = Number(editFreq)` on an empty map. */
  function FrequencyEntry(editFreq: Json): (r: Fields)
    ensures forall k :: k != "frequencia" ==> Lookup(r, k).None?
    ensures Lookup(r, "frequencia") == (if IsBlank(editFreq) then None else Some(SavedNumber(editFreq)))
  {
    if !IsBlank(editFreq) then [("frequencia", SavedNumber(editFreq))] else []
  }

  /**
   * `handleSave`: a fresh map with `frequencia` when its input is not blank,
   * then every non-blank exam row, then every non-blank assignment row.
   * Blank inputs are left out, so they never overwrite a stored value.
   */
  function HandleSave(editFreq: Json, provas: seq<GradeEdit>, trabalhos: seq<GradeEdit>): (r: Fields)
    ensures forall k, i :: LastFilledAt(provas + trabalhos, k, i) ==>
      Lookup(r, k) == Some(SavedNumber((provas + trabalhos)[i].value))
    ensures forall k :: k != "frequencia" && AllBlank(provas + trabalhos, k) ==> Lookup(r, k).None?
    ensures AllBlank(provas + trabalhos, "frequencia") ==>
      Lookup(r, "frequencia") == (if IsBlank(editFreq) then None else Some(SavedNumber(editFreq)))
  {
    var base := FrequencyEntry(editFreq);
    SaveSpec(editFreq, provas, trabalhos, ApplyEdits(ApplyEdits(base, provas), trabalhos));
    ApplyEdits(ApplyEdits(base, provas), trabalhos)
  }

  /** What the save's map reads, in terms of the map it started from. */
  ghost predicate HandleSaveFacts(base: Fields, all: seq<GradeEdit>, r: Fields) {
    && (forall k, i :: LastFilledAt(all, k, i) ==> Lookup(r, k) == Some(SavedNumber(all[i].value)))
    && (forall k :: AllBlank(all, k) ==> Lookup(r, k) == Lookup(base, k))
  }

  lemma SaveReads(base: Fields, all: seq<GradeEdit>)
    ensures HandleSaveFacts(base, all, ApplyEdits(base, all))
  {
    forall k, i | LastFilledAt(all, k, i)
      ensures Lookup(ApplyEdits(base, all), k) == Some(SavedNumber(all[i].value))
    {
      ApplyEditsFilled(base, all, k, i);
    }
    forall k | AllBlank(all, k)
      ensures Lookup(ApplyEdits(base, all), k) == Lookup(base, k)
    {
      ApplyEditsBlank(base, all, k);
    }
  }

  lemma SaveSpec(editFreq: Json, provas: seq<GradeEdit>, trabalhos: seq<GradeEdit>, r: Fields)
    requires r == ApplyEdits(ApplyEdits(FrequencyEntry(editFreq), provas), trabalhos)
    ensures forall k, i :: LastFilledAt(provas + trabalhos, k, i) ==>
      Lookup(r, k) == Some(SavedNumber((provas + trabalhos)[i].value))
    ensures forall k :: k != "frequencia" && AllBlank(provas + trabalhos, k) ==> Lookup(r, k).None?
    ensures AllBlank(provas + trabalhos, "frequencia") ==>
      Lookup(r, "frequencia") == (if IsBlank(editFreq) then None else Some(SavedNumber(editFreq)))
  {
    var base := FrequencyEntry(editFreq);
    ApplyEditsConcat(base, provas, trabalhos);
    SaveReads(base, provas + trabalhos);
    SaveFromFacts(editFreq, provas + trabalhos, r);
  }

  /** Over the map holding only the attendance, blank rows leave every other key missing. */
  lemma SaveFromFacts(editFreq: Json, all: seq<GradeEdit>, r: Fields)
    requires HandleSaveFacts(FrequencyEntry(editFreq), all, r)
    ensures forall k, i :: LastFilledAt(all, k, i) ==> Lookup(r, k) == Some(SavedNumber(all[i].value))
    ensures forall k :: k != "frequencia" && AllBlank(all, k) ==> Lookup(r, k).None?
    ensures AllBlank(all, "frequencia") ==>
      Lookup(r, "frequencia") == (if IsBlank(editFreq) then None else Some(SavedNumber(editFreq)))
  {
  }

  /** Exam rows, then assignment rows: the two `forEach` loops run as one over the joined list. */
  lemma {:induction false} ApplyEditsConcat(acc: Fields, a: seq<GradeEdit>, b: seq<GradeEdit>)
    ensures ApplyEdits(ApplyEdits(acc, a), b) == ApplyEdits(acc, a + b)
    decreases |b|
  {
    if |b| == 0 {
      assert a + b == a;
    } else {
      ApplyEditsConcat(acc, a, b[..|b| - 1]);
      assert (a + b)[..|a + b| - 1] == a + b[..|b| - 1];
      assert (a + b)[|a + b| - 1] == b[|b| - 1];
    }
  }

  // ------------------------------------------------------ adding a row

  /** The number after `prefix` in a key such as `prova3`. */
  function SuffixNumber(key: string, prefix: string): Option<nat> {
    if StartsWith(key, prefix) && |key| > |prefix| && AllDigits(key[|prefix|..]) then
      Some(DigitsValue(key[|prefix|..]))
    else None
  }

  /** A key built from a prefix and a number reads that number back. */
  lemma SuffixOfBuiltKey(prefix: string, n: nat)
    ensures SuffixNumber(prefix + NatToString(n), prefix) == Some(n)
  {
    var key := prefix + NatToString(n);
    assert key[..|prefix|] == prefix;
    assert key[|prefix|..] == NatToString(n);
    NatToStringRoundTrip(n);
  }

  /**
   * `addProva` / `addTrabalho` as written: the new row is named after the
   * row count, `prova${editProvas.length + 1}`, whatever keys exist.
   */
  function AddRowAsWritten(edits: seq<GradeEdit>, prefix: string): (r: seq<GradeEdit>)
    ensures |r| == |edits| + 1 && r[..|edits|] == edits
    ensures r[|edits|] == GradeEdit(prefix + NatToString(|edits| + 1), Str(""))
  {
    edits + [GradeEdit(prefix + NatToString(|edits| + 1), Str(""))]
  }

  /**
   * A record whose only exam is `prova2` (the teacher filled the second of
   * two rows and left the first blank) gets a new row named `prova2` again.
   * Filling it and saving keeps one exam where the form showed two: the
   * earlier grade 6 is overwritten by 9.
   */
  lemma AddRowAsWrittenCollides()
    ensures var edits := [GradeEdit("prova2", Num(6.0))];
      var added := AddRowAsWritten(edits, "prova");
      && added[1].key == edits[0].key
      && var saved := HandleSave(Str(""), added[1 := GradeEdit("prova2", Str("9"))], []);
         Lookup(saved, "prova2") == Some(Num(9.0))
  {
    var edits := [GradeEdit("prova2", Num(6.0))];
    var added := AddRowAsWritten(edits, "prova");
    assert NatToString(2) == "2";
    assert added[1].key == "prova2";
    var filled := added[1 := GradeEdit("prova2", Str("9"))];
    assert filled == [GradeEdit("prova2", Num(6.0)), GradeEdit("prova2", Str("9"))];
    assert filled + [] == filled;
    assert LastFilledAt(filled, "prova2", 1);
    NineSaved();
  }

  lemma NineSaved()
    ensures SavedNumber(Str("9")) == Num(9.0)
  {
    StringToNumberOfNat(9);
    assert NatToString(9) == "9";
  }

  /** The largest number already used after `prefix`, 0 when there is none. */
  function MaxSuffix(edits: seq<GradeEdit>, prefix: string): (m: nat)
    ensures forall i :: 0 <= i < |edits| && SuffixNumber(edits[i].key, prefix).Some? ==>
      SuffixNumber(edits[i].key, prefix).value <= m
  {
    if |edits| == 0 then 0
    else
      var rest := MaxSuffix(edits[1..], prefix);
      var here := match SuffixNumber(edits[0].key, prefix) case Some(n) => n case None => 0;
      assert forall i :: 1 <= i < |edits| ==> edits[i] == edits[1..][i - 1];
      if here > rest then here else rest
  }

  /**
   * `addProva` / `addTrabalho` corrected: the new row takes the row count
   * plus one, as before, unless a key already uses that number or a higher
   * one, in which case it takes one past the highest. The new key is never
   * one of the existing keys.
   */
  function AddRow(edits: seq<GradeEdit>, prefix: string): (r: seq<GradeEdit>)
    ensures |r| == |edits| + 1 && r[..|edits|] == edits
    ensures StartsWith(r[|edits|].key, prefix) && r[|edits|].value == Str("")
    ensures forall i :: 0 <= i < |edits| ==> edits[i].key != r[|edits|].key
    ensures MaxSuffix(edits, prefix) <= |edits| ==> r[|edits|].key == prefix + NatToString(|edits| + 1)
  {
    var m := MaxSuffix(edits, prefix);
    var n := if m <= |edits| then |edits| + 1 else m + 1;
    var key := prefix + NatToString(n);
    SuffixOfBuiltKey(prefix, n);
    assert forall i :: 0 <= i < |edits| ==> SuffixNumber(edits[i].key, prefix) != Some(n);
    assert (edits + [GradeEdit(key, Str(""))])[..|edits|] == edits;
    edits + [GradeEdit(key, Str(""))]
  }

  /** With the corrected row, the filled new row is saved next to the old grade, not over it. */
  lemma AddRowKeepsBoth()
    ensures var edits := [GradeEdit("prova2", Num(6.0))];
      var added := AddRow(edits, "prova");
      var saved := HandleSave(Str(""), added[1 := GradeEdit(added[1].key, Str("9"))], []);
      && Lookup(saved, "prova2") == Some(Num(6.0))
      && Lookup(saved, added[1].key) == Some(Num(9.0))
  {
    var edits := [GradeEdit("prova2", Num(6.0))];
    var added := AddRow(edits, "prova");
    var filled := added[1 := GradeEdit(added[1].key, Str("9"))];
    assert filled == [edits[0], GradeEdit(added[1].key, Str("9"))];
    TwoRowsSaved(edits[0], GradeEdit(added[1].key, Str("9")));
    NineSaved();
  }

  /** Two filled rows under different keys are both saved. */
  lemma TwoRowsSaved(a: GradeEdit, b: GradeEdit)
    requires a.key != b.key && !IsBlank(a.value) && !IsBlank(b.value)
    ensures var saved := HandleSave(Str(""), [a, b], []);
      Lookup(saved, a.key) == Some(SavedNumber(a.value)) && Lookup(saved, b.key) == Some(SavedNumber(b.value))
  {
    assert [a, b] + [] == [a, b];
    assert LastFilledAt([a, b], a.key, 0);
    assert LastFilledAt([a, b], b.key, 1);
  }
}
