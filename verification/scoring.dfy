/**
 * The engagement score shown on each student card (src/pages/Alunos.jsx):
 * the mean of the student's grades on a 0-100 scale weighted 60%, and
 * attendance weighted 40%, rounded; and the three thermometer tiers it is
 * coloured by. Grades are the entries of the student's `extra` map whose key
 * starts with `prova` or `trabalho`.
 */
module Scoring {
  import opened Wrappers
  import opened Text
  import opened JsonData
  import opened Seqs

  /** A key holding a grade. */
  predicate IsGradeKey(k: string) {
    StartsWith(k, "prova") || StartsWith(k, "trabalho")
  }

  /** `Object.entries(extra).filter(([k]) => k.startsWith(prefix)).map(([, v]) => v)` */
  function ValuesWithPrefix(fs: Fields, prefix: string): (r: seq<Json>)
    ensures |r| <= |fs|
    ensures forall v :: v in r <==> exists i :: 0 <= i < |fs| && StartsWith(fs[i].0, prefix) && fs[i].1 == v
  {
    if |fs| == 0 then []
    else
      var init := ValuesWithPrefix(fs[..|fs| - 1], prefix);
      var last := fs[|fs| - 1];
      assert forall i :: 0 <= i < |fs| - 1 ==> fs[..|fs| - 1][i] == fs[i];
      if StartsWith(last.0, prefix) then init + [last.1] else init
  }

  /** `[...provas, ...trabalhos]` for `student.extra || {}`. */
  function GradeValues(extra: Json): seq<Json> {
    ValuesWithPrefix(FieldsOf(extra), "prova") + ValuesWithPrefix(FieldsOf(extra), "trabalho")
  }

  /** Rewriting the entries of a key outside the prefix leaves the selected values as they were. */
  lemma {:induction false} ValuesWithPrefixReplaceOther(fs: Fields, k: string, v: Json, prefix: string)
    requires !StartsWith(k, prefix)
    ensures ValuesWithPrefix(Replace(fs, k, v), prefix) == ValuesWithPrefix(fs, prefix)
    decreases |fs|
  {
    if |fs| > 0 {
      var r := Replace(fs, k, v);
      ValuesWithPrefixReplaceOther(fs[..|fs| - 1], k, v, prefix);
      assert r[..|r| - 1] == Replace(fs[..|fs| - 1], k, v);
    }
  }

  /** Setting a key outside the prefix leaves the selected values as they were. */
  lemma ValuesWithPrefixSetOther(fs: Fields, k: string, v: Json, prefix: string)
    requires !StartsWith(k, prefix)
    ensures ValuesWithPrefix(Set(fs, k, v), prefix) == ValuesWithPrefix(fs, prefix)
  {
    if Lookup(fs, k).Some? {
      ValuesWithPrefixReplaceOther(fs, k, v, prefix);
    } else {
      var r := Set(fs, k, v);
      assert r[..|r| - 1] == fs;
    }
  }

  /** Writing any key that is not a grade key, such as `frequencia` or `role`, leaves the grades as they were. */
  lemma GradesIgnoreOtherKeys(fs: Fields, k: string, v: Json)
    requires !IsGradeKey(k)
    ensures GradeValues(Obj(Set(fs, k, v))) == GradeValues(Obj(fs))
  {
    ValuesWithPrefixSetOther(fs, k, v, "prova");
    ValuesWithPrefixSetOther(fs, k, v, "trabalho");
  }

  /** The grades as numbers, when none of them converts to NaN. */
  function FiniteGrades(vs: seq<Json>): (r: Option<seq<real>>)
    ensures r.Some? <==> forall i :: 0 <= i < |vs| ==> ToNumber(vs[i]).Finite?
    ensures r.Some? ==> |r.value| == |vs| && forall i :: 0 <= i < |vs| ==> r.value[i] == ToNumber(vs[i]).value
  {
    if forall i :: 0 <= i < |vs| ==> ToNumber(vs[i]).Finite? then
      Some(seq(|vs|, i requires 0 <= i < |vs| => ToNumber(vs[i]).value))
    else None
  }

  /** Number literals convert to themselves, so their range carries over. */
  lemma NumbersInRange(vs: seq<Json>, lo: real, hi: real)
    requires forall v :: v in vs ==> v.Num? && lo <= v.n <= hi
    ensures FiniteGrades(vs).Some?
    ensures forall i :: 0 <= i < |vs| ==> lo <= FiniteGrades(vs).value[i] <= hi
  {
    forall i | 0 <= i < |vs|
      ensures ToNumber(vs[i]) == Finite(vs[i].n)
    {
      assert vs[i] in vs;
    }
  }

  /** `Math.round(x)`: the nearest integer, halves rounding up. */
  function Round(x: real): (r: int)
    ensures r as real <= x + 0.5 < r as real + 1.0
  {
    (x + 0.5).Floor
  }

  lemma RoundMonotone(x: real, y: real)
    requires x <= y
    ensures Round(x) <= Round(y)
  {
  }

  /** `mediaNotas`: the grade mean scaled to 0-100, or the neutral 50 with no grades. */
  function GradePoints(grades: seq<real>): real {
    if |grades| > 0 then Sum(grades) / (|grades| as real) * 10.0 else 50.0
  }

  /** The score formula on numbers: 60% grade points, 40% attendance. */
  function ScoreOf(grades: seq<real>, freq: real): int {
    Round(GradePoints(grades) * 0.6 + freq * 0.4)
  }

  /** `Number(extra.frequencia || 50)`: a missing or falsy attendance, zero included, counts as 50. */
  function Attendance(extra: Json): (r: JsNumber)
    ensures !Present(Get(extra, "frequencia")) ==> r == Finite(50.0)
    ensures Present(Get(extra, "frequencia")) ==> r == ToNumber(Get(extra, "frequencia").value)
  {
    match Get(extra, "frequencia")
    case Some(f) => if Truthy(f) then ToNumber(f) else Finite(50.0)
    case None => Finite(50.0)
  }

  /**
   * `calculateScore` for `student.extra`; `None` stands for NaN, which a
   * grade or an attendance that is not a number produces.
   */
  function Score(extra: Json): (r: Option<int>)
    ensures GradeValues(extra) == [] && !Present(Get(extra, "frequencia")) ==> r == Some(50)
    ensures r.Some? <==> FiniteGrades(GradeValues(extra)).Some? && Attendance(extra).Finite?
  {
    match FiniteGrades(GradeValues(extra))
    case Some(grades) =>
      (match Attendance(extra)
       case Finite(f) => Some(ScoreOf(grades, f))
       case NaN => None)
    case None => None
  }

  /** `s / n <= hi` when `s <= n * hi`. */
  lemma MeanAtMost(s: real, n: real, hi: real)
    requires n > 0.0 && s <= n * hi
    ensures s / n <= hi
  {
    assert s / n * n == s;
    assert (s / n - hi) * n <= 0.0;
  }

  /** `lo <= s / n` when `n * lo <= s`. */
  lemma MeanAtLeast(s: real, n: real, lo: real)
    requires n > 0.0 && n * lo <= s
    ensures lo <= s / n
  {
    assert s / n * n == s;
    assert (s / n - lo) * n >= 0.0;
  }

  /** Grades in [0, 10] give grade points in [0, 100]. */
  lemma GradePointsBounds(grades: seq<real>)
    requires forall i :: 0 <= i < |grades| ==> 0.0 <= grades[i] <= 10.0
    ensures 0.0 <= GradePoints(grades) <= 100.0
  {
    if |grades| > 0 {
      SumBounds(grades, 0.0, 10.0);
      MeanAtMost(Sum(grades), |grades| as real, 10.0);
      MeanAtLeast(Sum(grades), |grades| as real, 0.0);
    }
  }

  /** The score of a record whose grades and attendance are numbers is the formula on them. */
  lemma ScoreIs(extra: Json, grades: seq<real>, f: real)
    requires FiniteGrades(GradeValues(extra)) == Some(grades) && Attendance(extra) == Finite(f)
    ensures Score(extra) == Some(ScoreOf(grades, f))
  {
  }

  /** Grade points and attendance within [0, 100] give a score within [0, 100]. */
  lemma ScoreOfBounds(grades: seq<real>, f: real)
    requires forall i :: 0 <= i < |grades| ==> 0.0 <= grades[i] <= 10.0
    requires 0.0 <= f <= 100.0
    ensures 0 <= ScoreOf(grades, f) <= 100
  {
    GradePointsBounds(grades);
    RoundMonotone(0.0, GradePoints(grades) * 0.6 + f * 0.4);
    RoundMonotone(GradePoints(grades) * 0.6 + f * 0.4, 100.0);
  }

  /** An attendance that is a number within [0, 100], or absent, is a number within [0, 100]. */
  lemma AttendanceBounds(extra: Json)
    requires Present(Get(extra, "frequencia")) ==>
      Get(extra, "frequencia").value.Num? && 0.0 <= Get(extra, "frequencia").value.n <= 100.0
    ensures Attendance(extra).Finite? && 0.0 <= Attendance(extra).value <= 100.0
  {
  }

  /** Numeric grades in [0, 10] and an attendance within [0, 100] give a score within [0, 100]. */
  lemma ScoreBounds(extra: Json)
    requires forall v :: v in GradeValues(extra) ==> v.Num? && 0.0 <= v.n <= 10.0
    requires Present(Get(extra, "frequencia")) ==>
      Get(extra, "frequencia").value.Num? && 0.0 <= Get(extra, "frequencia").value.n <= 100.0
    ensures Score(extra).Some? && 0 <= Score(extra).value <= 100
  {
    NumbersInRange(GradeValues(extra), 0.0, 10.0);
    AttendanceBounds(extra);
    var grades := FiniteGrades(GradeValues(extra)).value;
    var f := Attendance(extra).value;
    ScoreOfBounds(grades, f);
    ScoreIs(extra, grades, f);
  }

  /** Raising one grade never lowers the score. */
  lemma ScoreOfGradeMonotone(grades: seq<real>, i: nat, v: real, freq: real)
    requires i < |grades| && grades[i] <= v
    ensures ScoreOf(grades, freq) <= ScoreOf(grades[i := v], freq)
  {
    SumUpdate(grades, i, v);
    var n := |grades| as real;
    assert Sum(grades) / n <= Sum(grades[i := v]) / n by {
      assert Sum(grades) <= Sum(grades[i := v]);
      MeanAtMost(Sum(grades), n, Sum(grades[i := v]) / n);
    }
    RoundMonotone(GradePoints(grades) * 0.6 + freq * 0.4, GradePoints(grades[i := v]) * 0.6 + freq * 0.4);
  }

  /** Raising attendance never lowers the score. */
  lemma ScoreOfAttendanceMonotone(grades: seq<real>, freq: real, freq': real)
    requires freq <= freq'
    ensures ScoreOf(grades, freq) <= ScoreOf(grades, freq')
  {
    RoundMonotone(GradePoints(grades) * 0.6 + freq * 0.4, GradePoints(grades) * 0.6 + freq' * 0.4);
  }

  /**
   * On a student record: raising a positive attendance never lowers the
   * score, and the grades stay as they were.
   */
  lemma ScoreRaiseAttendance(fs: Fields, f: real, f': real)
    requires Lookup(fs, "frequencia") == Some(Num(f)) && 0.0 < f <= f'
    requires Score(Obj(fs)).Some?
    ensures Score(Obj(Set(fs, "frequencia", Num(f')))).Some?
    ensures Score(Obj(fs)).value <= Score(Obj(Set(fs, "frequencia", Num(f')))).value
  {
    var fs' := Set(fs, "frequencia", Num(f'));
    FirstLetterDiffers("frequencia", "prova");
    FirstLetterDiffers("frequencia", "trabalho");
    GradesIgnoreOtherKeys(fs, "frequencia", Num(f'));
    PositiveAttendance(fs, f);
    PositiveAttendance(fs', f');
    var g := FiniteGrades(GradeValues(Obj(fs))).value;
    ScoreIs(Obj(fs), g, f);
    ScoreIs(Obj(fs'), g, f');
    ScoreOfAttendanceMonotone(g, f, f');
  }

  /** A non-zero numeric attendance is taken as it is. */
  lemma PositiveAttendance(fs: Fields, f: real)
    requires Lookup(fs, "frequencia") == Some(Num(f)) && f != 0.0
    ensures Attendance(Obj(fs)) == Finite(f)
  {
  }

  /** A key whose first letter differs from the prefix's does not start with it. */
  lemma FirstLetterDiffers(k: string, prefix: string)
    requires |k| > 0 && |prefix| > 0 && k[0] != prefix[0]
    ensures !StartsWith(k, prefix)
  {
    if |prefix| <= |k| {
      assert k[..|prefix|][0] == k[0];
    }
  }

  /** When every key has the prefix, every value is selected, in order. */
  lemma {:induction false} ValuesWithPrefixAll(fs: Fields, prefix: string)
    requires forall i :: 0 <= i < |fs| ==> StartsWith(fs[i].0, prefix)
    ensures |ValuesWithPrefix(fs, prefix)| == |fs|
    ensures forall i :: 0 <= i < |fs| ==> ValuesWithPrefix(fs, prefix)[i] == fs[i].1
    decreases |fs|
  {
    if |fs| > 0 {
      var init := fs[..|fs| - 1];
      assert forall i :: 0 <= i < |init| ==> init[i] == fs[i];
      ValuesWithPrefixAll(init, prefix);
    }
  }

  /** When no key has the prefix, nothing is selected. */
  lemma ValuesWithPrefixNone(fs: Fields, prefix: string)
    requires forall i :: 0 <= i < |fs| ==> !StartsWith(fs[i].0, prefix)
    ensures ValuesWithPrefix(fs, prefix) == []
  {
  }

  /** One more entry adds its value exactly when its key has the prefix. */
  lemma ValuesWithPrefixSnoc(fs: Fields, e: (string, Json), prefix: string)
    ensures ValuesWithPrefix(fs + [e], prefix)
      == ValuesWithPrefix(fs, prefix) + (if StartsWith(e.0, prefix) then [e.1] else [])
  {
    assert (fs + [e])[..|fs|] == fs;
  }

  /** A single entry gives its value exactly when its key has the prefix. */
  lemma ValuesWithPrefixSingle(e: (string, Json), prefix: string)
    ensures ValuesWithPrefix([e], prefix) == if StartsWith(e.0, prefix) then [e.1] else []
  {
    assert [e][..0] == [];
  }

  /**
   * Selecting from two runs of entries selects from each in turn: values
   * keep the order and the multiplicity of their entries.
   */
  lemma {:induction false} ValuesWithPrefixConcat(a: Fields, b: Fields, prefix: string)
    ensures ValuesWithPrefix(a + b, prefix) == ValuesWithPrefix(a, prefix) + ValuesWithPrefix(b, prefix)
    decreases |b|
  {
    if |b| == 0 {
      assert a + b == a;
    } else {
      var init, last := b[..|b| - 1], b[|b| - 1];
      ValuesWithPrefixConcat(a, init, prefix);
      assert a + b == (a + init) + [last];
      assert b == init + [last];
      ValuesWithPrefixSnoc(a + init, last, prefix);
      ValuesWithPrefixSnoc(init, last, prefix);
    }
  }

  /**
   * Zero attendance is not the lowest: it counts as 50, so a student with
   * no grades and attendance 0 scores 50, while attendance 10 scores 34.
   */
  lemma ZeroAttendanceCountsAsFifty()
    ensures Score(Obj([("frequencia", Num(0.0))])) == Some(50)
    ensures Score(Obj([("frequencia", Num(10.0))])) == Some(34)
  {
    AttendanceOnly(0.0);
    AttendanceOnly(10.0);
    assert Round(34.0) == 34;
  }

  /** A record holding only an attendance scores on the neutral grade points 50 and that attendance (50 when it is 0). */
  lemma AttendanceOnly(x: real)
    ensures Score(Obj([("frequencia", Num(x))])) == Some(ScoreOf([], if x == 0.0 then 50.0 else x))
  {
    var fs := [("frequencia", Num(x))];
    FirstLetterDiffers(fs[0].0, "prova");
    FirstLetterDiffers(fs[0].0, "trabalho");
    ValuesWithPrefixNone(fs, "prova");
    ValuesWithPrefixNone(fs, "trabalho");
    LookupAt(fs, 0);
    assert GradeValues(Obj(fs)) == [];
    assert FiniteGrades([]) == Some([]);
  }

  /** The student record of the worked example. */
  const WorkedRecord: Fields :=
    [("prova1", Num(8.0)), ("prova2", Num(9.0)), ("trabalho1", Num(7.0)), ("frequencia", Num(90.0))]

  lemma WorkedProvas()
    ensures ValuesWithPrefix(WorkedRecord, "prova") == [Num(8.0), Num(9.0)]
  {
    var fs := WorkedRecord;
    assert StartsWith(fs[0].0, "prova") && StartsWith(fs[1].0, "prova");
    FirstLetterDiffers(fs[2].0, "prova");
    FirstLetterDiffers(fs[3].0, "prova");
    ValuesWithPrefixSnoc([], fs[0], "prova");
    ValuesWithPrefixSnoc(fs[..1], fs[1], "prova");
    ValuesWithPrefixSnoc(fs[..2], fs[2], "prova");
    ValuesWithPrefixSnoc(fs[..3], fs[3], "prova");
    assert [] + [fs[0]] == fs[..1] && fs[..1] + [fs[1]] == fs[..2] && fs[..2] + [fs[2]] == fs[..3] && fs[..3] + [fs[3]] == fs;
  }

  lemma WorkedTrabalhos()
    ensures ValuesWithPrefix(WorkedRecord, "trabalho") == [Num(7.0)]
  {
    var fs := WorkedRecord;
    assert StartsWith(fs[2].0, "trabalho");
    FirstLetterDiffers(fs[0].0, "trabalho");
    FirstLetterDiffers(fs[1].0, "trabalho");
    FirstLetterDiffers(fs[3].0, "trabalho");
    ValuesWithPrefixSnoc([], fs[0], "trabalho");
    ValuesWithPrefixSnoc(fs[..1], fs[1], "trabalho");
    ValuesWithPrefixSnoc(fs[..2], fs[2], "trabalho");
    ValuesWithPrefixSnoc(fs[..3], fs[3], "trabalho");
    assert [] + [fs[0]] == fs[..1] && fs[..1] + [fs[1]] == fs[..2] && fs[..2] + [fs[2]] == fs[..3] && fs[..3] + [fs[3]] == fs;
  }

  /** Grades 8, 9 and 7 with attendance 90: grade points 80, score 84. */
  lemma WorkedFinite()
    ensures FiniteGrades([Num(8.0), Num(9.0), Num(7.0)]) == Some([8.0, 9.0, 7.0])
  {
    var vs := [Num(8.0), Num(9.0), Num(7.0)];
    NumbersInRange(vs, 7.0, 9.0);
    var g := FiniteGrades(vs).value;
    assert g[0] == 8.0 && g[1] == 9.0 && g[2] == 7.0;
    assert g == [8.0, 9.0, 7.0];
  }

  lemma WorkedScoreOf()
    ensures ScoreOf([8.0, 9.0, 7.0], 90.0) == 84
  {
    var g := [8.0, 9.0, 7.0];
    assert Sum([7.0]) == 7.0;
    assert Sum(g) == 24.0 by {
      assert g[1..] == [9.0, 7.0] && g[1..][1..] == [7.0];
    }
    assert GradePoints(g) == 80.0;
    assert Round(84.0) == 84;
  }

  lemma ScoreWorkedExample()
    ensures Score(Obj(WorkedRecord)) == Some(84)
  {
    WorkedProvas();
    WorkedTrabalhos();
    var fs := WorkedRecord;
    assert GradeValues(Obj(fs)) == [Num(8.0), Num(9.0), Num(7.0)];
    LookupAt(fs, 3);
    assert Attendance(Obj(fs)) == Finite(90.0);
    WorkedFinite();
    WorkedScoreOf();
  }

  // ---------------------------------------------------------- thermometer

  datatype Tier = Otimo | Atencao | Risco

  /** `getThermometerColor`: 80 and up, 60 to 79, below 60. */
  function TierOf(score: int): (t: Tier)
    ensures t == Otimo <==> score >= 80
    ensures t == Atencao <==> 60 <= score < 80
    ensures t == Risco <==> score < 60
  {
    if score >= 80 then Otimo else if score >= 60 then Atencao else Risco
  }

  function TierLabel(t: Tier): string {
    match t
    case Otimo => "Ótimo"
    case Atencao => "Atenção"
    case Risco => "Risco"
  }

  /** The tier a card shows: a NaN score fails both comparisons and lands in Risco. */
  function CardTier(extra: Json): (t: Tier)
    ensures Score(extra).None? ==> t == Risco
    ensures Score(extra).Some? ==> (t == Otimo <==> Score(extra).value >= 80) && (t == Risco <==> Score(extra).value < 60)
  {
    match Score(extra)
    case Some(s) => TierOf(s)
    case None => Risco
  }

  function Rank(t: Tier): nat {
    match t
    case Risco => 0
    case Atencao => 1
    case Otimo => 2
  }

  /** A higher score never shows a worse tier. */
  lemma TierMonotone(s: int, s': int)
    requires s <= s'
    ensures Rank(TierOf(s)) <= Rank(TierOf(s'))
  {
  }

  // ------------------------------------------------------------ modal mean

  /**
   * The mean the student modal prints: `None` for '—' when there are no
   * grades, NaN when a grade is not a number. The modal sorts the entries
   * first; the mean does not depend on their order.
   */
  function ModalAverage(extra: Json): (r: Option<JsNumber>)
    ensures r.None? <==> GradeValues(extra) == []
    ensures r.Some? ==> (r.value.Finite? <==> FiniteGrades(GradeValues(extra)).Some?)
  {
    var vs := GradeValues(extra);
    if |vs| == 0 then None
    else match FiniteGrades(vs)
      case Some(grades) => Some(Finite(Sum(grades) / (|grades| as real)))
      case None => Some(NaN)
  }

  /** The card's score is the modal's mean, times ten, weighted with attendance. */
  lemma ModalAverageAgreesWithScore(extra: Json)
    requires ModalAverage(extra).Some? && ModalAverage(extra).value.Finite?
    requires Attendance(extra).Finite?
    ensures Score(extra) == Some(Round(ModalAverage(extra).value.value * 10.0 * 0.6 + Attendance(extra).value * 0.4))
  {
  }
}
