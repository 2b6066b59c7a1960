/**
 * The class dashboard's figures (src/pages/Dashboard.jsx): how many students
 * are at risk or invisible, the class grade average and the attendance
 * average. Each figure comes from the AI analysis when that analysis
 * provides it, and is otherwise computed from the student records.
 */
module Dashboard {
  import opened Wrappers
  import opened JsonData
  import opened Seqs
  import opened Scoring
  import opened Text

  /** `s.extra || {}`: a record's extra map, absent extras reading as empty. */
  function ExtraOf(student: Json): Json {
    match Get(student, "extra") case Some(e) => e case None => Null
  }

  /** The mean of some grade values: 0 with none, NaN when one is not a number. */
  function Mean(vs: seq<Json>): (r: JsNumber)
    ensures vs == [] ==> r == Finite(0.0)
    ensures r.Finite? <==> FiniteGrades(vs).Some?
  {
    match FiniteGrades(vs)
    case Some(grades) => if |grades| > 0 then Finite(Sum(grades) / (|grades| as real)) else Finite(0.0)
    case None => NaN
  }

  /** When every value is a number in [lo, hi] (and 0 is, should there be none), the mean lies in [lo, hi]. */
  lemma MeanBounds(vs: seq<Json>, lo: real, hi: real)
    requires lo <= 0.0 <= hi || vs != []
    requires forall v :: v in vs ==> v.Num? && lo <= v.n <= hi
    ensures Mean(vs).Finite?
    ensures lo <= Mean(vs).value <= hi
  {
    NumbersInRange(vs, lo, hi);
    var grades := FiniteGrades(vs).value;
    if |vs| > 0 {
      MeanWithin(grades, lo, hi);
    }
  }

  /** The mean of terms within [lo, hi] lies within [lo, hi]. */
  lemma MeanWithin(xs: seq<real>, lo: real, hi: real)
    requires |xs| > 0
    requires forall i :: 0 <= i < |xs| ==> lo <= xs[i] <= hi
    ensures lo <= Sum(xs) / (|xs| as real) <= hi
  {
    SumBounds(xs, lo, hi);
    MeanAtMost(Sum(xs), |xs| as real, hi);
    MeanAtLeast(Sum(xs), |xs| as real, lo);
  }

  /** A student's own grade mean. */
  function LocalMean(extra: Json): JsNumber {
    Mean(GradeValues(extra))
  }

  /**
   * The local at-risk test: a grade mean below 6, or an attendance that is
   * present, non-zero and below 75. A NaN mean or attendance fails its test.
   */
  predicate LocalAtRisk(student: Json) {
    var extra := ExtraOf(student);
    || Less(LocalMean(extra), 6.0)
    || (Present(Get(extra, "frequencia")) && Less(ToNumber(Get(extra, "frequencia").value), 75.0))
  }

  /** A student without grades has mean 0 and so is always at risk. */
  lemma NoGradesAtRisk(student: Json)
    requires GradeValues(ExtraOf(student)) == []
    ensures LocalAtRisk(student)
  {
  }

  /**
   * The dashboard and the student card disagree on a student with an empty
   * record: the card shows the neutral score 50, the dashboard counts the
   * student at risk.
   */
  lemma EmptyRecordNeutralYetAtRisk()
    ensures Score(Obj([])) == Some(50)
    ensures LocalAtRisk(Obj([("extra", Obj([]))]))
  {
    assert ExtraOf(Obj([("extra", Obj([]))])) == Obj([]) by {
      LookupAt([("extra", Obj([]))], 0);
    }
  }

  /** How many students the local test flags. */
  function LocalAtRiskCount(students: seq<Json>): (n: nat)
    ensures n <= |students|
    ensures n == |Filter(students, LocalAtRisk)|
  {
    if |students| == 0 then 0
    else
      assert students == [students[0]] + students[1..];
      FilterConcat([students[0]], students[1..], LocalAtRisk);
      assert Filter([students[0]], LocalAtRisk) == (if LocalAtRisk(students[0]) then [students[0]] else []) by {
        assert [students[0]][1..] == [];
      }
      (if LocalAtRisk(students[0]) then 1 else 0) + LocalAtRiskCount(students[1..])
  }

  /** `aiAnalysis?.alunosEmRisco?.length || <local count>`: the AI list wins only when it is non-empty. */
  function AtRiskCount(ai: Json, students: seq<Json>): (n: nat)
    ensures LengthOr0(Get(ai, "alunosEmRisco")) > 0 ==> n == LengthOr0(Get(ai, "alunosEmRisco"))
    ensures LengthOr0(Get(ai, "alunosEmRisco")) == 0 ==> n == |Filter(students, LocalAtRisk)|
  {
    var fromAi := LengthOr0(Get(ai, "alunosEmRisco"));
    if fromAi > 0 then fromAi else LocalAtRiskCount(students)
  }

  /** `aiAnalysis?.alunosInvisiveis?.length || 0`: there is no local fallback. */
  function InvisibleCount(ai: Json): (n: nat)
    ensures Get(ai, "alunosInvisiveis").None? ==> n == 0
    ensures Get(ai, "alunosInvisiveis").Some? && Get(ai, "alunosInvisiveis").value.Arr? ==>
      n == |Get(ai, "alunosInvisiveis").value.items|
    ensures n > 0 ==> Get(ai, "alunosInvisiveis").Some?
  {
    LengthOr0(Get(ai, "alunosInvisiveis"))
  }

  /** A figure as the dashboard shows it: the AI's own value, or one computed here. */
  datatype Figure = FromAi(value: Json) | Local(number: JsNumber)

  /** Every grade of every student, student by student. */
  function AllGrades(students: seq<Json>): (vs: seq<Json>)
    ensures forall v :: v in vs <==> exists i :: 0 <= i < |students| && v in GradeValues(ExtraOf(students[i]))
  {
    if |students| == 0 then []
    else
      assert forall i :: 1 <= i < |students| ==> students[i] == students[1..][i - 1];
      GradeValues(ExtraOf(students[0])) + AllGrades(students[1..])
  }

  /** Pooling two groups of students lists the first group's grades, then the second's. */
  lemma {:induction false} AllGradesConcat(a: seq<Json>, b: seq<Json>)
    ensures AllGrades(a + b) == AllGrades(a) + AllGrades(b)
    decreases |a|
  {
    if |a| == 0 {
      assert a + b == b;
    } else {
      assert (a + b)[1..] == a[1..] + b;
      AllGradesConcat(a[1..], b);
    }
  }

  /**
   * One student contributes exactly their own grades: the `prova` entries,
   * then the `trabalho` entries, each group in entry order.
   */
  lemma AllGradesSingle(s: Json)
    ensures AllGrades([s]) == GradeValues(ExtraOf(s))
    ensures AllGrades([s]) == ValuesWithPrefix(FieldsOf(ExtraOf(s)), "prova") + ValuesWithPrefix(FieldsOf(ExtraOf(s)), "trabalho")
  {
    assert [s][1..] == [];
  }

  /** The pooled mean over all grade entries of all students. */
  function PooledMean(students: seq<Json>): JsNumber {
    Mean(AllGrades(students))
  }

  /** `mediaGeral`: the AI's value when it is truthy, else the pooled mean. */
  function MediaGeral(ai: Json, students: seq<Json>): (r: Figure)
    ensures Present(Get(ai, "mediaGeral")) ==> r == FromAi(Get(ai, "mediaGeral").value)
    ensures !Present(Get(ai, "mediaGeral")) ==> r == Local(PooledMean(students))
  {
    if Present(Get(ai, "mediaGeral")) then FromAi(Get(ai, "mediaGeral").value) else Local(PooledMean(students))
  }

  /** When every grade of the class lies in [lo, hi], so does the class average. */
  lemma PooledMeanBounds(students: seq<Json>, lo: real, hi: real)
    requires lo <= 0.0 <= hi || AllGrades(students) != []
    requires forall v :: v in AllGrades(students) ==> v.Num? && lo <= v.n <= hi
    ensures PooledMean(students).Finite?
    ensures lo <= PooledMean(students).value <= hi
  {
    MeanBounds(AllGrades(students), lo, hi);
  }

  lemma ThreeZeros()
    ensures Sum([0.0, 0.0, 0.0]) == 0.0
  {
    assert Sum([0.0]) == 0.0;
    assert [0.0, 0.0][1..] == [0.0];
    assert Sum([0.0, 0.0]) == 0.0;
    assert [0.0, 0.0, 0.0][1..] == [0.0, 0.0];
  }

  /** A student whose only grade is a 10. */
  const StrongRecord: Fields := [("prova1", Num(10.0))]

  /** A student with three zeros. */
  const WeakRecord: Fields := [("prova1", Num(0.0)), ("prova2", Num(0.0)), ("prova3", Num(0.0))]

  /** One strong and one weak student. */
  const UnevenClass: seq<Json> := [Obj([("extra", Obj(StrongRecord))]), Obj([("extra", Obj(WeakRecord))])]

  lemma StrongGrades()
    ensures GradeValues(Obj(StrongRecord)) == [Num(10.0)]
  {
    var fs := StrongRecord;
    assert StartsWith(fs[0].0, "prova");
    FirstLetterDiffers(fs[0].0, "trabalho");
    ValuesWithPrefixAll(fs, "prova");
    ValuesWithPrefixNone(fs, "trabalho");
  }

  lemma WeakProvas()
    ensures ValuesWithPrefix(WeakRecord, "prova") == [Num(0.0), Num(0.0), Num(0.0)]
  {
    var fs := WeakRecord;
    forall i | 0 <= i < |fs|
      ensures StartsWith(fs[i].0, "prova")
    {
      assert fs[i].0[..5] == "prova";
    }
    ValuesWithPrefixAll(fs, "prova");
  }

  lemma WeakTrabalhos()
    ensures ValuesWithPrefix(WeakRecord, "trabalho") == []
  {
    var fs := WeakRecord;
    forall i | 0 <= i < |fs|
      ensures !StartsWith(fs[i].0, "trabalho")
    {
      FirstLetterDiffers(fs[i].0, "trabalho");
    }
    ValuesWithPrefixNone(fs, "trabalho");
  }

  /** The extras of the two students of `UnevenClass`. */
  lemma UnevenExtras()
    ensures ExtraOf(UnevenClass[0]) == Obj(StrongRecord)
    ensures ExtraOf(UnevenClass[1]) == Obj(WeakRecord)
  {
    LookupAt([("extra", Obj(StrongRecord))], 0);
    LookupAt([("extra", Obj(WeakRecord))], 0);
  }

  lemma UnevenAllGrades()
    ensures AllGrades(UnevenClass) == [Num(10.0), Num(0.0), Num(0.0), Num(0.0)]
  {
    UnevenExtras();
    StrongGrades();
    WeakProvas();
    WeakTrabalhos();
    assert UnevenClass[1..][1..] == [];
    assert AllGrades(UnevenClass[1..]) == GradeValues(Obj(WeakRecord));
  }

  lemma UnevenSum()
    ensures Sum([10.0, 0.0, 0.0, 0.0]) == 10.0
  {
    ThreeZeros();
    assert [10.0, 0.0, 0.0, 0.0][1..] == [0.0, 0.0, 0.0];
  }

  lemma UnevenFinite()
    ensures FiniteGrades([Num(10.0), Num(0.0), Num(0.0), Num(0.0)]) == Some([10.0, 0.0, 0.0, 0.0])
  {
    var vs := [Num(10.0), Num(0.0), Num(0.0), Num(0.0)];
    forall i | 0 <= i < |vs|
      ensures ToNumber(vs[i]) == Finite(vs[i].n)
    {
    }
    var g := FiniteGrades(vs).value;
    assert g[0] == 10.0 && g[1] == 0.0 && g[2] == 0.0 && g[3] == 0.0;
    assert g == [10.0, 0.0, 0.0, 0.0];
  }

  lemma UnevenPooled()
    ensures PooledMean(UnevenClass) == Finite(2.5)
  {
    UnevenAllGrades();
    UnevenFinite();
    UnevenSum();
  }

  lemma StrongMean()
    ensures LocalMean(Obj(StrongRecord)) == Finite(10.0)
  {
    StrongGrades();
    var sv := GradeValues(Obj(StrongRecord));
    assert ToNumber(sv[0]) == Finite(10.0);
    assert FiniteGrades(sv).value == [10.0];
  }

  lemma WeakMean()
    ensures LocalMean(Obj(WeakRecord)) == Finite(0.0)
  {
    WeakProvas();
    WeakTrabalhos();
    var wv := GradeValues(Obj(WeakRecord));
    assert wv == [Num(0.0), Num(0.0), Num(0.0)];
    NumbersInRange(wv, 0.0, 0.0);
    var g := FiniteGrades(wv).value;
    assert g[0] == 0.0 && g[1] == 0.0 && g[2] == 0.0;
    assert g == [0.0, 0.0, 0.0];
    ThreeZeros();
  }

  /**
   * The class average pools grades rather than averaging the students'
   * means: for `UnevenClass` it is 2.5, while the two students' means (10
   * and 0) average to 5.
   */
  lemma PooledNotMeanOfMeans()
    ensures PooledMean(UnevenClass) == Finite(2.5)
    ensures LocalMean(ExtraOf(UnevenClass[0])) == Finite(10.0)
    ensures LocalMean(ExtraOf(UnevenClass[1])) == Finite(0.0)
  {
    UnevenExtras();
    UnevenPooled();
    StrongMean();
    WeakMean();
  }

  /** `Number(s.extra?.frequencia || 0)` */
  function FreqValue(student: Json): JsNumber {
    var f := Get(ExtraOf(student), "frequencia");
    if Present(f) then ToNumber(f.value) else Finite(0.0)
  }

  /** The attendances that pass `.filter(f => f > 0)`, in student order. */
  function PositiveFreqs(students: seq<Json>): (fs: seq<real>)
    ensures forall x :: x in fs ==> x > 0.0
    ensures forall i :: 0 <= i < |students| && Greater(FreqValue(students[i]), 0.0) ==> FreqValue(students[i]).value in fs
    ensures forall x :: x in fs ==> exists i :: 0 <= i < |students| && FreqValue(students[i]) == Finite(x)
    ensures |fs| <= |students|
  {
    if |students| == 0 then []
    else
      var rest := PositiveFreqs(students[1..]);
      assert forall i :: 1 <= i < |students| ==> students[i] == students[1..][i - 1];
      var f := FreqValue(students[0]);
      if Greater(f, 0.0) then [f.value] + rest else rest
  }

  /** One student contributes their attendance exactly when it is positive. */
  lemma PositiveFreqsSingle(s: Json)
    ensures PositiveFreqs([s]) == if Greater(FreqValue(s), 0.0) then [FreqValue(s).value] else []
  {
    assert [s][1..] == [];
  }

  /** The attendances of two groups of students, group by group: order and repeats are kept. */
  lemma {:induction false} PositiveFreqsConcat(a: seq<Json>, b: seq<Json>)
    ensures PositiveFreqs(a + b) == PositiveFreqs(a) + PositiveFreqs(b)
    decreases |a|
  {
    if |a| == 0 {
      assert a + b == b;
    } else {
      assert (a + b)[1..] == a[1..] + b;
      PositiveFreqsConcat(a[1..], b);
    }
  }

  /** The local attendance mean: over positive attendances only, 0 when there are none. */
  function LocalFreqMean(students: seq<Json>): (r: real)
    ensures PositiveFreqs(students) == [] <==> r == 0.0
  {
    var fs := PositiveFreqs(students);
    if |fs| > 0 then
      assert forall i :: 0 <= i < |fs| ==> fs[i] in fs;
      PositiveSum(fs);
      MeanAtLeastPositive(Sum(fs), |fs| as real);
      Sum(fs) / (|fs| as real)
    else 0.0
  }

  lemma {:induction false} PositiveSum(fs: seq<real>)
    requires |fs| > 0 && forall i :: 0 <= i < |fs| ==> fs[i] > 0.0
    ensures Sum(fs) > 0.0
    decreases |fs|
  {
    if |fs| > 1 {
      PositiveSum(fs[1..]);
    }
  }

  lemma MeanAtLeastPositive(s: real, n: real)
    requires s > 0.0 && n > 0.0
    ensures s / n > 0.0
  {
  }

  /** `freqMedia`: the AI's value when it is truthy, else the local attendance mean. */
  function FreqMedia(ai: Json, students: seq<Json>): (r: Figure)
    ensures Present(Get(ai, "frequenciaMedia")) ==> r == FromAi(Get(ai, "frequenciaMedia").value)
    ensures !Present(Get(ai, "frequenciaMedia")) ==> r == Local(Finite(LocalFreqMean(students)))
  {
    if Present(Get(ai, "frequenciaMedia")) then FromAi(Get(ai, "frequenciaMedia").value)
    else Local(Finite(LocalFreqMean(students)))
  }

  /** Attendances of at most 100 give a local attendance mean of at most 100. */
  lemma FreqMeanBounds(students: seq<Json>)
    requires forall x :: x in PositiveFreqs(students) ==> x <= 100.0
    ensures 0.0 <= LocalFreqMean(students) <= 100.0
  {
    var fs := PositiveFreqs(students);
    if |fs| > 0 {
      forall i | 0 <= i < |fs|
        ensures 0.0 <= fs[i] <= 100.0
      {
        assert fs[i] in fs;
      }
      MeanWithin(fs, 0.0, 100.0);
    }
  }
}
