/**
 * How new students enter the roster from the students page
 * (src/pages/Alunos.jsx): the add-student form and the CSV import. Both build
 * the same record: id, name, the given e-mail or `<id>@escola.com`, and
 * `extra.frequencia` 100. The CSV reader skips the first non-blank line as a
 * header and every line with fewer than two fields.
 */
module Enrollment {
  import opened Wrappers
  import opened Text
  import opened JsonData
  import opened Seqs

  function DefaultEmail(id: string): string {
    id + "@escola.com"
  }

  /** A record as both entry paths send it: a non-empty e-mail and attendance 100. */
  predicate IsNewStudent(r: Json) {
    && r.Obj?
    && (match Lookup(r.fields, "email") case Some(Str(e)) => e != "" case _ => false)
    && Lookup(r.fields, "extra") == Some(Obj([("frequencia", Num(100.0))]))
  }

  /** `{ _id, name, email: email || `${_id}@escola.com`, extra: { frequencia: 100 } }` */
  function NewStudent(id: string, name: string, email: string): (r: Json)
    ensures IsNewStudent(r)
    ensures Lookup(r.fields, "_id") == Some(Str(id)) && Lookup(r.fields, "name") == Some(Str(name))
    ensures Lookup(r.fields, "email") == Some(Str(if email != "" then email else DefaultEmail(id)))
  {
    var fs := [
      ("_id", Str(id)), ("name", Str(name)),
      ("email", Str(if email != "" then email else DefaultEmail(id))),
      ("extra", Obj([("frequencia", Num(100.0))]))
    ];
    LookupAt(fs, 0);
    LookupAt(fs, 1);
    LookupAt(fs, 2);
    LookupAt(fs, 3);
    Obj(fs)
  }

  /** `/[,;]/` */
  const Separators: set<char> := {',', ';'}

  /** `line.split(/[,;]/).map(p => p.trim())` */
  function RowFields(line: string): (r: seq<string>)
    ensures |r| == CountIn(line, Separators) + 1
    ensures forall i :: 0 <= i < |r| ==> r[i] == Trim(Split(line, Separators)[i])
  {
    var parts := Split(line, Separators);
    seq(|parts|, i requires 0 <= i < |parts| => Trim(parts[i]))
  }

  /**
   * One data row: a student when the line has a separator, giving at least
   * an id and a name; the e-mail is the third field when it is not blank.
   */
  function CsvRow(line: string): (r: Option<Json>)
    ensures r.Some? <==> CountIn(line, Separators) >= 1
    ensures r.Some? ==> (IsNewStudent(r.value)
      && Lookup(r.value.fields, "_id") == Some(Str(RowFields(line)[0]))
      && Lookup(r.value.fields, "name") == Some(Str(RowFields(line)[1])))
    ensures r.Some? ==> var parts := RowFields(line);
      Lookup(r.value.fields, "email") == Some(Str(if |parts| > 2 && parts[2] != "" then parts[2] else DefaultEmail(parts[0])))
  {
    var parts := RowFields(line);
    if |parts| >= 2 then
      Some(NewStudent(parts[0], parts[1], if |parts| > 2 then parts[2] else ""))
    else None
  }

  /** The students of the data rows, in file order. */
  function CsvRows(lines: seq<string>): (r: seq<Json>)
    ensures |r| <= |lines|
    ensures forall s :: s in r ==> IsNewStudent(s)
  {
    if |lines| == 0 then []
    else
      var rest := CsvRows(lines[1..]);
      match CsvRow(lines[0])
      case Some(s) => [s] + rest
      case None => rest
  }

  /** A single line gives the student that line reads as, or nothing. */
  lemma CsvRowsSingle(l: string)
    ensures CsvRows([l]) == match CsvRow(l) case Some(s) => [s] case None => []
  {
    assert [l][1..] == [];
  }

  /** Reading two runs of lines gives the first run's students, then the second's: file order is kept. */
  lemma {:induction false} CsvRowsConcat(a: seq<string>, b: seq<string>)
    ensures CsvRows(a + b) == CsvRows(a) + CsvRows(b)
    decreases |a|
  {
    if |a| == 0 {
      assert a + b == b;
    } else {
      assert (a + b)[1..] == a[1..] + b;
      assert (a + b)[0] == a[0];
      CsvRowsConcat(a[1..], b);
    }
  }

  /** Every line has a separator. */
  predicate AllRows(lines: seq<string>) {
    forall i :: 0 <= i < |lines| ==> CountIn(lines[i], Separators) >= 1
  }

  lemma AllRowsCons(lines: seq<string>)
    requires lines != []
    ensures AllRows(lines) <==> CountIn(lines[0], Separators) >= 1 && AllRows(lines[1..])
  {
    assert forall i :: 1 <= i < |lines| ==> lines[i] == lines[1..][i - 1];
  }

  /** No row is dropped exactly when every line has a separator. */
  lemma {:induction false} CsvRowsKeepsAll(lines: seq<string>)
    ensures |CsvRows(lines)| == |lines| <==> AllRows(lines)
  {
    if |lines| > 0 {
      CsvRowsKeepsAll(lines[1..]);
      AllRowsCons(lines);
    }
  }

  /** `l.trim()` is truthy. */
  predicate IsNonBlank(l: string) {
    Trim(l) != ""
  }

  /** `text.split('\n').filter(l => l.trim())` */
  function NonBlankLines(text: string): (r: seq<string>)
    ensures forall l :: l in r ==> Trim(l) != "" && '\n' !in l
  {
    var lines := Split(text, {'\n'});
    assert forall l :: l in lines ==> '\n' !in l by {
      forall l | l in lines
        ensures '\n' !in l
      {
        var i :| 0 <= i < |lines| && lines[i] == l;
        assert forall j :: 0 <= j < |l| ==> l[j] != '\n';
      }
    }
    Filter(lines, IsNonBlank)
  }

  /** `handleCSVImport`: every non-blank line after the first, read as a row. */
  function CsvStudents(text: string): (r: seq<Json>)
    ensures forall s :: s in r ==> IsNewStudent(s)
    ensures |r| < |NonBlankLines(text)| || |NonBlankLines(text)| == 0
    ensures |NonBlankLines(text)| <= 1 ==> r == []
    ensures |NonBlankLines(text)| > 1 ==> r == CsvRows(NonBlankLines(text)[1..])
  {
    var lines := NonBlankLines(text);
    if |lines| <= 1 then [] else CsvRows(lines[1..])
  }

  /** A non-blank first line is the first of the non-blank lines. */
  lemma NonBlankLinesCons(header: string, body: string)
    requires '\n' !in header && Trim(header) != ""
    ensures NonBlankLines(header + "\n" + body) == [header] + NonBlankLines(body)
  {
    SplitCons(header, '\n', body);
    FilterCons(header, Split(body, {'\n'}), IsNonBlank);
  }

  /** A header line ahead of the data is skipped, and the data rows are read as if alone. */
  lemma CsvHeaderSkipped(header: string, body: string)
    requires '\n' !in header && Trim(header) != ""
    ensures CsvStudents(header + "\n" + body) == CsvRows(NonBlankLines(body))
  {
    NonBlankLinesCons(header, body);
    assert ([header] + NonBlankLines(body))[1..] == NonBlankLines(body);
  }

  /** `handleAddStudent`: the form's fields, with the same e-mail default as the CSV import. */
  function ManualStudent(id: string, name: string, email: string): (r: Json)
    ensures IsNewStudent(r)
    ensures email == "" ==> Lookup(r.fields, "email") == Some(Str(DefaultEmail(id)))
    ensures email != "" ==> Lookup(r.fields, "email") == Some(Str(email))
  {
    NewStudent(id, name, email)
  }
}
