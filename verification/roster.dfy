/** The roster sheet: the required columns, the projection of a loaded sheet
    to normalised student rows, and the filter that keeps the rows tagged
    with the logged-in counselor (paginas/radar_saude_mental.py, lines 17-20
    and 82-98). */
module Roster {
  import opened Wrappers
  import opened Text
  import opened Seqs
  import opened Tables

  /** The student identity column, shared with the response sheet. */
  const NameColumn := "Nome + RA dx alunx"
  /** The counselor routing-tag column. */
  const TagColumn := "Orientador Tag"

  /** The eight roster columns the page requires, in declared order. */
  const RosterColumns: seq<string> := [
    NameColumn, "Colégio", "Ano", "Gênero",
    "Praça", "Cor/raça", TagColumn, "Orientador Responsável"
  ]

  /** One normalised roster row. Fields follow `RosterColumns`: student name
      and id, school, school year, gender, region, race/ethnicity, the
      counselor routing tag and the responsible counselor's display name. */
  datatype Student = Student(
    name: string, school: string, grade: string, gender: string,
    region: string, race: string, tag: string, responsible: string)

  /** Every field of a student has been through `normaliza_str`. */
  predicate Normalized(s: Student) {
    && Trimmed(s.name) && Trimmed(s.school) && Trimmed(s.grade) && Trimmed(s.gender)
    && Trimmed(s.region) && Trimmed(s.race) && Trimmed(s.tag) && Trimmed(s.responsible)
  }

  /** A raw row that has a cell under every roster column. */
  predicate HasRosterColumns(row: map<string, Cell>) {
    forall i | 0 <= i < |RosterColumns| :: RosterColumns[i] in row
  }

  /** `roster[COLS_ROSTER]` followed by `normaliza_str` on every column, for
      one row: each field is the normalised cell under its column. */
  function StudentOf(row: map<string, Cell>): (s: Student)
    requires HasRosterColumns(row)
    ensures Normalized(s)
  {
    Student(
      Normalize(row[RosterColumns[0]]), Normalize(row[RosterColumns[1]]),
      Normalize(row[RosterColumns[2]]), Normalize(row[RosterColumns[3]]),
      Normalize(row[RosterColumns[4]]), Normalize(row[RosterColumns[5]]),
      Normalize(row[RosterColumns[6]]), Normalize(row[RosterColumns[7]]))
  }

  function StudentsOf(rows: seq<map<string, Cell>>): (r: seq<Student>)
    requires forall i | 0 <= i < |rows| :: HasRosterColumns(rows[i])
    ensures |r| == |rows|
    ensures forall i | 0 <= i < |rows| :: r[i] == StudentOf(rows[i])
  {
    if rows == [] then [] else [StudentOf(rows[0])] + StudentsOf(rows[1..])
  }

  /** Loads the roster: fails with the missing required columns, in declared
      order, when any is absent; otherwise yields one normalised student per
      sheet row, in sheet order. */
  function LoadRoster(t: Table): (r: Result<seq<Student>, seq<string>>)
    requires WellFormed(t)
    ensures r.Err? <==> exists i | 0 <= i < |RosterColumns| :: RosterColumns[i] !in t.columns
    ensures r.Err? ==> r.error == MissingColumns(RosterColumns, t.columns) && r.error != []
    ensures r.Ok? ==> |r.value| == |t.rows|
    ensures r.Ok? ==> forall i | 0 <= i < |t.rows| ::
      HasRosterColumns(t.rows[i]) && r.value[i] == StudentOf(t.rows[i]) && Normalized(r.value[i])
  {
    var missing := MissingColumns(RosterColumns, t.columns);
    if missing != [] then Err(missing)
    else
      assert forall i | 0 <= i < |t.rows| :: HasRosterColumns(t.rows[i]);
      Ok(StudentsOf(t.rows))
  }

  /** The key a counselor is matched by: the login value normalised and
      lowered (line 93). A missing login value gives "". */
  function CounselorKey(counselor: Cell): string {
    Lower(Normalize(counselor))
  }

  /** A roster row belongs to the counselor whose key equals its lowered tag
      (line 94-96; the tag was already stripped when the roster was loaded). */
  predicate AssignedTo(key: string, s: Student) {
    Lower(s.tag) == key
  }

  /** The counselor's students: the order-preserving subsequence of roster
      rows whose tag matches, duplicates included. */
  function Assigned(roster: seq<Student>, counselor: Cell): (r: seq<Student>)
    ensures IsSubsequence(r, roster)
    ensures forall i | 0 <= i < |r| :: AssignedTo(CounselorKey(counselor), r[i])
  {
    var key := CounselorKey(counselor);
    Filter(s => AssignedTo(key, s), roster)
  }

  /** A roster row is kept exactly when its tag matches, as often as it
      occurs in the roster; no other row is kept. */
  lemma AssignedExactly(roster: seq<Student>, counselor: Cell)
    ensures forall s :: (multiset(Assigned(roster, counselor))[s] ==
                         if AssignedTo(CounselorKey(counselor), s) then multiset(roster)[s] else 0)
  {
    var key := CounselorKey(counselor);
    FilterMultiset(s => AssignedTo(key, s), roster);
  }

  /** Every assigned student is a roster row. */
  lemma AssignedFrom(roster: seq<Student>, counselor: Cell)
    ensures forall i | 0 <= i < |Assigned(roster, counselor)| :: Assigned(roster, counselor)[i] in roster
  {
    var key := CounselorKey(counselor);
    FilterFrom(s => AssignedTo(key, s), roster);
  }

  /** Matching in terms of the raw cells: a row is the counselor's exactly
      when its tag, stripped and lowered, equals the login value stripped
      and lowered; the order of stripping and lowering does not matter. */
  lemma AssignedRaw(tag: Cell, counselor: Cell)
    ensures Lower(Normalize(tag)) == CounselorKey(counselor)
      <==> Strip(Lower(CellText(tag))) == Strip(Lower(CellText(counselor)))
  {
    calc {
      Lower(Normalize(tag)) == CounselorKey(counselor);
      { NormalizeLower(tag); }
      Strip(Lower(CellText(tag))) == CounselorKey(counselor);
      { NormalizeLower(counselor); }
      Strip(Lower(CellText(tag))) == Strip(Lower(CellText(counselor)));
    }
  }

  /** Lowering a normalised cell is stripping its lowered text. */
  lemma NormalizeLower(c: Cell)
    ensures Lower(Normalize(c)) == Strip(Lower(CellText(c)))
  {
    match c
    case Missing =>
      assert Lower("") == "";
      StripTrimmed("");
    case Present(x) =>
      LowerStripCommute(x);
  }

  /** The text of a cell, "" for a missing one. */
  function CellText(c: Cell): string {
    match c
    case Missing => ""
    case Present(x) => x
  }

  /** Case and surrounding whitespace do not matter: a tag " JOAO " matches
      the counselor "joao". */
  lemma AssignedIgnoresCaseAndSpace(tag: Cell, counselor: Cell)
    requires tag == Present(" JOAO ") && counselor == Present("joao")
    ensures Lower(Normalize(tag)) == CounselorKey(counselor)
  {
    NormalizePadded(tag);
    NormalizePlain(counselor);
    LowerWord(Normalize(tag));
    LowerWord(Normalize(counselor));
  }

  lemma NormalizePadded(tag: Cell)
    requires tag == Present(" JOAO ")
    ensures Normalize(tag) == "JOAO"
  {
    StripPaddedWord(tag.text);
  }

  lemma NormalizePlain(c: Cell)
    requires c == Present("joao")
    ensures Normalize(c) == "joao"
  {
    StripTrimmed("joao");
  }

  lemma LowerWord(t: string)
    requires t == "JOAO" || t == "joao"
    ensures Lower(t) == "joao"
  {
  }

  /** When the login value is missing the key is "", and exactly the rows
      with a blank tag are assigned. */
  lemma MissingCounselorTakesBlankTags(roster: seq<Student>)
    ensures Assigned(roster, Missing) == Filter((s: Student) => s.tag == "", roster)
  {
    var key := CounselorKey(Missing);
    assert key == "";
    FilterCongruent(s => AssignedTo(key, s), (s: Student) => s.tag == "", roster);
  }
}
