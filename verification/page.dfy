/** One pass of the page, top to bottom, with the clock, the sheet reads,
    the login value, the form widgets and the writer's verdict supplied as
    inputs (paginas/radar_saude_mental.py, lines 60-148 and 155-266). */
module Page {
  import opened Wrappers
  import opened Text
  import opened Seqs
  import opened Calendar
  import opened Tables
  import opened Roster
  import opened History
  import opened Answers
  import opened Checklist
  import opened Submission

  /** Why a page load stops before the selection box. */
  datatype Halt =
    | RosterUnreadable                            // lines 77-79
    | RosterColumnsMissing(columns: seq<string>)  // lines 83-85
    | NoStudentsAssigned                          // lines 100-106
    | HistoryColumnMissing                        // line 129 raises KeyError
    | AllRecorded(tally: Tally)                   // lines 142-148

  /** What a load that reaches the selection box has computed. */
  datatype Session = Session(
    month: string, students: seq<Student>, history: seq<Entry>,
    pending: seq<Student>, tally: Tally)

  /** The relations between the parts of a session that reached the
      selection box. */
  predicate Consistent(s: Session) {
    && s.pending == Pending(s.students, RecordedNames(s.history, s.month))
    && s.tally == Progress(s.students, RecordedNames(s.history, s.month))
    && s.pending != []
    && (forall i | 0 <= i < |s.students| :: Normalized(s.students[i]))
    && Trimmed(s.month)
  }

  /** A page load: reference month, roster shape check, normalisation,
      counselor filter, history load, pending rows and counts. */
  function Load(roster: Table, counselor: Cell, loaded: Option<Table>, year: int, month: int): (r: Result<Session, Halt>)
    requires ValidDate(year, month)
    requires WellFormed(roster)
    requires loaded.Some? ==> WellFormed(loaded.value)
    ensures r.Err? ==> !r.error.RosterUnreadable?
    ensures (r.Err? && r.error.RosterColumnsMissing?) <==>
      exists i | 0 <= i < |RosterColumns| :: RosterColumns[i] !in roster.columns
    ensures r.Err? && r.error.RosterColumnsMissing? ==>
      r.error.columns == MissingColumns(RosterColumns, roster.columns) && r.error.columns != []
    ensures r == Err(NoStudentsAssigned) <==>
      LoadRoster(roster).Ok? && Assigned(LoadRoster(roster).value, counselor) == []
    ensures r == Err(HistoryColumnMissing) ==> loaded.Some?
    ensures r == Err(HistoryColumnMissing) <==>
      LoadRoster(roster).Ok? && Assigned(LoadRoster(roster).value, counselor) != [] && LoadHistory(loaded).None?
    ensures (r.Err? && r.error.AllRecorded?) <==>
      && LoadRoster(roster).Ok? && Assigned(LoadRoster(roster).value, counselor) != [] && LoadHistory(loaded).Some?
      && var students := Assigned(LoadRoster(roster).value, counselor);
         forall i | 0 <= i < |students| :: students[i].name in RecordedNames(LoadHistory(loaded).value, ReferenceMonth(year, month))
    ensures r.Err? && r.error.AllRecorded? ==>
      r.error.tally == Progress(Assigned(LoadRoster(roster).value, counselor),
                                RecordedNames(LoadHistory(loaded).value, ReferenceMonth(year, month)))
    ensures r.Err? && r.error.AllRecorded? ==> 0 < r.error.tally.total == r.error.tally.filled
    ensures r.Ok? ==> Consistent(r.value) && r.value.month == ReferenceMonth(year, month)
    ensures r.Ok? ==> 0 < r.value.tally.total && r.value.tally.filled < r.value.tally.total
    ensures r.Ok? ==> r.value.students == Assigned(LoadRoster(roster).value, counselor)
    ensures r.Ok? ==> LoadHistory(loaded) == Some(r.value.history)
  {
    var monthText := ReferenceMonth(year, month);
    match LoadRoster(roster)
    case Err(missing) => Err(RosterColumnsMissing(missing))
    case Ok(all) =>
      var mine := Assigned(all, counselor);
      if |mine| == 0 then Err(NoStudentsAssigned)
      else match LoadHistory(loaded)
        case None => Err(HistoryColumnMissing)
        case Some(h) =>
          AssignedFrom(all, counselor);
          AllNormalized(all, mine);
          Survey(mine, h, monthText)
  }

  /** The second half of a load (lines 131-148), once the counselor's rows
      and the history are known: the pending rows and the counter, halting
      when every assigned name is already recorded for the month. */
  function Survey(students: seq<Student>, h: seq<Entry>, month: string): (r: Result<Session, Halt>)
    requires students != [] && Trimmed(month)
    requires forall i | 0 <= i < |students| :: Normalized(students[i])
    ensures r.Err? <==> forall i | 0 <= i < |students| :: students[i].name in RecordedNames(h, month)
    ensures r.Err? ==> r.error == AllRecorded(Progress(students, RecordedNames(h, month)))
    ensures r.Err? ==> 0 < r.error.tally.total == r.error.tally.filled
    ensures r.Ok? ==> Consistent(r.value) && r.value.month == month
    ensures r.Ok? ==> r.value.students == students && r.value.history == h
    ensures r.Ok? ==> 0 < r.value.tally.total && r.value.tally.filled < r.value.tally.total
  {
    var recorded := RecordedNames(h, month);
    var pending := Pending(students, recorded);
    var tally := Progress(students, recorded);
    PendingEmpty(students, recorded);
    if pending == [] then Err(AllRecorded(tally))
    else Ok(Session(month, students, h, pending, tally))
  }

  /** The load including the roster read (lines 72-79): any failure to
      read the roster sheet (`None`) halts the page before anything else is
      looked at; a readable roster never produces that halt. */
  function LoadPage(roster: Option<Table>, counselor: Cell, loaded: Option<Table>, year: int, month: int): (r: Result<Session, Halt>)
    requires ValidDate(year, month)
    requires roster.Some? ==> WellFormed(roster.value)
    requires loaded.Some? ==> WellFormed(loaded.value)
    ensures r == Err(RosterUnreadable) <==> roster.None?
    ensures roster.Some? ==> r == Load(roster.value, counselor, loaded, year, month)
  {
    match roster
    case None => Err(RosterUnreadable)
    case Some(t) => Load(t, counselor, loaded, year, month)
  }

  lemma AllNormalized(all: seq<Student>, part: seq<Student>)
    requires forall i | 0 <= i < |all| :: Normalized(all[i])
    requires forall i | 0 <= i < |part| :: part[i] in all
    ensures forall i | 0 <= i < |part| :: Normalized(part[i])
  {
    forall i | 0 <= i < |part| ensures Normalized(part[i]) {
      var k :| 0 <= k < |all| && all[k] == part[i];
    }
  }

  /** The row behind the chosen name (line 166): the first pending row with
      that name. */
  function Chosen(pending: seq<Student>, name: string): (s: Student)
    requires exists i | 0 <= i < |pending| :: pending[i].name == name
    ensures exists k | 0 <= k < |pending| :: pending[k] == s && forall j | 0 <= j < k :: pending[j].name != name
    ensures s.name == name
  {
    if pending[0].name == name then pending[0]
    else
      var s := Chosen(pending[1..], name);
      var k :| 0 <= k < |pending[1..]| && pending[1..][k] == s && forall j | 0 <= j < k :: pending[1..][j].name != name;
      assert pending[k + 1] == s;
      s
  }

  /** Where a pass through the selection box and the form ends. */
  datatype Outcome =
    | NoSelection                   // lines 163-164
    | FormShown(student: Student)   // the form is shown, not yet submitted
    | Incomplete(missing: seq<Field>)  // lines 227-229
    | AlreadyRecorded               // lines 238-240
    | Saved(response: Response)     // lines 262-264
    | NotSaved(response: Response)  // lines 265-266

  /** The selection and form half of the page. `choice` is the selection
      box (one of the pending names, or `None`), `submitted` the submit
      button, `timestamp` the formatted current time and `writerOk` the
      writer's verdict. */
  function Submit(s: Session, choice: Option<string>, submitted: bool, form: Form,
                  timestamp: string, writerOk: bool): (o: Outcome)
    requires choice.Some? ==> exists i | 0 <= i < |s.pending| :: s.pending[i].name == choice.value
    ensures o.NoSelection? <==> choice.None? || choice.value == ""
    ensures o.FormShown? ==> !submitted && choice.Some? && o.student == Chosen(s.pending, choice.value)
    ensures o.FormShown? ==> o.student in s.pending && o.student.name == choice.value
    ensures o.Incomplete? <==> !o.NoSelection? && submitted && MissingFields(form) != []
    ensures o.Incomplete? ==> o.missing == MissingFields(form)
    ensures o.AlreadyRecorded? ==> submitted && MissingFields(form) == [] && DuplicateExists(s.history, choice.value, s.month)
    ensures o.Saved? || o.NotSaved? ==>
      && submitted && MissingFields(form) == []
      && !DuplicateExists(s.history, choice.value, s.month)
      && o.response.name == choice.value && o.response.month == s.month
      && o.response.timestamp == timestamp
      && o.response.progress == form.progress.value && o.response.ideation == form.ideation.value
      && o.response.tier == form.tier.value
      && o.response.comment == Strip(form.comment) && o.response.comment != ""
      && o.response.documents == Strip(form.documents)
      && o.response == BuildResponse(timestamp, Chosen(s.pending, choice.value), form.progress.value,
                                     form.comment, form.ideation.value, form.tier.value, form.documents, s.month)
    ensures o.Saved? ==> writerOk
    ensures o.NotSaved? ==> !writerOk
  {
    if choice.None? || choice.value == "" then NoSelection
    else
      var student := Chosen(s.pending, choice.value);
      if !submitted then FormShown(student)
      else
        var missing := MissingFields(form);
        if missing != [] then Incomplete(missing)
        else if DuplicateExists(s.history, student.name, s.month) then AlreadyRecorded
        else
          StripEmpty(form.comment);
          var response := BuildResponse(timestamp, student, form.progress.value, form.comment,
                                        form.ideation.value, form.tier.value, form.documents, s.month);
          if writerOk then Saved(response) else NotSaved(response)
  }

  /** The duplicate branch never fires on a consistent session: the chosen
      student is pending, so the snapshot the list came from holds no
      record for them this month. The guard only matters against writes
      that landed after the snapshot was read, which this model does not
      see. */
  lemma DuplicateUnreachable(s: Session, choice: Option<string>, submitted: bool, form: Form,
                             timestamp: string, writerOk: bool)
    requires Consistent(s)
    requires choice.Some? ==> exists i | 0 <= i < |s.pending| :: s.pending[i].name == choice.value
    ensures Submit(s, choice, submitted, form, timestamp, writerOk) != AlreadyRecorded
  {
    if choice.Some? && choice.value != "" {
      var student := Chosen(s.pending, choice.value);
      PendingNeverDuplicate(s.students, s.history, s.month, student);
    }
  }

  /** The cell a writer stores under `column`: the row's value, or an empty
      cell when the row has no such key. */
  function CellFor(row: seq<(string, string)>, column: string): Cell {
    match Lookup(row, column)
    case Some(v) => Present(v)
    case None => Missing
  }

  /** The response sheet after the writer appends `row` under its header
      (the fallback header when the sheet could not be read). */
  function Append(loaded: Option<Table>, row: seq<(string, string)>): (t: Table)
    requires loaded.Some? ==> WellFormed(loaded.value)
    ensures WellFormed(t)
  {
    var sheet := if loaded.None? then EmptyHistory else loaded.value;
    Table(sheet.columns, sheet.rows + [map c | c in sheet.columns :: CellFor(row, c)])
  }

  /** Reading the sheet back after the append yields the sheet entries plus
      one for the written record, with its name and month unchanged by
      normalisation. */
  lemma LoadAfterAppend(loaded: Option<Table>, r: Response, h: seq<Entry>)
    requires loaded.Some? ==> WellFormed(loaded.value)
    requires LoadHistory(loaded) == Some(h)
    requires Trimmed(r.name) && Trimmed(r.month)
    ensures LoadHistory(Some(Append(loaded, Serialize(r)))) == Some(h + [Entry(r.name, r.month)])
  {
    var sheet := if loaded.None? then EmptyHistory else loaded.value;
    var row := Serialize(r);
    var added := map c | c in sheet.columns :: CellFor(row, c);
    assert NameColumn in sheet.columns && MonthColumn in sheet.columns;
    assert Append(loaded, row).rows == sheet.rows + [added];
    assert h == EntriesOf(sheet.rows);
    SerializeLookup(r);
    CellForTrimmed(row, NameColumn, r.name);
    CellForTrimmed(row, MonthColumn, r.month);
    assert added[NameColumn] == CellFor(row, NameColumn);
    assert added[MonthColumn] == CellFor(row, MonthColumn);
    EntriesOfAppend(sheet.rows, added);
  }

  /** A cell written from a trimmed value normalises back to that value. */
  lemma CellForTrimmed(row: seq<(string, string)>, column: string, v: string)
    requires Lookup(row, column) == Some(v) && Trimmed(v)
    ensures Normalize(CellFor(row, column)) == v
  {
    StripTrimmed(v);
  }

  /** A load whose roster and history both read cleanly and which has
      students assigned, in closed form. */
  lemma LoadUnfold(roster: Table, counselor: Cell, loaded: Option<Table>, year: int, month: int, h: seq<Entry>)
    requires ValidDate(year, month) && WellFormed(roster)
    requires loaded.Some? ==> WellFormed(loaded.value)
    requires LoadRoster(roster).Ok? && Assigned(LoadRoster(roster).value, counselor) != []
    requires LoadHistory(loaded) == Some(h)
    ensures var students := Assigned(LoadRoster(roster).value, counselor);
      var m := ReferenceMonth(year, month);
      var rec := RecordedNames(h, m);
      var p := Pending(students, rec);
      Load(roster, counselor, loaded, year, month)
        == if p == [] then Err(AllRecorded(Progress(students, rec))) else Ok(Session(m, students, h, p, Progress(students, rec)))
  {
  }

  /** After a successful save and the page's refresh, the saved student is
      no longer pending and the filled count has gone up: either the page
      halts with everything recorded, or it offers only other students. */
  lemma SavedStudentLeavesPending(
    roster: Table, counselor: Cell, loaded: Option<Table>, year: int, month: int,
    choice: Option<string>, form: Form, timestamp: string, response: Response)
    requires ValidDate(year, month) && WellFormed(roster)
    requires loaded.Some? ==> WellFormed(loaded.value)
    requires Load(roster, counselor, loaded, year, month).Ok?
    requires var s := Load(roster, counselor, loaded, year, month).value;
      (choice.Some? ==> exists i | 0 <= i < |s.pending| :: s.pending[i].name == choice.value)
      && Submit(s, choice, true, form, timestamp, true) == Saved(response)
    ensures var s := Load(roster, counselor, loaded, year, month).value;
      var r := Load(roster, counselor, Some(Append(loaded, Serialize(response))), year, month);
      && (r.Ok? || r.error.AllRecorded?)
      && (r.Ok? ==> r.value.tally.filled > s.tally.filled && forall i | 0 <= i < |r.value.pending| :: r.value.pending[i].name != response.name)
      && (r.Err? ==> r.error.tally.filled > s.tally.filled)
  {
    var s := Load(roster, counselor, loaded, year, month).value;
    var students := s.students;
    var h := s.history;
    var student := Chosen(s.pending, choice.value);
    assert response.name == student.name && response.month == s.month;
    var rec := RecordedNames(h, s.month);
    FilterMembership((x: Student) => x.name !in rec, students, student);
    assert student in students && student.name !in rec;
    assert Normalized(student) by {
      var k :| 0 <= k < |students| && students[k] == student;
    }
    LoadAfterAppend(loaded, response, h);
    var h2 := h + [Entry(response.name, s.month)];
    RecordedAfterAppend(h, response.name, s.month);
    var rec2 := RecordedNames(h2, s.month);
    var loaded2 := Some(Append(loaded, Serialize(response)));
    LoadUnfold(roster, counselor, loaded2, year, month, h2);
    FilterGrows((x: Student) => x.name in rec, (x: Student) => x.name in rec2, students, student);
    assert Progress(students, rec2).filled > s.tally.filled;
  }

  /** The worked example: two raw roster rows tagged "joao" and " JOAO "
      both go to counselor "joao" once loaded; with a record for the first
      this month, only the second is pending and the counter reads 1 of 2. */
  lemma TwoStudentExample(ra: map<string, Cell>, rb: map<string, Cell>, counselor: Cell, month: string)
    requires HasRosterColumns(ra) && HasRosterColumns(rb)
    requires TagColumn in ra && TagColumn in rb && NameColumn in ra && NameColumn in rb
    requires ra[TagColumn] == Present("joao") && rb[TagColumn] == Present(" JOAO ")
    requires Normalize(ra[NameColumn]) != Normalize(rb[NameColumn])
    requires counselor == Present("joao")
    ensures var a := StudentOf(ra);
      var b := StudentOf(rb);
      var rec := RecordedNames([Entry(a.name, month)], month);
      && Assigned([a, b], counselor) == [a, b]
      && Pending([a, b], rec) == [b]
      && Progress([a, b], rec) == Tally(1, 2)
  {
    var a := StudentOf(ra);
    var b := StudentOf(rb);
    assert Lower(a.tag) == "joao" by {
      NormalizePlain(ra[TagColumn]);
      LowerWord(a.tag);
    }
    assert Lower(b.tag) == "joao" by {
      NormalizePadded(rb[TagColumn]);
      LowerWord(b.tag);
    }
    BothAssigned(a, b, counselor);
    FirstRecorded(a, b, month);
  }

  /** Two rows whose lowered tags are "joao" are both kept for counselor
      "joao", in order. */
  lemma BothAssigned(a: Student, b: Student, counselor: Cell)
    requires Lower(a.tag) == "joao" && Lower(b.tag) == "joao"
    requires counselor == Present("joao")
    ensures Assigned([a, b], counselor) == [a, b]
  {
    NormalizePlain(counselor);
    LowerWord(Normalize(counselor));
    var key := CounselorKey(counselor);
    assert key == "joao";
    FilterKeepsAll((s: Student) => AssignedTo(key, s), [a, b]);
  }

  /** With a record for the first of two differently named rows, only the
      second is pending and one of the two is filled. */
  lemma FirstRecorded(a: Student, b: Student, month: string)
    requires a.name != b.name
    ensures var rec := RecordedNames([Entry(a.name, month)], month);
      Pending([a, b], rec) == [b] && Progress([a, b], rec) == Tally(1, 2)
  {
    var h := [Entry(a.name, month)];
    var rec := RecordedNames(h, month);
    assert h[0].name == a.name && h[0].month == month;
    assert a.name in rec;
    assert rec == {a.name};
    FilterCons((s: Student) => s.name !in rec, a, [b]);
    FilterCons((s: Student) => s.name !in rec, b, []);
    FilterCons((s: Student) => s.name in rec, a, [b]);
    FilterCons((s: Student) => s.name in rec, b, []);
  }
}
