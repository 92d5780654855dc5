/** The response sheet and what the page derives from it: the students
    already recorded for the reference month, the pending roster rows, the
    progress counts, and the duplicate check
    (paginas/radar_saude_mental.py, lines 111-148 and 232-236). */
module History {
  import opened Wrappers
  import opened Text
  import opened Seqs
  import opened Tables
  import opened Roster

  /** The reference-month column of the response sheet. */
  const MonthColumn := "Mês referência"

  /** The fourteen response-sheet columns, in the order a record lists them. */
  const ResponseColumns: seq<string> := [
    "Data/Hora da resposta", NameColumn, "Colégio", "Ano", "Gênero", "Praça",
    "Cor/raça", "Orientador Responsável", "Progresso", "Comentário",
    "Ideação Suicida Identificada?", "Classificação", "Documentos", MonthColumn
  ]

  /** The table the page falls back to when the response sheet cannot be
      read: the canonical header and no rows. */
  const EmptyHistory := Table(ResponseColumns, [])

  /** The two normalised columns of one past response that the page uses. */
  datatype Entry = Entry(name: string, month: string)

  function EntriesOf(rows: seq<map<string, Cell>>): (r: seq<Entry>)
    requires forall i | 0 <= i < |rows| :: NameColumn in rows[i] && MonthColumn in rows[i]
    ensures |r| == |rows|
    ensures forall i | 0 <= i < |rows| ::
      r[i] == Entry(Normalize(rows[i][NameColumn]), Normalize(rows[i][MonthColumn]))
  {
    if rows == [] then []
    else
      var rest := EntriesOf(rows[1..]);
      assert forall i | 1 <= i < |rows| :: rest[i - 1] == Entry(Normalize(rows[i][NameColumn]), Normalize(rows[i][MonthColumn]));
      [Entry(Normalize(rows[0][NameColumn]), Normalize(rows[0][MonthColumn]))] + rest
  }

  /** Reading one more row adds one entry at the end. */
  lemma {:induction false} EntriesOfAppend(rows: seq<map<string, Cell>>, row: map<string, Cell>)
    requires forall i | 0 <= i < |rows| :: NameColumn in rows[i] && MonthColumn in rows[i]
    requires NameColumn in row && MonthColumn in row
    ensures EntriesOf(rows + [row]) == EntriesOf(rows) + [Entry(Normalize(row[NameColumn]), Normalize(row[MonthColumn]))]
  {
    if rows != [] {
      assert (rows + [row])[1..] == rows[1..] + [row];
      EntriesOfAppend(rows[1..], row);
    }
  }

  /** Loads the history. `None` as input is a sheet that could not be read,
      which degrades to `EmptyHistory`. A sheet that was read but lacks the
      name or the month column makes the lookup at line 129 fail (an
      uncaught `KeyError`), which is the `None` result. Otherwise one entry
      per row, in sheet order, with both columns normalised. */
  function LoadHistory(loaded: Option<Table>): (r: Option<seq<Entry>>)
    requires loaded.Some? ==> WellFormed(loaded.value)
    ensures loaded.None? ==> r == Some([])
    ensures loaded.Some? ==>
      (r.Some? <==> NameColumn in loaded.value.columns && MonthColumn in loaded.value.columns)
    ensures loaded.Some? && r.Some? ==> |r.value| == |loaded.value.rows|
    ensures loaded.Some? && r.Some? ==> forall i | 0 <= i < |loaded.value.rows| ::
      r.value[i].name == Normalize(loaded.value.rows[i][NameColumn]) &&
      r.value[i].month == Normalize(loaded.value.rows[i][MonthColumn])
  {
    var t := if loaded.None? then EmptyHistory else loaded.value;
    if NameColumn in t.columns && MonthColumn in t.columns then Some(EntriesOf(t.rows))
    else None
  }

  /** `respondidos_mes`: the distinct names recorded under `month`. */
  function RecordedNames(h: seq<Entry>, month: string): (r: set<string>)
    ensures forall i | 0 <= i < |h| && h[i].month == month :: h[i].name in r
    ensures forall n | n in r :: exists i | 0 <= i < |h| :: h[i].name == n && h[i].month == month
  {
    set i | 0 <= i < |h| && h[i].month == month :: h[i].name
  }

  /** Appending an entry for `month` adds its name to the recorded set and
      nothing else. */
  lemma RecordedAfterAppend(h: seq<Entry>, name: string, month: string)
    ensures RecordedNames(h + [Entry(name, month)], month) == RecordedNames(h, month) + {name}
  {
    var h2 := h + [Entry(name, month)];
    var rec := RecordedNames(h, month);
    var rec2 := RecordedNames(h2, month);
    assert h2[|h|] == Entry(name, month);
    forall n | n in rec2 ensures n in rec + {name} {
      var i :| 0 <= i < |h2| && h2[i].name == n && h2[i].month == month;
      if i < |h| { assert h[i] == h2[i]; }
    }
    forall n | n in rec ensures n in rec2 {
      var i :| 0 <= i < |h| && h[i].name == n && h[i].month == month;
      assert h2[i] == h[i];
    }
  }

  /** The assigned students whose name has not been recorded: an
      order-preserving subsequence of the assigned rows, none of them
      recorded. */
  function Pending(students: seq<Student>, recorded: set<string>): (r: seq<Student>)
    ensures IsSubsequence(r, students)
    ensures forall i | 0 <= i < |r| :: r[i].name !in recorded
  {
    Filter((s: Student) => s.name !in recorded, students)
  }

  /** A roster row is pending exactly when it is assigned and no history
      entry for the month carries its name; it stays as often as it is
      assigned (duplicate roster rows are kept and counted separately). */
  lemma PendingExactly(students: seq<Student>, h: seq<Entry>, month: string)
    ensures forall s :: (multiset(Pending(students, RecordedNames(h, month)))[s] ==
      if exists i | 0 <= i < |h| :: h[i].name == s.name && h[i].month == month then 0
      else multiset(students)[s])
  {
    var rec := RecordedNames(h, month);
    FilterMultiset((s: Student) => s.name !in rec, students);
  }

  /** Nothing is pending exactly when every assigned name is recorded. */
  lemma PendingEmpty(students: seq<Student>, recorded: set<string>)
    ensures Pending(students, recorded) == [] <==> forall i | 0 <= i < |students| :: students[i].name in recorded
  {
    FilterEmpty((s: Student) => s.name !in recorded, students);
  }

  /** The progress counter: `filled` of `total` assigned rows. */
  datatype Tally = Tally(filled: nat, total: nat)

  /** `preenchidos = total_atribuido - len(pendentes)` (line 136). The
      filled count is the number of assigned rows whose name is recorded,
      so duplicates of a roster row are counted once each, and filled and
      pending rows together make up the total. */
  function Progress(students: seq<Student>, recorded: set<string>): (t: Tally)
    ensures t.total == |students|
    ensures t.filled == |Filter((s: Student) => s.name in recorded, students)|
    ensures t.filled + |Pending(students, recorded)| == t.total
  {
    var pending := Pending(students, recorded);
    FilterPartition((s: Student) => s.name in recorded, (s: Student) => s.name !in recorded, students);
    Tally(|students| - |pending|, |students|)
  }

  /** The duplicate check (lines 232-236): false on an empty history, and
      otherwise true exactly when some entry has the name and the month, so
      it agrees with membership in the recorded set. */
  function DuplicateExists(h: seq<Entry>, name: string, month: string): (r: bool)
    ensures r <==> name in RecordedNames(h, month)
  {
    if h == [] then false
    else exists i | 0 <= i < |h| :: h[i].name == name && h[i].month == month
  }

  /** A pending student never trips the duplicate check against the
      snapshot the pending list was computed from. */
  lemma PendingNeverDuplicate(students: seq<Student>, h: seq<Entry>, month: string, s: Student)
    requires s in Pending(students, RecordedNames(h, month))
    ensures !DuplicateExists(h, s.name, month)
  {
    var rec := RecordedNames(h, month);
    FilterMembership((s: Student) => s.name !in rec, students, s);
  }
}
