# Mental-health radar: monthly follow-up form, modelled in Dafny

The page `paginas/radar_saude_mental.py` lets a counselor ("orientadora") file
one mental-health follow-up record per assigned student per month. On each
load it does the following:

1. It computes the reference month, which is the month before the current one, as `YYYY-MM`.
2. It reads the roster sheet and checks its eight required columns.
3. It normalises every roster cell and keeps the rows whose counselor tag matches the logged-in counselor. The match ignores case and surrounding whitespace.
4. It reads the response sheet and collects the students already recorded for the reference month.
5. It shows the rest as pending, with a filled/total counter.

On submit it checks the four required answers and looks for a duplicate in the
loaded snapshot. It then builds the 14-column record and hands it to the
writer.

The model is a set of pure functions over immutable records and sequences.
Each module follows one step of the page:

- `Seqs`: order-preserving filtering. The missing-column check (line 82),
  the counselor mask (line 96) and the pending mask (line 134) are modelled
  with it.
- `Text`: Python's `str.strip()` (on exactly the code points `str.isspace()`
  accepts), `str.lower()` for ASCII and Latin-1, and decimal rendering and
  parsing.
- `Calendar`: `mes_referencia_anterior_str` and a structured year/month with
  `Format`/`Parse`.
- `Tables`: cells (missing or present), loaded sheets, `normaliza_str` and the
  missing-column check.
- `Roster`: the roster schema, the loaded and normalised roster, and the
  counselor filter.
- `History`: the response-sheet schema, the loaded history, the recorded set,
  the pending rows, the counts and the duplicate check.
- `Answers`: the three answer enumerations and their exact labels.
- `Checklist`: the form as submitted and the required-field check.
- `Submission`: the record with its column/value serialisation.
- `Page`: one page load and one pass through the selection box and the form,
  with their halting outcomes.

Inputs the page gets from outside are parameters:

- the loaded sheets, or `None` for a read that raised;
- the login value;
- the current year and month;
- the formatted timestamp;
- the selection, the form values and the submit button;
- the writer's boolean verdict.

Three places where the code's own text suggests more than the code does.
The model follows the code in each:

- The `ZeroDivisionError` fallback at lines 139-140 shows "Sem alunos
  atribuídos", so the page seems meant to report an empty counter when
  nothing is assigned. But the page already halts at line 100 when
  `total_atribuido == 0`, so that branch can never run. `Page.Load` states
  that every session that shows a counter has a positive total.
- The comment at line 115 says the empty fallback is for a response sheet
  that "ainda não existe ou está vazia" (does not exist yet or is empty). Only
  an exception inside `ler_roster` reaches that fallback. If a sheet is read
  but has no `Nome + RA dx alunx` or `Mês referência` column, the lookup at
  line 129 raises an uncaught `KeyError`. This is modelled as the
  `HistoryColumnMissing` halt.
- The comment at line 231 calls the duplicate check defensive ("defensiva").
  Against the snapshot the page itself loaded, the check can never fire,
  because the chosen student was taken from the pending list
  (`Page.DuplicateUnreachable`). It can only matter against writes by other
  sessions, which a single snapshot does not show.

## Model

| member | source | states |
|---|---|---|
| `Calendar.ReferenceMonth` | paginas/radar_saude_mental.py:35-41 | The text reads back (via `Parse`) as the calendar month whose successor is the current (year, month). It ends in `-MM` with MM in 01..12, and it has no surrounding whitespace. |
| `Calendar.FormatRoundTrip` | paginas/radar_saude_mental.py:40-41 | Reading a formatted month gives the month back. The year is unpadded decimal and the month is two zero-padded digits. |
| `Calendar.FormatInjective` | paginas/radar_saude_mental.py:40-41 | Two months have the same text exactly when they are the same month. |
| `Calendar.ReferenceMonthInjective` | paginas/radar_saude_mental.py:35-41 | Two different current months never share a reference month, December-to-January included. |
| `Calendar.ReferenceMonthCases` | paginas/radar_saude_mental.py:39-41 | January gives December of the previous year. Any other month gives the previous month of the same year. |
| `Text.DecimalRoundTrip` | paginas/radar_saude_mental.py:40-41 | Rendering a non-negative year as `str` and reading it back gives the year. |
| `Text.Strip` | paginas/radar_saude_mental.py:46 | The result has no whitespace at either end. |
| `Text.StripInfix` | paginas/radar_saude_mental.py:46 | The result is the input with only a whitespace prefix and a whitespace suffix removed. |
| `Text.StripIdempotent` | paginas/radar_saude_mental.py:46 | Stripping twice equals stripping once. |
| `Text.StripEmpty` | paginas/radar_saude_mental.py:223 | A string strips to "" exactly when it is all whitespace, so a whitespace-only comment counts as empty. |
| `Text.Lower` | paginas/radar_saude_mental.py:93-94 | Lowering keeps the length and maps each character on its own. |
| `Text.LowerStripCommute` | paginas/radar_saude_mental.py:93-94 | Stripping then lowering equals lowering then stripping. |
| `Tables.Normalize` | paginas/radar_saude_mental.py:43-46 | A missing cell becomes "". A present cell becomes its text with surrounding whitespace stripped. Any result has no surrounding whitespace. |
| `Tables.NormalizeIdempotent` | paginas/radar_saude_mental.py:43-46 | Normalising a normalised value changes nothing. |
| `Tables.NormalizeBlank` | paginas/radar_saude_mental.py:43-46 | A cell normalises to "" exactly when it is missing or all whitespace. |
| `Tables.MissingColumns` | paginas/radar_saude_mental.py:82 | The result holds exactly the required columns absent from the header, in declared order. It is empty exactly when all are present. |
| `Roster.LoadRoster` | paginas/radar_saude_mental.py:82-90 | It fails, listing the missing columns, exactly when one of the eight is absent. Otherwise it yields one normalised student per sheet row, in order. |
| `Roster.Assigned` | paginas/radar_saude_mental.py:93-96 | The result is an order-preserving subsequence of the roster, and every kept row's lowered tag equals the counselor key. |
| `Roster.AssignedExactly` | paginas/radar_saude_mental.py:96-98 | A row is kept exactly as often as it occurs in the roster when its tag matches, and never otherwise. Duplicate rows are counted. |
| `Roster.AssignedRaw` | paginas/radar_saude_mental.py:93-96 | A row matches exactly when its stripped and lowered raw tag equals the stripped and lowered login value. |
| `Roster.AssignedIgnoresCaseAndSpace` | paginas/radar_saude_mental.py:93-96 | The tag " JOAO " matches the counselor "joao". |
| `Roster.MissingCounselorTakesBlankTags` | paginas/radar_saude_mental.py:93-96 | A missing login value matches exactly the rows with a blank tag. |
| `History.LoadHistory` | paginas/radar_saude_mental.py:111-129 | An unreadable sheet gives no entries. A sheet without the name or month column fails. Otherwise there is one normalised entry per row. |
| `History.RecordedNames` | paginas/radar_saude_mental.py:128-130 | The set contains the name of every entry for the month, and only such names. |
| `History.Pending` | paginas/radar_saude_mental.py:133-134 | The result is an order-preserving subsequence of the assigned rows, none of them recorded. |
| `History.PendingExactly` | paginas/radar_saude_mental.py:128-134 | A row stays pending, as often as it is assigned, exactly when no entry for the month carries its name. |
| `History.PendingEmpty` | paginas/radar_saude_mental.py:142 | Nothing is pending exactly when every assigned name is recorded. |
| `History.Progress` | paginas/radar_saude_mental.py:136 | The total is the number of assigned rows. The filled count is the number of assigned rows whose name is recorded, duplicates counted. Filled plus pending rows make up the total. |
| `History.DuplicateExists` | paginas/radar_saude_mental.py:232-236 | It is true exactly when the name is in the recorded set for the month, so an empty history gives false. |
| `History.PendingNeverDuplicate` | paginas/radar_saude_mental.py:232-236 | A pending student never trips the duplicate check on the same snapshot. |
| `History.RecordedAfterAppend` | paginas/radar_saude_mental.py:128-130 | Appending an entry for the month adds exactly its name to the recorded set. |
| `Answers.LabelsRoundTrip` | paginas/radar_saude_mental.py:22-33 | Each answer is stored as one of the form's option strings and reads back as itself. |
| `Checklist.MissingFields` | paginas/radar_saude_mental.py:221-225 | Each of the four fields is listed exactly when it is blank: no radio choice, or a comment that strips to "". |
| `Checklist.MissingFieldsNone` | paginas/radar_saude_mental.py:221-229 | The list is empty exactly when all three choices are made and the comment has a non-whitespace character. |
| `Checklist.MissingFieldsInOrder` | paginas/radar_saude_mental.py:221-225 | The list is the blank required fields in the order Progresso, Comentário, Ideação, Classificação. |
| `Submission.DocumentsText` | paginas/radar_saude_mental.py:257 | The stored links are the stripped input, and "" when none were given. |
| `Submission.BuildResponse` | paginas/radar_saude_mental.py:243-259 | The seven student fields are copied from the roster row. The comment is stored stripped, and the links through `DocumentsText`. The three answers, the timestamp and the month are stored as given. |
| `Submission.Serialize` | paginas/radar_saude_mental.py:244-259 | The row's keys are exactly the 14 response columns, in sheet order. |
| `Submission.ColumnsDistinct` | paginas/radar_saude_mental.py:116-120 | The 14 column names are pairwise distinct. |
| `Submission.SerializeRoundTrip` | paginas/radar_saude_mental.py:244-259 | Reading a serialised row back gives the record, so no field is lost or confused. |
| `Submission.SerializeLookup` | paginas/radar_saude_mental.py:246-258 | The name and the reference month are stored under their own columns. |
| `Page.Load` | paginas/radar_saude_mental.py:63-148 | Halts listing the missing columns exactly when one is absent. Halts with no students exactly when the roster loads and nothing matches. Halts on the history lookup exactly when the counselor has rows and the sheet lacks a needed column. Halts as all recorded exactly when, past those checks, every assigned name is recorded for the reference month, with the `Progress` tally and 0 < total = filled. Otherwise it returns a session with the reference month, the counselor's rows, the loaded history, at least one pending row and 0 ≤ filled < total. |
| `Page.Survey` | paginas/radar_saude_mental.py:131-148 | Halts as all recorded exactly when every assigned name is recorded for the month, with the `Progress` tally. Otherwise it gives a consistent session on the same rows, history and month, with 0 ≤ filled < total. |
| `Page.LoadPage` | paginas/radar_saude_mental.py:72-79 | An unreadable roster halts first. A readable one never gives that halt. |
| `Page.Chosen` | paginas/radar_saude_mental.py:166 | The chosen row is the first pending row with the selected name. |
| `Page.Submit` | paginas/radar_saude_mental.py:163-266 | No choice (or "") stops the flow; before submit the form is shown for the chosen row, the first pending row with that name; blank required fields give exactly `MissingFields` and no record; a record is built only for a complete form and no duplicate, and it is `BuildResponse` applied to the chosen row (the first pending row with that name), the answers, the non-empty stripped comment, the stripped links and the session month; the duplicate halt needs a submitted, complete form; the writer's verdict picks saved or not saved. |
| `Page.DuplicateUnreachable` | paginas/radar_saude_mental.py:232-240 | On a session the load produced, the duplicate branch is never taken. |
| `Page.LoadAfterAppend` | paginas/radar_saude_mental.py:111-129 | Re-reading the sheet after the append gives the old entries plus the written name and month, unchanged by normalisation. |
| `Page.SavedStudentLeavesPending` | paginas/radar_saude_mental.py:261-264 | After a save and refresh, the student is no longer pending and the filled count has risen. This holds whether the page halts as all recorded or offers others. |
| `Page.TwoStudentExample` | paginas/radar_saude_mental.py:93-138 | Raw roster rows with tag cells "joao" and " JOAO " both load into students assigned to "joao". With the first recorded, only the second is pending and the counter is 1 of 2. |

## Left out

- Login lookup (lines 51-58): the counselor is an input cell. A failed lookup
  is the page's own fatal error and is not modelled.
- Clock and timezone (lines 15, 63, 243-245): the current year and month are
  inputs. The `strftime` timestamp is an opaque string.
- Spreadsheet reading and writing: `ler_roster`, `ler_sheets_cache` and
  `registrar_saude_mental` live in `paginas/funcoes`, which is not part of this
  model.
  - Loaded sheets are inputs, and a read that raised is `None`.
  - The writer's result is a boolean input.
  - `Page.Append` stands for the sheet after a write. It stores each value
    under the matching header, verbatim. Any coercion the spreadsheet applies
    (a `2025-08` turned into a date, say) is not modelled.
- Streamlit rendering, `st.stop`, `st.rerun`, the expander with student details
  (lines 168-177) and the widgets: their effects appear as `Halt` and
  `Outcome` values, and the selection box as an optional name.
- The floating-point progress ratio (line 138): only the integer counts are
  modelled.
- Concurrency: other sessions writing between this load and this submit are
  out of scope. The duplicate check is against the loaded snapshot only.
- `str(x)` on non-string cells: a present cell carries its text as given.
- `Text.Lower`: covers ASCII and Latin-1 upper-case letters only (enough for
  Portuguese names), because full Unicode case mapping, with multi-character
  results and other scripts, is a table this model does not carry. Whitespace
  follows `str.isspace()` exactly.
- Option-list membership of the radio answers: the answers are typed
  enumerations, so an answer outside the lists cannot be expressed. Like the
  page, validation checks presence only.
- The "up to 5 links" hint for documents: neither the page nor the model
  enforces it.
