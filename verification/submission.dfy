/** The fourteen-column record built from a valid submission and the row
    the writer appends (paginas/radar_saude_mental.py, lines 243-259). */
module Submission {
  import opened Wrappers
  import opened Text
  import opened Roster
  import opened History
  import opened Answers

  /** The record appended to the response sheet: the submission time, the
      seven student fields copied from the roster row (every field but the
      routing tag), the four answers, the document links and the reference
      month. */
  datatype Response = Response(
    timestamp: string,
    name: string, school: string, grade: string, gender: string,
    region: string, race: string, responsible: string,
    progress: ProgressStatus, comment: string, ideation: Ideation, tier: Tier,
    documents: string, month: string)

  /** The stored document links: "" when none were given, otherwise the
      text stripped (line 257). */
  function DocumentsText(links: string): (r: string)
    ensures r == Strip(links)
  {
    if links == "" then "" else Strip(links)
  }

  /** `linha` (lines 243-259). The comment and the links are stripped; the
      student fields and the month are stored as given. */
  function BuildResponse(
    timestamp: string, s: Student, progress: ProgressStatus, comment: string,
    ideation: Ideation, tier: Tier, links: string, month: string): (r: Response)
    ensures Trimmed(r.comment) && Trimmed(r.documents)
    ensures r.comment == Strip(comment) && r.documents == DocumentsText(links)
    ensures r.progress == progress && r.ideation == ideation && r.tier == tier
    ensures r.month == month && r.timestamp == timestamp
    ensures (r.name, r.school, r.grade, r.gender, r.region, r.race, r.responsible)
         == (s.name, s.school, s.grade, s.gender, s.region, s.race, s.responsible)
  {
    Response(timestamp, s.name, s.school, s.grade, s.gender, s.region, s.race, s.responsible,
             progress, Strip(comment), ideation, tier, DocumentsText(links), month)
  }

  /** The row as the writer receives it: a Python dict, here its
      (column, text) pairs in insertion order. The keys are exactly the
      fourteen response columns, in the sheet's column order, and each
      answer is stored as its option label. */
  function Serialize(r: Response): (row: seq<(string, string)>)
    ensures |row| == |ResponseColumns|
    ensures forall k | 0 <= k < |row| :: row[k].0 == ResponseColumns[k]
  {
    var values := [
      r.timestamp, r.name, r.school, r.grade, r.gender, r.region, r.race, r.responsible,
      r.progress.Label(), r.comment, r.ideation.Label(), r.tier.Label(), r.documents, r.month];
    seq(|ResponseColumns|, k requires 0 <= k < |ResponseColumns| => (ResponseColumns[k], values[k]))
  }

  /** The response columns are pairwise distinct, so the dict has no
      repeated key. */
  lemma ColumnsDistinct()
    ensures forall i, j | 0 <= i < j < |ResponseColumns| :: ResponseColumns[i] != ResponseColumns[j]
  {
    forall i, j | 0 <= i < j < |ResponseColumns| ensures ResponseColumns[i] != ResponseColumns[j] {
      if i == 9 && j == 12 {
        assert ResponseColumns[i][0] != ResponseColumns[j][0];
      } else {
        assert |ResponseColumns[i]| != |ResponseColumns[j]|;
      }
    }
  }

  /** The value stored under `key`: the first pair with that key. */
  function Lookup(row: seq<(string, string)>, key: string): Option<string> {
    if row == [] then None
    else if row[0].0 == key then Some(row[0].1)
    else Lookup(row[1..], key)
  }

  /** Reads a stored row back; `None` if the keys are not the response
      columns in order, or an answer is not one of the options. */
  function Deserialize(row: seq<(string, string)>): Option<Response> {
    if |row| != |ResponseColumns| || exists k | 0 <= k < |row| :: row[k].0 != ResponseColumns[k] then None
    else
      match (ParseProgress(row[8].1), ParseIdeation(row[10].1), ParseTier(row[11].1))
      case (Some(p), Some(i), Some(t)) =>
        Some(Response(
          row[0].1, row[1].1, row[2].1, row[3].1, row[4].1, row[5].1, row[6].1, row[7].1,
          p, row[9].1, i, t, row[12].1, row[13].1))
      case _ => None
  }

  /** Every field of a record survives the trip to the sheet and back: the
      stored row loses nothing and confuses no two answers. */
  lemma SerializeRoundTrip(r: Response)
    ensures Deserialize(Serialize(r)) == Some(r)
  {
    LabelsRoundTrip(r.progress, r.ideation, r.tier);
  }

  /** The student name and the month are found under their columns. */
  lemma SerializeLookup(r: Response)
    ensures Lookup(Serialize(r), NameColumn) == Some(r.name)
    ensures Lookup(Serialize(r), MonthColumn) == Some(r.month)
  {
    var row := Serialize(r);
    ColumnsDistinct();
    LookupAt(row, 1);
    LookupAt(row, 13);
  }

  /** In a row with distinct keys, looking up the key at position `k` finds
      the value at `k`. */
  lemma {:induction false} LookupAt(row: seq<(string, string)>, k: nat)
    requires k < |row|
    requires forall i | 0 <= i < k :: row[i].0 != row[k].0
    ensures Lookup(row, row[k].0) == Some(row[k].1)
  {
    if k > 0 {
      LookupAt(row[1..], k - 1);
    }
  }
}
