/** Spreadsheet snapshots as the page sees them after loading: a header of
    column names and rows keyed by column name, each cell either missing
    (pandas NA/NaN) or present with its `str()` text. */
module Tables {
  import opened Text
  import opened Seqs

  /** One cell: `Missing` is what `pd.isna` recognises; `Present` carries the
      text `str(x)` gives for any other value. */
  datatype Cell = Missing | Present(text: string)

  /** A loaded sheet. */
  datatype Table = Table(columns: seq<string>, rows: seq<map<string, Cell>>)

  /** Every row has a cell under every column, as in a pandas DataFrame. */
  predicate WellFormed(t: Table) {
    forall i, c | 0 <= i < |t.rows| && c in t.columns :: c in t.rows[i]
  }

  /** `normaliza_str` (lines 43-46): a missing cell becomes "", any other
      cell its text with surrounding whitespace removed. The result never
      has whitespace at either end. */
  function Normalize(c: Cell): (r: string)
    ensures Trimmed(r)
    ensures c.Missing? ==> r == ""
    ensures c.Present? ==> r == Strip(c.text)
  {
    match c
    case Missing => ""
    case Present(x) => Strip(x)
  }

  /** Normalising an already normalised value changes nothing, so the
      page's repeated normalisation of the same column is harmless. */
  lemma NormalizeIdempotent(c: Cell)
    ensures Normalize(Present(Normalize(c))) == Normalize(c)
  {
    StripTrimmed(Normalize(c));
  }

  /** A cell normalises to "" exactly when it is missing or all whitespace. */
  lemma NormalizeBlank(c: Cell)
    ensures Normalize(c) == "" <==> c.Missing? || AllSpace(c.text)
  {
    if c.Present? {
      StripEmpty(c.text);
    }
  }

  /** The required columns absent from a header, in the order they are
      required: exactly those absent, each once per requirement, none
      present; empty exactly when all are present. */
  function MissingColumns(required: seq<string>, columns: seq<string>): (r: seq<string>)
    ensures IsSubsequence(r, required)
    ensures forall c :: c in r <==> c in required && c !in columns
    ensures r == [] <==> forall i | 0 <= i < |required| :: required[i] in columns
  {
    var r := Filter(c => c !in columns, required);
    forall c ensures c in r <==> c in required && c !in columns {
      FilterMembership(c => c !in columns, required, c);
    }
    FilterEmpty(c => c !in columns, required);
    r
  }
}
