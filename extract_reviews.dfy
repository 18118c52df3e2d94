/** The extraction step of `extract_reviews`: validate the column contract
    against the sheet, keep and rename the contract columns, turn empty cells
    into nulls, drop incomplete rows and gather the five feedback lists.

    A sheet row is a map from column name to cell text. The contract is the
    column-keys JSON object as an ordered list of (source column, canonical
    name) pairs. The table stages mirror the pandas frames of the source:
    a header plus rows of cells aligned with it. */
module ExtractReviews {
  import opened Sequences

  type Row = map<string, string>

  /** (source column, canonical name) pairs, in the JSON object's order. */
  type Contract = seq<(string, string)>

  /** What loading the column-keys file produced. */
  datatype ContractFile =
    | Missing                   // the file does not exist
    | NotAnObject               // the file holds JSON that is not an object
    | Object(pairs: Contract)   // the file holds a JSON object

  /** A frame cell: a text value or pandas' missing value. */
  datatype Cell = Null | Text(value: string)

  datatype Table = Table(header: seq<string>, rows: seq<seq<Cell>>)

  /** The five lists of `structured_json`. */
  datatype Bundle = Bundle(
    engineerFeedback: seq<string>,
    programLikings: seq<string>,
    topicsLearned: seq<string>,
    programImprovements: seq<string>,
    engineerImprovements: seq<string>)

  /** The exception that the handler turns into its single error response. */
  datatype Cause =
    | KeyFileNotFound    // the 404 for a missing key file
    | KeysMismatch       // the 400 for a contract column missing from the frame
    | ContractNotObject  // the loaded JSON is not an object, so `dict(...)` or `.values()` fails

  datatype Outcome = Saved(bundle: Bundle) | Failed(cause: Cause)

  const EngineerFeedback := "engineer_feedback"
  const ProgramLikings := "program_likings"
  const TopicsLearned := "topics_learned"
  const ProgramImprovements := "program_improvements"
  const EngineerImprovements := "engineer_improvements"

  function Sources(c: Contract): (names: seq<string>)
    ensures |names| == |c| && forall k :: 0 <= k < |c| ==> names[k] == c[k].0
  {
    seq(|c|, k requires 0 <= k < |c| => c[k].0)
  }

  function Canonicals(c: Contract): (names: seq<string>)
    ensures |names| == |c| && forall k :: 0 <= k < |c| ==> names[k] == c[k].1
  {
    seq(|c|, k requires 0 <= k < |c| => c[k].1)
  }

  /** A JSON object has distinct keys; the model also takes the canonical
      names to be distinct. */
  predicate Injective(c: Contract) {
    Distinct(Sources(c)) && Distinct(Canonicals(c))
  }

  // ---------------------------------------------------------------------------
  // The frame stages
  // ---------------------------------------------------------------------------

  /** `df.columns`: every column name that occurs in some row. */
  function Columns(sheet: seq<Row>): (cols: set<string>)
    ensures forall name :: name in cols <==> exists i :: 0 <= i < |sheet| && name in sheet[i]
  {
    if sheet == [] then {}
    else
      assert forall i :: 0 < i < |sheet| ==> sheet[1..][i - 1] == sheet[i];
      sheet[0].Keys + Columns(sheet[1..])
  }

  /** The key check: every source column of the contract is among the frame's
      columns. */
  function ValidateContract(c: Contract, columns: set<string>): (ok: bool)
    ensures ok <==> forall k :: 0 <= k < |c| ==> c[k].0 in columns
  {
    if c == [] then true
    else
      assert forall k :: 0 < k < |c| ==> c[1..][k - 1] == c[k];
      c[0].0 in columns && ValidateContract(c[1..], columns)
  }

  /** One row of `df[keys]`: the contract columns in contract order; a row that
      lacks a column the sheet has elsewhere gets a missing value there. */
  function ProjectRow(c: Contract, r: Row): (cells: seq<Cell>)
    ensures |cells| == |c|
    ensures forall k :: 0 <= k < |c| ==> (cells[k] == Null <==> c[k].0 !in r)
    ensures forall k :: 0 <= k < |c| && c[k].0 in r ==> cells[k] == Text(r[c[k].0])
  {
    seq(|c|, k requires 0 <= k < |c| => if c[k].0 in r then Text(r[c[k].0]) else Null)
  }

  function ProjectRows(c: Contract, sheet: seq<Row>): (rows: seq<seq<Cell>>)
    ensures |rows| == |sheet|
    ensures forall i :: 0 <= i < |sheet| ==> rows[i] == ProjectRow(c, sheet[i])
  {
    if sheet == [] then [] else [ProjectRow(c, sheet[0])] + ProjectRows(c, sheet[1..])
  }

  /** `df[keys]`: only the contract's source columns, in contract order. */
  function Project(c: Contract, sheet: seq<Row>): (t: Table)
    ensures t.header == Sources(c)
    ensures |t.rows| == |sheet|
    ensures forall i :: 0 <= i < |sheet| ==> t.rows[i] == ProjectRow(c, sheet[i])
  {
    Table(Sources(c), ProjectRows(c, sheet))
  }

  /** The new label of a column under `rename(columns=dict(json_data))`: the
      canonical name paired with it, or the label itself when unpaired. */
  function RenameColumn(c: Contract, name: string): (r: string)
    ensures (exists k :: 0 <= k < |c| && c[k].0 == name) || r == name
  {
    if c == [] then name
    else if c[0].0 == name then c[0].1
    else RenameColumn(c[1..], name)
  }

  /** With distinct sources, the k-th source is renamed to the k-th canonical name. */
  lemma {:induction false} RenameSource(c: Contract, k: nat)
    requires Distinct(Sources(c)) && k < |c|
    ensures RenameColumn(c, c[k].0) == c[k].1
  {
    if k > 0 {
      assert Sources(c)[0] != Sources(c)[k];
      assert Distinct(Sources(c[1..])) by {
        forall i, j | 0 <= i < j < |c| - 1 ensures Sources(c[1..])[i] != Sources(c[1..])[j] {
          assert Sources(c)[i + 1] != Sources(c)[j + 1];
        }
      }
      RenameSource(c[1..], k - 1);
    }
  }

  /** Relabels the header; the cells are untouched. */
  function Rename(c: Contract, t: Table): (t': Table)
    ensures |t'.header| == |t.header| && t'.rows == t.rows
    ensures forall k :: 0 <= k < |t.header| ==> t'.header[k] == RenameColumn(c, t.header[k])
  {
    Table(seq(|t.header|, k requires 0 <= k < |t.header| => RenameColumn(c, t.header[k])), t.rows)
  }

  /** After projecting and renaming, the header is exactly the canonical names
      in contract order; every other sheet column is gone. */
  lemma RenamedHeader(c: Contract, sheet: seq<Row>)
    requires Distinct(Sources(c))
    ensures Rename(c, Project(c, sheet)).header == Canonicals(c)
    ensures forall r :: r in Rename(c, Project(c, sheet)).rows ==> |r| == |c|
  {
    forall k | 0 <= k < |c| ensures Rename(c, Project(c, sheet)).header[k] == Canonicals(c)[k] {
      RenameSource(c, k);
    }
  }

  /** `replace("", pd.NA)` on one cell: only the exact empty string becomes
      missing. */
  function ReplaceCell(cell: Cell): Cell {
    if cell == Text("") then Null else cell
  }

  function ReplaceEmptyRow(row: seq<Cell>): (row': seq<Cell>)
    ensures |row'| == |row|
    ensures forall k :: 0 <= k < |row| ==> row'[k] == ReplaceCell(row[k])
  {
    seq(|row|, k requires 0 <= k < |row| => ReplaceCell(row[k]))
  }

  function ReplaceEmptyRows(rows: seq<seq<Cell>>): (rows': seq<seq<Cell>>)
    ensures |rows'| == |rows|
    ensures forall i :: 0 <= i < |rows| ==> rows'[i] == ReplaceEmptyRow(rows[i])
  {
    if rows == [] then [] else [ReplaceEmptyRow(rows[0])] + ReplaceEmptyRows(rows[1..])
  }

  /** The in-place replacement of empty strings by pandas' missing value: the
      frame with every empty-string cell nulled and all else as it was. */
  function ReplaceEmpty(t: Table): (t': Table)
    ensures t'.header == t.header && |t'.rows| == |t.rows|
    ensures forall i, k :: 0 <= i < |t.rows| && 0 <= k < |t.rows[i]| ==>
      |t'.rows[i]| == |t.rows[i]| && t'.rows[i][k] != Text("") &&
      (t.rows[i][k] == Text("") ==> t'.rows[i][k] == Null) &&
      (t.rows[i][k] != Text("") ==> t'.rows[i][k] == t.rows[i][k])
  {
    Table(t.header, ReplaceEmptyRows(t.rows))
  }

  predicate RowHasNoNull(row: seq<Cell>) {
    forall k :: 0 <= k < |row| ==> row[k] != Null
  }

  /** The kept rows of `dropna`, in their original order: every complete row
      as often as it occurs, and no other. */
  function KeepComplete(rows: seq<seq<Cell>>): (kept: seq<seq<Cell>>)
    ensures |kept| <= |rows|
    ensures forall r :: r in kept <==> r in rows && RowHasNoNull(r)
    ensures forall r :: multiset(kept)[r] == if RowHasNoNull(r) then multiset(rows)[r] else 0
  {
    if rows == [] then []
    else
      assert rows == [rows[0]] + rows[1..];
      assert multiset(rows) == multiset{rows[0]} + multiset(rows[1..]);
      if RowHasNoNull(rows[0]) then [rows[0]] + KeepComplete(rows[1..])
      else KeepComplete(rows[1..])
  }

  /** Dropping works row by row and keeps order: the rows kept from a
      concatenation are the rows kept from each part, in turn. */
  lemma {:induction false} KeepCompleteAppend(a: seq<seq<Cell>>, b: seq<seq<Cell>>)
    ensures KeepComplete(a + b) == KeepComplete(a) + KeepComplete(b)
  {
    if a == [] {
      assert a + b == b;
    } else {
      assert (a + b)[0] == a[0] && (a + b)[1..] == a[1..] + b;
      KeepCompleteAppend(a[1..], b);
    }
  }

  /** `dropna` over the canonical names; they are every column of the renamed
      frame, so a row goes when any of its cells is missing. */
  function DropIncomplete(t: Table): (t': Table)
    ensures t'.header == t.header
    ensures forall r :: r in t'.rows <==> r in t.rows && RowHasNoNull(r)
    ensures forall r :: multiset(t'.rows)[r] == if RowHasNoNull(r) then multiset(t.rows)[r] else 0
  {
    Table(t.header, KeepComplete(t.rows))
  }

  /** The cleaning chain, from `df[keys]` to `cleaned_df`. The result is
      aligned with its header and holds no missing value; its rows are the
      surviving records projected onto the contract, in sheet order; with
      distinct source columns its header is the canonical names. */
  function Clean(c: Contract, sheet: seq<Row>): (t: Table)
    ensures Aligned(t) && NoNull(t)
    ensures t.rows == ProjectRows(c, Survivors(c, sheet))
    ensures Distinct(Sources(c)) ==> t.header == Canonicals(c)
  {
    CleanRows(c, sheet);
    var t := DropIncomplete(ReplaceEmpty(Rename(c, Project(c, sheet))));
    assert NoNull(t) by {
      forall i | 0 <= i < |t.rows| ensures RowHasNoNull(t.rows[i]) {
        assert t.rows[i] in t.rows;
      }
    }
    assert Distinct(Sources(c)) ==> t.header == Canonicals(c) by {
      if Distinct(Sources(c)) {
        RenamedHeader(c, sheet);
      }
    }
    t
  }

  /** `cleaned_df[name].tolist()` for the column at position k. */
  function ColumnAt(rows: seq<seq<Cell>>, k: nat): (values: seq<string>)
    requires forall i :: 0 <= i < |rows| ==> k < |rows[i]| && rows[i][k].Text?
    ensures |values| == |rows|
    ensures forall i :: 0 <= i < |rows| ==> Text(values[i]) == rows[i][k]
  {
    if rows == [] then [] else [rows[0][k].value] + ColumnAt(rows[1..], k)
  }

  predicate Aligned(t: Table) {
    forall i :: 0 <= i < |t.rows| ==> |t.rows[i]| == |t.header|
  }

  predicate NoNull(t: Table) {
    forall i :: 0 <= i < |t.rows| ==> RowHasNoNull(t.rows[i])
  }

  /** `values` is what the frame gives for `name`: the text of the first
      column so labelled, row by row, or [] when no column has the label. */
  predicate IsColumn(t: Table, name: string, values: seq<string>) {
    && (name !in t.header ==> values == [])
    && (name in t.header ==>
          |values| == |t.rows| &&
          forall i :: 0 <= i < |t.rows| ==>
            FirstIndex(t.header, name) < |t.rows[i]| && t.rows[i][FirstIndex(t.header, name)] == Text(values[i]))
  }

  /** One bundle field: the column's values, or [] if the frame has no such
      column. */
  function Field(t: Table, name: string): (values: seq<string>)
    requires Aligned(t) && NoNull(t)
    ensures IsColumn(t, name, values)
  {
    if name in t.header then ColumnAt(t.rows, FirstIndex(t.header, name)) else []
  }

  /** `structured_json`: each of the five lists is the frame's column of that
      name, or [] when the frame has none. */
  function BuildBundle(t: Table): (b: Bundle)
    requires Aligned(t) && NoNull(t)
    ensures IsColumn(t, EngineerFeedback, b.engineerFeedback)
    ensures IsColumn(t, ProgramLikings, b.programLikings)
    ensures IsColumn(t, TopicsLearned, b.topicsLearned)
    ensures IsColumn(t, ProgramImprovements, b.programImprovements)
    ensures IsColumn(t, EngineerImprovements, b.engineerImprovements)
  {
    Bundle(
      Field(t, EngineerFeedback),
      Field(t, ProgramLikings),
      Field(t, TopicsLearned),
      Field(t, ProgramImprovements),
      Field(t, EngineerImprovements))
  }

  /** `extract_reviews` from loading the contract to `structured_json`, with
      the sheet's records as input. Every failure is one error outcome
      carrying the original exception's cause. */
  function Extract(file: ContractFile, sheet: seq<Row>): (out: Outcome)
    ensures file == Missing ==> out == Failed(KeyFileNotFound)
    ensures file == NotAnObject ==> out == Failed(ContractNotObject)
    ensures file.Object? ==>
      (out.Failed? <==> exists k :: 0 <= k < |file.pairs| && file.pairs[k].0 !in Columns(sheet))
    ensures out.Failed? && file.Object? ==> out.cause == KeysMismatch
  {
    match file
    case Missing => Failed(KeyFileNotFound)
    case NotAnObject => Failed(ContractNotObject)
    case Object(c) =>
      if !ValidateContract(c, Columns(sheet)) then Failed(KeysMismatch)
      else Saved(BuildBundle(Clean(c, sheet)))
  }

  /** The bundle as the JSON object written to the output file. */
  function ToJson(b: Bundle): (data: map<string, seq<string>>)
    ensures data.Keys == {EngineerFeedback, ProgramLikings, TopicsLearned, ProgramImprovements, EngineerImprovements}
  {
    map[EngineerFeedback := b.engineerFeedback,
        ProgramLikings := b.programLikings,
        TopicsLearned := b.topicsLearned,
        ProgramImprovements := b.programImprovements,
        EngineerImprovements := b.engineerImprovements]
  }

  // ---------------------------------------------------------------------------
  // Row-level reference definition and the properties of the result
  // ---------------------------------------------------------------------------

  /** A sheet row survives cleaning: it has every contract column, and none of
      those cells is the empty string. */
  predicate RowComplete(c: Contract, r: Row) {
    forall k :: 0 <= k < |c| ==> c[k].0 in r && r[c[k].0] != ""
  }

  /** The surviving sheet rows, in sheet order. */
  function Survivors(c: Contract, sheet: seq<Row>): seq<Row> {
    if sheet == [] then []
    else if RowComplete(c, sheet[0]) then [sheet[0]] + Survivors(c, sheet[1..])
    else Survivors(c, sheet[1..])
  }

  /** The source column that the contract maps to a canonical name (its first
      pairing). */
  function SourceOf(c: Contract, name: string): (src: string)
    requires name in Canonicals(c)
    ensures exists k :: 0 <= k < |c| && c[k] == (src, name)
  {
    c[FirstIndex(Canonicals(c), name)].0
  }

  /** The source column's values over the given rows. */
  function Pick(rows: seq<Row>, src: string): (values: seq<string>)
    requires forall r :: r in rows ==> src in r
    ensures |values| == |rows|
    ensures forall i :: 0 <= i < |rows| ==> values[i] == rows[i][src]
  {
    if rows == [] then [] else [rows[0][src]] + Pick(rows[1..], src)
  }

  /** What one bundle field should hold: the column mapped to `name` over the
      surviving rows, or [] when the contract produces no such name. */
  function ExpectedField(c: Contract, sheet: seq<Row>, name: string): seq<string> {
    if name in Canonicals(c) then
      var src := SourceOf(c, name);
      assert forall r :: r in Survivors(c, sheet) ==> src in r by {
        SurvivorsIff(c, sheet);
      }
      Pick(Survivors(c, sheet), src)
    else []
  }

  /** A row is kept exactly when it is in the sheet and complete. */
  lemma {:induction false} SurvivorsIff(c: Contract, sheet: seq<Row>)
    ensures forall r :: r in Survivors(c, sheet) <==> r in sheet && RowComplete(c, r)
  {
    if sheet != [] {
      SurvivorsIff(c, sheet[1..]);
      assert sheet == [sheet[0]] + sheet[1..];
    }
  }

  /** Cleaning works row by row and keeps order: cleaning a concatenation is
      the concatenation of the cleanings. */
  lemma {:induction false} SurvivorsAppend(c: Contract, a: seq<Row>, b: seq<Row>)
    ensures Survivors(c, a + b) == Survivors(c, a) + Survivors(c, b)
  {
    if a == [] {
      assert a + b == b;
    } else {
      assert (a + b)[0] == a[0] && (a + b)[1..] == a[1..] + b;
      SurvivorsAppend(c, a[1..], b);
    }
  }

  /** Rows that are already complete all survive, unchanged and in order. */
  lemma {:induction false} SurvivorsOfComplete(c: Contract, sheet: seq<Row>)
    requires forall i :: 0 <= i < |sheet| ==> RowComplete(c, sheet[i])
    ensures Survivors(c, sheet) == sheet
  {
    if sheet != [] {
      SurvivorsOfComplete(c, sheet[1..]);
    }
  }

  /** Nulling empty cells and dropping rows with a null, applied to one
      projected row, keeps it exactly when the sheet row is complete, and then
      leaves it unchanged. */
  lemma ProjectedRowCleaning(c: Contract, r: Row)
    ensures RowHasNoNull(ReplaceEmptyRow(ProjectRow(c, r))) <==> RowComplete(c, r)
    ensures RowComplete(c, r) ==> ReplaceEmptyRow(ProjectRow(c, r)) == ProjectRow(c, r)
  {
  }

  /** The table pipeline agrees with the row-level definition: the cleaned
      frame's rows are the surviving sheet rows, projected onto the contract. */
  lemma {:induction false} CleanRows(c: Contract, sheet: seq<Row>)
    ensures KeepComplete(ReplaceEmptyRows(ProjectRows(c, sheet))) == ProjectRows(c, Survivors(c, sheet))
  {
    if sheet != [] {
      CleanRows(c, sheet[1..]);
      ProjectedRowCleaning(c, sheet[0]);
      var rows := ReplaceEmptyRows(ProjectRows(c, sheet));
      assert rows[0] == ReplaceEmptyRow(ProjectRow(c, sheet[0]));
      assert rows[1..] == ReplaceEmptyRows(ProjectRows(c, sheet[1..]));
    }
  }

  /** Column k of the projected surviving rows is the k-th source column over
      those rows. */
  lemma ColumnOfProjected(c: Contract, rows: seq<Row>, k: nat)
    requires k < |c| && forall i :: 0 <= i < |rows| ==> RowComplete(c, rows[i])
    ensures forall i :: 0 <= i < |rows| ==> k < |ProjectRows(c, rows)[i]| && ProjectRows(c, rows)[i][k].Text?
    ensures ColumnAt(ProjectRows(c, rows), k) == Pick(rows, c[k].0)
  {
  }

  /** A successful extraction produces, for each of the five names, exactly
      the expected field: that column over the surviving rows in sheet order,
      or [] when the contract does not produce the name. */
  lemma ExtractSpec(c: Contract, sheet: seq<Row>)
    requires Injective(c)
    requires forall k :: 0 <= k < |c| ==> c[k].0 in Columns(sheet)
    ensures Extract(Object(c), sheet) == Saved(Bundle(
      ExpectedField(c, sheet, EngineerFeedback),
      ExpectedField(c, sheet, ProgramLikings),
      ExpectedField(c, sheet, TopicsLearned),
      ExpectedField(c, sheet, ProgramImprovements),
      ExpectedField(c, sheet, EngineerImprovements)))
  {
    FieldSpec(c, sheet, EngineerFeedback);
    FieldSpec(c, sheet, ProgramLikings);
    FieldSpec(c, sheet, TopicsLearned);
    FieldSpec(c, sheet, ProgramImprovements);
    FieldSpec(c, sheet, EngineerImprovements);
  }

  /** One field of the cleaned frame is the expected field. */
  lemma FieldSpec(c: Contract, sheet: seq<Row>, name: string)
    requires Injective(c)
    ensures Aligned(Clean(c, sheet)) && NoNull(Clean(c, sheet))
    ensures Field(Clean(c, sheet), name) == ExpectedField(c, sheet, name)
  {
    if name in Canonicals(c) {
      var k := FirstIndex(Canonicals(c), name);
      var s := Survivors(c, sheet);
      SurvivorsIff(c, sheet);
      forall i | 0 <= i < |s| ensures RowComplete(c, s[i]) {
        assert s[i] in s;
      }
      ColumnOfProjected(c, s, k);
    }
  }

  /** A contract column absent from every row makes the extraction fail with
      the mismatch error; no bundle is produced. */
  lemma MissingColumnFails(c: Contract, sheet: seq<Row>, k: nat)
    requires k < |c| && forall i :: 0 <= i < |sheet| ==> c[k].0 !in sheet[i]
    ensures Extract(Object(c), sheet) == Failed(KeysMismatch)
  {
  }

  /** An empty contract always passes validation, and yields five empty lists. */
  lemma EmptyContract(sheet: seq<Row>)
    ensures Extract(Object([]), sheet) == Saved(Bundle([], [], [], [], []))
  {
  }

  /** Every present field has one entry per surviving row, so all present
      fields have the same length; no entry is the empty string. */
  lemma FieldShape(c: Contract, sheet: seq<Row>, name: string)
    ensures name !in Canonicals(c) ==> ExpectedField(c, sheet, name) == []
    ensures name in Canonicals(c) ==> |ExpectedField(c, sheet, name)| == |Survivors(c, sheet)|
    ensures forall v :: v in ExpectedField(c, sheet, name) ==> v != ""
  {
  }

  /** Cleaning is idempotent: it keeps every row of an already clean frame. */
  lemma CleanIdempotent(c: Contract, sheet: seq<Row>)
    ensures DropIncomplete(ReplaceEmpty(Clean(c, sheet))) == Clean(c, sheet)
  {
    var t := Clean(c, sheet);
    var s := Survivors(c, sheet);
    SurvivorsIff(c, sheet);
    forall i | 0 <= i < |s| ensures RowComplete(c, s[i]) {
      assert s[i] in s;
    }
    ProjectedRowsStable(c, s);
    KeepAllComplete(t.rows);
  }

  /** Projected complete records hold no empty string, so nulling empty cells
      leaves them as they are. */
  lemma ProjectedRowsStable(c: Contract, rows: seq<Row>)
    requires forall i :: 0 <= i < |rows| ==> RowComplete(c, rows[i])
    ensures ReplaceEmptyRows(ProjectRows(c, rows)) == ProjectRows(c, rows)
  {
    forall i | 0 <= i < |rows|
      ensures ReplaceEmptyRow(ProjectRows(c, rows)[i]) == ProjectRows(c, rows)[i]
    {
      ProjectedRowCleaning(c, rows[i]);
    }
  }

  lemma {:induction false} KeepAllComplete(rows: seq<seq<Cell>>)
    requires forall i :: 0 <= i < |rows| ==> RowHasNoNull(rows[i])
    ensures KeepComplete(rows) == rows
  {
    if rows != [] {
      KeepAllComplete(rows[1..]);
    }
  }

  /** A sheet whose rows are all complete loses no row in cleaning. */
  lemma CleanKeepsCompleteSheet(c: Contract, sheet: seq<Row>)
    requires forall i :: 0 <= i < |sheet| ==> RowComplete(c, sheet[i])
    ensures Clean(c, sheet).rows == ProjectRows(c, sheet)
  {
    CleanRows(c, sheet);
    SurvivorsOfComplete(c, sheet);
  }
}
