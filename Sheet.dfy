/** The problem spreadsheet as the bot reads it (utils/potd_utils.py): rows of
    string cells, row 0 holding the most recent problem, and the lookups the
    commands share. */
module Sheet {
  import opened PyStr

  /** One spreadsheet row; trailing blank cells are absent, so a cell exists
      only when the row is long enough. */
  type Row = seq<string>

  /** The column indices the bot reads from its configuration file. */
  datatype Columns = Columns(
    id: nat, date: nat, difficulty: nat, genre: nat, curator: nat,
    statement: nat, discussion: nat, hint1: nat, hint2: nat, hint3: nat,
    imageLink: nat)

  /** The cell at `col`, or "" when the row is too short to hold it. */
  function Cell(row: Row, col: nat): string
  {
    if col < |row| then row[col] else ""
  }

  /** The number of the latest problem: `int(values[0][0])`. */
  function CurrentPotd(values: seq<Row>): (r: Result<int>)
    ensures r.Ok? <==> |values| > 0 && |values[0]| > 0 && ParseInt(values[0][0]).Some?
    ensures r.Ok? ==> Some(r.value) == ParseInt(values[0][0])
  {
    if |values| == 0 || |values[0]| == 0 then Raises(IndexError)
    else match ParseInt(values[0][0])
      case None => Raises(ValueError)
      case Some(n) => Ok(n)
  }

  /** The sheet's own invariant: row k holds problem `current - k`, with no gaps. */
  ghost predicate WellNumbered(values: seq<Row>)
  {
    CurrentPotd(values).Ok? &&
    forall k :: 0 <= k < |values| ==>
      |values[k]| > 0 && ParseInt(values[k][0]) == Some(CurrentPotd(values).value - k)
  }

  /** `get_potd_row`: the row of problem `number`, found by index arithmetic. */
  function GetPotdRow(number: int, values: seq<Row>): (r: Result<Option<Row>>)
    ensures r.Ok? <==> CurrentPotd(values).Ok?
    ensures r.Ok? && r.value.Some? ==>
      var current := CurrentPotd(values).value;
      1 <= number <= current && current - number < |values| &&
      r.value.value == values[current - number]
  {
    match CurrentPotd(values)
    case Raises(e) => Raises(e)
    case Ok(current) =>
      if number > current || number < 1 then Ok(None)
      else if current - number < |values| then Ok(Some(values[current - number]))
      else Ok(None)
  }

  /** On a well-numbered sheet the index arithmetic finds exactly the row whose
      first cell is the requested number, and reports no row when none has it. */
  lemma GetPotdRowFindsNumber(values: seq<Row>, number: int)
    requires WellNumbered(values)
    ensures GetPotdRow(number, values).Ok?
    ensures GetPotdRow(number, values).value.Some? ==>
      ParseInt(GetPotdRow(number, values).value.value[0]) == Some(number)
    ensures GetPotdRow(number, values).value.None? <==>
      number < 1 || forall k :: 0 <= k < |values| ==> ParseInt(values[k][0]) != Some(number)
  {
    var current := CurrentPotd(values).value;
    if GetPotdRow(number, values).value.None? && number >= 1 {
      forall k | 0 <= k < |values| ensures ParseInt(values[k][0]) != Some(number) {
        assert ParseInt(values[k][0]) == Some(current - k);
      }
    }
    if number >= 1 && exists k :: 0 <= k < |values| && ParseInt(values[k][0]) == Some(number) {
      var k :| 0 <= k < |values| && ParseInt(values[k][0]) == Some(number);
      assert current - k == number;
    }
  }
  /** On a well-numbered sheet the row holding a number is the one found. */
  lemma RowOfNumber(values: seq<Row>, number: int, k: int)
    requires WellNumbered(values)
    requires number >= 1 && 0 <= k < |values| && ParseInt(values[k][0]) == Some(number)
    ensures GetPotdRow(number, values) == Ok(Some(values[k]))
  {
    assert number == CurrentPotd(values).value - k;
  }


  /** `check_for_image_link`: the image link of a row that has one. The row
      length test is the literal 19; a configured column beyond it raises. */
  function CheckForImageLink(row: Row, cols: Columns): (r: Result<Option<string>>)
    ensures r.Raises? <==> |row| >= 19 && cols.imageLink >= |row|
    ensures r.Ok? && r.value.Some? ==>
      cols.imageLink < |row| && r.value.value == row[cols.imageLink] && r.value.value != ""
    ensures r.Ok? && r.value.None? ==> |row| < 19 || Cell(row, cols.imageLink) == ""
  {
    if |row| >= 19 then
      if cols.imageLink >= |row| then Raises(IndexError)
      else if row[cols.imageLink] != "" then Ok(Some(row[cols.imageLink]))
      else Ok(None)
    else Ok(None)
  }

  /** A curator row names `value` in one of its first four columns. */
  predicate CuratorMatches(curator: seq<string>, value: string)
  {
    exists j :: 0 <= j < Min(|curator|, 4) && curator[j] == value
  }

  /** Row k is the first curator row that names `value`. */
  predicate FirstCuratorMatch(curators: seq<seq<string>>, value: string, k: int)
  {
    0 <= k < |curators| && CuratorMatches(curators[k], value) &&
    forall k' :: 0 <= k' < k ==> !CuratorMatches(curators[k'], value)
  }

  /** The search loop of `curator_id`: column 0 of the first matching row. */
  function FindCurator(curators: seq<seq<string>>, value: string): (r: Option<string>)
    ensures r.None? <==> forall k :: 0 <= k < |curators| ==> !CuratorMatches(curators[k], value)
    ensures r.Some? ==> exists k :: FirstCuratorMatch(curators, value, k) && r.value == curators[k][0]
    decreases |curators|
  {
    if curators == [] then None
    else if CuratorMatches(curators[0], value) then
      assert FirstCuratorMatch(curators, value, 0);
      Some(curators[0][0])
    else
      var r := FindCurator(curators[1..], value);
      assert forall k :: 1 <= k < |curators| ==> curators[k] == curators[1..][k - 1];
      assert r.Some? ==> exists k :: FirstCuratorMatch(curators, value, k) && r.value == curators[k][0] by {
        if r.Some? {
          var k :| FirstCuratorMatch(curators[1..], value, k) && r.value == curators[1..][k][0];
          assert FirstCuratorMatch(curators, value, k + 1);
        }
      }
      r
  }

  /** `curator_id`: the id of the curator named by a row's curator cell. An empty
      cell names nobody; otherwise the first curator row that has the value in one
      of its first four columns gives its column 0, and no such row gives None. */
  function CuratorId(curators: seq<seq<string>>, value: string): (r: Option<string>)
    ensures value == "" ==> r.None?
    ensures value != "" ==> (r.None? <==> forall k :: 0 <= k < |curators| ==> !CuratorMatches(curators[k], value))
    ensures r.Some? ==> value != "" && exists k :: FirstCuratorMatch(curators, value, k) && r.value == curators[k][0]
  {
    if value == "" then None else FindCurator(curators, value)
  }
}
