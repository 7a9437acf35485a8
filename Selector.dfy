/** Problem selection (`pick_potd` in utils/potd_utils.py): screen the sheet's
    rows by difficulty bound, genre filter and date, then choose one id from
    the first non-empty tier of a three-tier fallback cascade. */
module Selector {
  import opened PyStr
  import opened Sheet

  /** The upper difficulty bound: an integer, or the unranked marker "T". */
  datatype UpperBound = Bound(n: int) | Unranked

  /** A search request: difficulty bounds and a genre filter whose elements are
      strings of required subject letters. */
  datatype Query = Query(lower: int, upper: UpperBound, filter: set<string>)

  /** Date handling: the sheet's date format parsed to a day number (None where
      `strptime` raises) and today's day number. */
  datatype Calendar = Calendar(parseDate: string -> Option<int>, today: int)

  // ---------------------------------------------------------------------------
  // Genre matching (`match_genre`)

  /** A filter element matches when the row's genre characters intersected with
      the element's characters are as many as the element is long. */
  predicate MatchElement(rowGenre: string, element: string)
  {
    |Chars(rowGenre) * Chars(element)| == |element|
  }

  predicate MatchGenre(rowGenre: string, filter: set<string>)
  {
    exists g :: g in filter && MatchElement(rowGenre, g)
  }

  lemma SubsetCardinality(x: set<char>, y: set<char>)
    requires x <= y
    ensures |x| <= |y|
    ensures |x| == |y| ==> x == y
  {
    assert y == x + (y - x);
    assert |y| == |x| + |y - x|;
    if |x| == |y| {
      assert |y - x| == 0;
      assert y - x == {};
    }
  }

  /** An element matches exactly when it has no repeated letter and all of its
      letters occur in the row's genre; so the empty element matches every row
      and an element with a repeated letter matches none. */
  lemma MatchElementIsSubset(rowGenre: string, element: string)
    ensures MatchElement(rowGenre, element) <==>
      NoDup(element) && Chars(element) <= Chars(rowGenre)
  {
    var a, b := Chars(rowGenre), Chars(element);
    NoDupCardinality(element);
    SubsetCardinality(a * b, b);
    if MatchElement(rowGenre, element) {
      assert |b| == |element|;
      assert a * b == b;
    }
    if NoDup(element) && b <= a {
      assert a * b == b;
    }
  }

  // ---------------------------------------------------------------------------
  // Row screening

  /** The difficulty test: inclusive integer bounds, or with the "T" marker any
      numeric difficulty of at least `lower` and every non-numeric one. */
  predicate DifficultyOk(d: string, lower: int, upper: UpperBound)
  {
    match upper
    case Bound(u) => IsNumeric(d) && lower <= DigitsValue(d) <= u
    case Unranked => (IsNumeric(d) && DigitsValue(d) >= lower) || !IsNumeric(d)
  }

  /** What the list comprehension does with one row: keep it, skip it, or raise
      while parsing its date (the date is read only when every earlier test passed). */
  datatype Verdict = Keep | Skip | Fail(exc: Exc)

  function Screen(row: Row, q: Query, cols: Columns, cal: Calendar): Verdict
  {
    if |row| <= Max(cols.difficulty, cols.genre) then Skip
    else if !DifficultyOk(row[cols.difficulty], q.lower, q.upper) then Skip
    else if !MatchGenre(row[cols.genre], q.filter) then Skip
    else if cols.date >= |row| then Fail(IndexError)
    else match cal.parseDate(row[cols.date])
      case None => Fail(ValueError)
      case Some(day) => if day < cal.today then Keep else Skip
  }

  /** A row is a candidate: long enough, difficulty within the bound, genre
      matching the filter, and dated strictly before today. */
  ghost predicate Qualifies(row: Row, q: Query, cols: Columns, cal: Calendar)
  {
    |row| > Max(cols.difficulty, cols.genre) &&
    DifficultyOk(row[cols.difficulty], q.lower, q.upper) &&
    MatchGenre(row[cols.genre], q.filter) &&
    cols.date < |row| &&
    cal.parseDate(row[cols.date]).Some? &&
    cal.parseDate(row[cols.date]).value < cal.today
  }

  lemma ScreenKeepsQualified(row: Row, q: Query, cols: Columns, cal: Calendar)
    ensures Screen(row, q, cols, cal) == Keep <==> Qualifies(row, q, cols, cal)
  {
  }

  /** The filtering comprehension: the rows kept, in order, or the first raise. */
  function FilterRows(rows: seq<Row>, q: Query, cols: Columns, cal: Calendar): (r: Result<seq<Row>>)
    ensures r.Raises? <==> exists k :: 0 <= k < |rows| && Screen(rows[k], q, cols, cal).Fail?
    ensures r.Ok? ==> forall row :: row in r.value <==> row in rows && Screen(row, q, cols, cal) == Keep
    decreases |rows|
  {
    if rows == [] then Ok([])
    else
      var rest := FilterRows(rows[1..], q, cols, cal);
      assert forall k :: 1 <= k < |rows| ==> rows[k] == rows[1..][k - 1];
      assert forall row :: row in rows <==> row == rows[0] || row in rows[1..];
      match Screen(rows[0], q, cols, cal)
      case Fail(e) => Raises(e)
      case Keep => if rest.Raises? then rest else Ok([rows[0]] + rest.value)
      case Skip => rest
  }

  /** The row's id cell exists and `int()` accepts it. */
  predicate IdReadable(row: Row, cols: Columns)
  {
    cols.id < |row| && ParseInt(row[cols.id]).Some?
  }

  /** `int(x[id_col])` for each kept row, or the first raise. */
  function RowIds(rows: seq<Row>, cols: Columns): (r: Result<seq<int>>)
    ensures r.Raises? <==> exists k :: 0 <= k < |rows| && !IdReadable(rows[k], cols)
    ensures r.Ok? ==> |r.value| == |rows|
    ensures r.Ok? ==> forall k :: 0 <= k < |rows| ==>
      IdReadable(rows[k], cols) && ParseInt(rows[k][cols.id]) == Some(r.value[k])
    decreases |rows|
  {
    if rows == [] then Ok([])
    else if cols.id >= |rows[0]| then Raises(IndexError)
    else match ParseInt(rows[0][cols.id])
      case None => Raises(ValueError)
      case Some(id) =>
        var rest := RowIds(rows[1..], cols);
        assert forall k :: 1 <= k < |rows| ==> rows[k] == rows[1..][k - 1];
        if rest.Raises? then
          assert exists k :: 0 <= k < |rows| && !IdReadable(rows[k], cols) by {
            var k :| 0 <= k < |rows[1..]| && !IdReadable(rows[1..][k], cols);
            assert rows[k + 1] == rows[1..][k];
          }
          rest
        else Ok([id] + rest.value)
  }

  /** The candidate ids of a request: the ids of the rows that survive screening. */
  function CandidateIds(rows: seq<Row>, q: Query, cols: Columns, cal: Calendar): Result<seq<int>>
  {
    match FilterRows(rows, q, cols, cal)
    case Raises(e) => Raises(e)
    case Ok(kept) => RowIds(kept, cols)
  }

  /** The row's id cell reads as `x`. */
  predicate HasId(row: Row, cols: Columns, x: int)
  {
    cols.id < |row| && ParseInt(row[cols.id]) == Some(x)
  }

  /** Every candidate id is the id of a qualifying row, and every qualifying row's
      id is a candidate. */
  lemma CandidatesQualify(rows: seq<Row>, q: Query, cols: Columns, cal: Calendar)
    requires CandidateIds(rows, q, cols, cal).Ok?
    ensures forall x :: x in CandidateIds(rows, q, cols, cal).value ==>
      exists row :: row in rows && Qualifies(row, q, cols, cal) && HasId(row, cols, x)
    ensures forall row :: row in rows && Qualifies(row, q, cols, cal) ==>
      exists x :: x in CandidateIds(rows, q, cols, cal).value && HasId(row, cols, x)
  {
    var filtered := FilterRows(rows, q, cols, cal);
    assert filtered.Ok?;
    var kept := filtered.value;
    var ids := RowIds(kept, cols).value;
    assert CandidateIds(rows, q, cols, cal).value == ids;
    forall x | x in ids
      ensures exists row :: row in rows && Qualifies(row, q, cols, cal) && HasId(row, cols, x)
    {
      var k :| 0 <= k < |ids| && ids[k] == x;
      assert kept[k] in kept;
      ScreenKeepsQualified(kept[k], q, cols, cal);
      assert HasId(kept[k], cols, x);
    }
    forall row | row in rows && Qualifies(row, q, cols, cal)
      ensures exists x :: x in ids && HasId(row, cols, x)
    {
      ScreenKeepsQualified(row, q, cols, cal);
      var k :| 0 <= k < |kept| && kept[k] == row;
      assert ids[k] in ids && HasId(row, cols, ids[k]);
    }
  }

  /** Where the bound allows a difficulty: both ends are inclusive, and with the
      unranked marker every non-numeric difficulty passes. */
  lemma BoundInclusive(d: nat, lower: int, upper: int)
    ensures DifficultyOk(NatToString(d), lower, Bound(upper)) <==> lower <= d <= upper
    ensures DifficultyOk(NatToString(d), lower, Unranked) <==> lower <= d
    ensures forall s :: !IsNumeric(s) ==> DifficultyOk(s, lower, Unranked) && !DifficultyOk(s, lower, Bound(upper))
  {
    NatToStringDigits(d);
  }

  // ---------------------------------------------------------------------------
  // The fallback cascade

  /** The ids to avoid: the caller's solved and read lists when searching for
      unsolved problems, nothing otherwise. */
  function ExcludedIds(searchUnsolved: bool, solved: seq<int>, read: seq<int>): (r: seq<int>)
    ensures forall x :: x in r <==> searchUnsolved && (x in solved || x in read)
  {
    if searchUnsolved then solved + read else []
  }

  /** One id that is in the list and outside both others witnesses that not
      every id is covered. */
  lemma NotAllCovered(ids: seq<int>, excluded: seq<int>, picked: seq<int>, y: int)
    requires y in ids && y !in excluded && y !in picked
    ensures !(forall x :: x in ids ==> x in excluded || x in picked)
    ensures !(forall x :: x in ids ==> x in picked)
  {
  }
  /** The tier `random.choice` draws from: ids neither excluded nor already
      picked; failing that, ids not already picked; failing that, every id. */
  function WinningTier(ids: seq<int>, excluded: seq<int>, picked: seq<int>): (r: seq<int>)
    ensures forall x :: x in r ==> x in ids
    ensures |r| > 0 <==> |ids| > 0
    ensures (exists x :: x in ids && x !in excluded && x !in picked) ==>
      forall x :: x in r <==> x in ids && x !in excluded && x !in picked
    ensures (forall x :: x in ids ==> x in excluded || x in picked) && (exists x :: x in ids && x !in picked) ==>
      forall x :: x in r <==> x in ids && x !in picked
    ensures (forall x :: x in ids ==> x in picked) ==> r == ids
  {
    var tier1 := Without(Without(ids, excluded), picked);
    var unpicked := Without(ids, picked);
    if |tier1| > 0 then
      NotAllCovered(ids, excluded, picked, tier1[0]);
      tier1
    else if |unpicked| > 0 then
      NotAllCovered(ids, [], picked, unpicked[0]);
      unpicked
    else
      assert unpicked == [];
      ids
  }
  /** A drawn id repeats an earlier pick only when every candidate was picked. */
  lemma TierAvoidsPicked(ids: seq<int>, excluded: seq<int>, picked: seq<int>, x: int)
    requires x in WinningTier(ids, excluded, picked)
    requires exists y :: y in ids && y !in picked
    ensures x !in picked
  {
    if !exists y :: y in ids && y !in excluded && y !in picked {
      assert forall y :: y in ids ==> y in excluded || y in picked;
    }
  }


  /** `pick_potd`: screen the rows, then choose any id of the winning tier. The
      choice stands for `random.choice`; no distribution is modelled. */
  method PickPotd(rows: seq<Row>, q: Query, picked: seq<int>, excluded: seq<int>,
                  cols: Columns, cal: Calendar) returns (r: Result<Option<int>>)
    ensures CandidateIds(rows, q, cols, cal).Raises? ==> r == Raises(CandidateIds(rows, q, cols, cal).exc)
    ensures CandidateIds(rows, q, cols, cal).Ok? ==> r.Ok?
    ensures r.Ok? ==> (r.value.None? <==> CandidateIds(rows, q, cols, cal).value == [])
    ensures r.Ok? && r.value.Some? ==>
      r.value.value in WinningTier(CandidateIds(rows, q, cols, cal).value, excluded, picked)
    ensures r.Ok? && r.value.Some? && (exists x :: x in CandidateIds(rows, q, cols, cal).value && x !in picked) ==>
      r.value.value !in picked
  {
    var candidates := CandidateIds(rows, q, cols, cal);
    if candidates.Raises? {
      return Raises(candidates.exc);
    }
    if |candidates.value| == 0 {
      return Ok(None);
    }
    var tier := WinningTier(candidates.value, excluded, picked);
    var x :| x in tier;
    return Ok(Some(x));
  }

  /** The cells the scenario below reads, as Python reads them. */
  lemma ScenarioCells()
    ensures IsNumeric("7") && DigitsValue("7") == 7
    ensures ParseInt("10") == Some(10) && ParseInt("9") == Some(9)
  {
    NatToStringDigits(7);
    assert NatToString(7) == "7";
    IntToStringParses(10);
    IntToStringParses(9);
    assert IntToString(10) == "10";
    assert IntToString(9) == "9";
  }

  lemma CharsSingleton(c: char)
    ensures Chars([c]) == {c}
  {
    assert [c][0] == c;
  }

  lemma ScenarioGenres()
    ensures MatchGenre("G", {"G"}) && !MatchGenre("A", {"G"})
    ensures !MatchGenre("G", {"N"}) && !MatchGenre("A", {"N"})
  {
    CharsSingleton('G');
    CharsSingleton('A');
    CharsSingleton('N');
    assert MatchElement("G", "G");
    assert !MatchElement("A", "G") by { assert Chars("A") * Chars("G") == {}; }
    assert !MatchElement("G", "N") by { assert Chars("G") * Chars("N") == {}; }
    assert !MatchElement("A", "N") by { assert Chars("A") * Chars("N") == {}; }
  }

  const ScenarioCols := Columns(0, 1, 2, 3, 4, 5, 6, 7, 8, 9, 10)
  const Row10: Row := ["10", "yesterday", "7", "G"]
  const Row9: Row := ["9", "yesterday", "7", "A"]

  lemma ScenarioScreens(cal: Calendar)
    requires cal.parseDate("yesterday") == Some(cal.today - 1)
    ensures Screen(Row10, Query(7, Bound(7), {"G"}), ScenarioCols, cal) == Keep
    ensures Screen(Row9, Query(7, Bound(7), {"G"}), ScenarioCols, cal) == Skip
    ensures Screen(Row10, Query(7, Bound(7), {"N"}), ScenarioCols, cal) == Skip
    ensures Screen(Row9, Query(7, Bound(7), {"N"}), ScenarioCols, cal) == Skip
  {
    ScenarioCells();
    ScenarioGenres();
  }

  lemma ScenarioFilterG(cal: Calendar)
    requires cal.parseDate("yesterday") == Some(cal.today - 1)
    ensures FilterRows([Row10, Row9], Query(7, Bound(7), {"G"}), ScenarioCols, cal) == Ok([Row10])
  {
    var rows := [Row10, Row9];
    var q := Query(7, Bound(7), {"G"});
    ScenarioScreens(cal);
    assert rows[1..] == [Row9] && [Row9][1..] == [];
    assert FilterRows([Row9], q, ScenarioCols, cal) == Ok([]);
    assert [Row10] + [] == [Row10];
  }

  lemma ScenarioFilterN(cal: Calendar)
    requires cal.parseDate("yesterday") == Some(cal.today - 1)
    ensures FilterRows([Row10, Row9], Query(7, Bound(7), {"N"}), ScenarioCols, cal) == Ok([])
  {
    var rows := [Row10, Row9];
    var q := Query(7, Bound(7), {"N"});
    ScenarioScreens(cal);
    assert rows[1..] == [Row9] && [Row9][1..] == [];
    assert FilterRows([Row9], q, ScenarioCols, cal) == Ok([]);
  }

  /** The scenario of two rows dated yesterday, problems 10 (genre G) and 9
      (genre A), both of difficulty 7: the filter {"G"} leaves only 10 and the
      filter {"N"} leaves nothing. */
  lemma TwoRowScenario(cal: Calendar)
    requires cal.parseDate("yesterday") == Some(cal.today - 1)
    ensures CandidateIds([Row10, Row9], Query(7, Bound(7), {"G"}), ScenarioCols, cal) == Ok([10])
    ensures CandidateIds([Row10, Row9], Query(7, Bound(7), {"N"}), ScenarioCols, cal) == Ok([])
  {
    ScenarioFilterG(cal);
    ScenarioFilterN(cal);
    ScenarioIds();
  }

  lemma ScenarioIds()
    ensures RowIds([Row10], ScenarioCols) == Ok([10])
  {
    ScenarioCells();
    assert Row10[ScenarioCols.id] == "10";
    assert [Row10][1..] == [];
    assert RowIds([], ScenarioCols) == Ok([]);
    assert [10] + [] == [10];
  }
}
