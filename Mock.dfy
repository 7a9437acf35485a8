/** Mock papers (cogs/mock.py): a contest template or a list of custom rules
    fixes each problem's difficulty range and allowed subjects; a subject is
    drawn for every problem until the draw is acceptable, then one past problem
    is picked per slot. */
module Mock {
  import opened PyStr
  import opened Sheet
  import opened Selector
  import opened MockRules

  /** Difficulty bounds of each problem of a paper. */
  type Bounds = seq<(int, UpperBound)>

  /** The templates offered to users; "AFMO" is accepted but not listed. */
  const TemplateList: seq<string> :=
    ["IMO", "AMO", "APMO", "BMO1", "BMO2", "IGO", "NZMO2", "SMO2", "USAMO", "USAJMO", "CHINA"]

  /** Each range's lower bound is at most its upper bound. */
  predicate Ordered(b: Bounds)
  {
    forall k :: 0 <= k < |b| ==> b[k].1.Bound? ==> b[k].0 <= b[k].1.n
  }

  /** No problem has an upper bound. */
  predicate AllUnranked(b: Bounds)
  {
    forall k :: 0 <= k < |b| ==> b[k].1.Unranked?
  }

  function Ranges(pairs: seq<(int, int)>): (r: Bounds)
  {
    seq(|pairs|, k requires 0 <= k < |pairs| => (pairs[k].0, Bound(pairs[k].1)))
  }

  /** The difficulty table of a template (already upper-cased). */
  function TemplateBounds(template: string): (r: Option<Bounds>)
    ensures r.Some? <==> template in TemplateList || template == "AFMO"
    ensures r.Some? ==> 4 <= |r.value| <= 8
  {
    if template == "IMO" || template == "USAMO" then Some(Ranges([(5, 7), (7, 9), (9, 11), (5, 7), (7, 9), (9, 11)]))
    else if template == "AMO" then Some(Ranges([(2, 3), (3, 4), (4, 5), (5, 6), (2, 3), (3, 4), (4, 5), (5, 6)]))
    else if template == "APMO" then Some(Ranges([(4, 5), (5, 6), (6, 7), (7, 8), (8, 10)]))
    else if template == "BMO1" then Some(Ranges([(1, 2), (1, 2), (2, 3), (2, 3), (3, 5), (3, 6)]))
    else if template == "BMO2" then Some(Ranges([(3, 4), (4, 5), (5, 6), (6, 7)]))
    else if template == "IGO" then Some(Ranges([(5, 6), (6, 7), (7, 8), (8, 9), (9, 10)]))
    else if template == "NZMO2" then Some(Ranges([(1, 2), (2, 3), (3, 4), (4, 5), (5, 6)]))
    else if template == "SMO2" then Some(Ranges([(4, 5), (5, 6), (6, 7), (7, 8), (8, 9)]))
    else if template == "USAJMO" then Some(Ranges([(3, 5), (5, 7), (7, 8), (3, 5), (5, 7), (7, 8)]))
    else if template == "CHINA" then Some(Ranges([(7, 8), (8, 10), (10, 12), (7, 8), (8, 10), (10, 12)]))
    else if template == "AFMO" then Some([(12, Unranked), (12, Unranked), (12, Unranked), (13, Unranked)])
    else None
  }

  /** Ranges built from ordered pairs are ordered and all bounded. */
  lemma RangesOrdered(pairs: seq<(int, int)>)
    requires |pairs| > 0 && forall k :: 0 <= k < |pairs| ==> pairs[k].0 <= pairs[k].1
    ensures Ordered(Ranges(pairs)) && !AllUnranked(Ranges(pairs))
  {
    assert Ranges(pairs)[0].1.Bound?;
  }

  /** Every template's ranges are ordered, and only the AFMO easter egg uses
      the unranked marker, for all of its problems. */
  lemma TemplateRangesOrdered(template: string)
    requires TemplateBounds(template).Some?
    ensures Ordered(TemplateBounds(template).value)
    ensures AllUnranked(TemplateBounds(template).value) <==> template == "AFMO"
  {
    if template in ["IMO", "USAMO", "AMO", "APMO", "BMO1"] {
      FirstTemplatesOrdered(template);
    } else if template != "AFMO" {
      LaterTemplatesOrdered(template);
    }
  }

  lemma FirstTemplatesOrdered(template: string)
    requires template in ["IMO", "USAMO", "AMO", "APMO", "BMO1"]
    ensures TemplateBounds(template).Some?
    ensures Ordered(TemplateBounds(template).value) && !AllUnranked(TemplateBounds(template).value)
  {
    if template == "IMO" || template == "USAMO" {
      RangesOrdered([(5, 7), (7, 9), (9, 11), (5, 7), (7, 9), (9, 11)]);
    } else if template == "AMO" {
      RangesOrdered([(2, 3), (3, 4), (4, 5), (5, 6), (2, 3), (3, 4), (4, 5), (5, 6)]);
    } else if template == "APMO" {
      RangesOrdered([(4, 5), (5, 6), (6, 7), (7, 8), (8, 10)]);
    } else {
      RangesOrdered([(1, 2), (1, 2), (2, 3), (2, 3), (3, 5), (3, 6)]);
    }
  }

  lemma LaterTemplatesOrdered(template: string)
    requires template in ["BMO2", "IGO", "NZMO2", "SMO2", "USAJMO", "CHINA"]
    ensures TemplateBounds(template).Some?
    ensures Ordered(TemplateBounds(template).value) && !AllUnranked(TemplateBounds(template).value)
  {
    if template == "BMO2" {
      RangesOrdered([(3, 4), (4, 5), (5, 6), (6, 7)]);
    } else if template == "IGO" {
      RangesOrdered([(5, 6), (6, 7), (7, 8), (8, 9), (9, 10)]);
    } else if template == "NZMO2" {
      RangesOrdered([(1, 2), (2, 3), (3, 4), (4, 5), (5, 6)]);
    } else if template == "SMO2" {
      RangesOrdered([(4, 5), (5, 6), (6, 7), (7, 8), (8, 9)]);
    } else if template == "USAJMO" {
      RangesOrdered([(3, 5), (5, 7), (7, 8), (3, 5), (5, 7), (7, 8)]);
    } else {
      RangesOrdered([(7, 8), (8, 10), (10, 12), (7, 8), (8, 10), (10, 12)]);
    }
  }


  /** The subjects allowed per problem: SMO2 opens with geometry and has none
      after it, IGO is all geometry, every other paper allows all four. */
  function GenreRule(template: string, count: nat): (r: seq<string>)
    ensures template != "SMO2" && template != "IGO" ==> |r| == count
    ensures template == "SMO2" || template == "IGO" ==> |r| == 5
    ensures template == "SMO2" ==> r[0] == "G" && forall k :: 1 <= k < |r| ==> 'G' !in r[k]
    ensures template == "IGO" ==> forall k :: 0 <= k < |r| ==> r[k] == "G"
    ensures forall k :: 0 <= k < |r| ==> r[k] != "" && forall i :: 0 <= i < |r[k]| ==> r[k][i] in Subjects
  {
    if template == "SMO2" then ["G", "ACN", "ACN", "ACN", "ACN"]
    else if template == "IGO" then ["G", "G", "G", "G", "G"]
    else seq(count, _ => Subjects)
  }

  // ---------------------------------------------------------------------------
  // is_genre_legit

  /** Each drawn subject is one of those its problem allows. */
  predicate FitsRule(genres: seq<char>, rule: seq<string>)
  {
    |genres| == |rule| && forall i :: 0 <= i < |genres| ==> genres[i] in rule[i]
  }

  /** The extra IMO conditions: P3 and P6 differ, each day's three problems are
      pairwise different, and P1, P2, P4, P5 cover all four subjects. */
  predicate ImoBalanced(g: seq<char>)
    requires |g| >= 6
  {
    g[2] != g[5] &&
    |{g[0], g[1], g[2]}| == 3 && |{g[3], g[4], g[5]}| == 3 &&
    'A' in [g[0], g[1], g[3], g[4]] && 'C' in [g[0], g[1], g[3], g[4]] &&
    'G' in [g[0], g[1], g[3], g[4]] && 'N' in [g[0], g[1], g[3], g[4]]
  }

  /** `is_genre_legit`, as written: the coverage test compares the number of
      drawn subjects with min(problem count, distinct allowed subjects), and
      reading P3 and P6 of an IMO draw shorter than six raises. */
  function IsGenreLegit(genres: seq<char>, template: string, rule: seq<string>): Result<bool>
  {
    if |genres| != |rule| then Ok(false)
    else if |genres| < Min(|rule|, |Chars(Concat(rule))|) then Ok(false)
    else if exists i :: 0 <= i < |genres| && genres[i] !in rule[i] then Ok(false)
    else if template == "IMO" then
      if |genres| < 6 then Raises(IndexError) else Ok(ImoBalanced(genres))
    else Ok(true)
  }

  /** Away from the IMO template a draw is acceptable exactly when it fits the
      rule: the coverage test can never reject a draw of the right length, so
      nothing asks for different subjects. */
  lemma LegitIffFits(genres: seq<char>, template: string, rule: seq<string>)
    requires template != "IMO"
    ensures IsGenreLegit(genres, template, rule) == Ok(FitsRule(genres, rule))
  {
  }

  /** With the IMO template and six problems, a draw is acceptable exactly when
      it fits the rule and is balanced; in particular the four first-and-second
      problems of the two days hold four different subjects. */
  lemma ImoLegit(genres: seq<char>, rule: seq<string>)
    requires |rule| == 6
    ensures IsGenreLegit(genres, "IMO", rule) == Ok(FitsRule(genres, rule) && ImoBalanced(genres))
    ensures IsGenreLegit(genres, "IMO", rule) == Ok(true) ==>
      |{genres[0], genres[1], genres[3], genres[4]}| == 4
  {
    if IsGenreLegit(genres, "IMO", rule) == Ok(true) {
      var s := {genres[0], genres[1], genres[3], genres[4]};
      assert {'A', 'C', 'G', 'N'} <= s;
      assert |{'A', 'C', 'G', 'N'}| == 4;
      SubsetCardinality({'A', 'C', 'G', 'N'}, s);
      assert |s| <= 4;
    }
  }

  /** A USAMO draw of six algebra problems is accepted: only the IMO template
      asks for variety. */
  lemma NoVarietyOutsideImo()
    ensures IsGenreLegit("AAAAAA", "USAMO", GenreRule("USAMO", 6)) == Ok(true)
  {
    LegitIffFits("AAAAAA", "USAMO", GenreRule("USAMO", 6));
  }

  /** The IMO conditions can be met, e.g. by A C G / G N C. */
  lemma ImoSatisfiable()
    ensures IsGenreLegit("ACGGNC", "IMO", GenreRule("IMO", 6)) == Ok(true)
  {
    var g := "ACGGNC";
    ImoLegit(g, GenreRule("IMO", 6));
    assert {g[0], g[1], g[2]} == {'A', 'C', 'G'};
    assert |{'A', 'C', 'G'}| == 3;
    assert {g[3], g[4], g[5]} == {'G', 'N', 'C'};
    assert |{'G', 'N', 'C'}| == 3;
  }

  // ---------------------------------------------------------------------------
  // The drawing loop

  /** The candidate draws in the order the loop tests them: first the empty
      list, then the successive random draws. */
  function Candidate(draws: seq<seq<char>>, k: nat): seq<char>
    requires k <= |draws|
  {
    if k == 0 then [] else draws[k - 1]
  }

  /** The first k candidates were all rejected. */
  predicate RejectedBefore(template: string, rule: seq<string>, draws: seq<seq<char>>, k: nat)
    requires k <= |draws| + 1
  {
    forall j :: 0 <= j < k ==> IsGenreLegit(Candidate(draws, j), template, rule) == Ok(false)
  }

  lemma RejectedExtends(template: string, rule: seq<string>, draws: seq<seq<char>>, k: nat)
    requires k <= |draws| && RejectedBefore(template, rule, draws, k)
    requires IsGenreLegit(Candidate(draws, k), template, rule) == Ok(false)
    ensures RejectedBefore(template, rule, draws, k + 1)
  {
  }

  /** Candidate k is the first one accepted. */
  predicate FirstAccepted(template: string, rule: seq<string>, draws: seq<seq<char>>, k: nat)
  {
    k <= |draws| && RejectedBefore(template, rule, draws, k) &&
    IsGenreLegit(Candidate(draws, k), template, rule) == Ok(true)
  }

  /** `while not is_genre_legit(genres, ...): genres = [random.choice(x) for x
      in genre_rule]`. The random draws are supplied up front, each fitting the
      rule; when they run out before an acceptable one, the result is None (the
      source would keep drawing). */
  method DrawGenres(template: string, rule: seq<string>, draws: seq<seq<char>>)
    returns (r: Result<Option<seq<char>>>)
    requires forall k :: 0 <= k < |draws| ==> FitsRule(draws[k], rule)
    ensures r.Ok? && r.value.Some? ==>
      exists k :: FirstAccepted(template, rule, draws, k) && Candidate(draws, k) == r.value.value
    ensures r == Ok(None) <==> RejectedBefore(template, rule, draws, |draws| + 1)
    ensures r.Raises? ==>
      exists k: nat :: k <= |draws| && RejectedBefore(template, rule, draws, k) &&
        IsGenreLegit(Candidate(draws, k), template, rule) == Raises(r.exc)
  {
    var genres: seq<char> := [];
    var k := 0;
    var legit := IsGenreLegit(genres, template, rule);
    while legit != Ok(true)
      invariant 0 <= k <= |draws|
      invariant genres == Candidate(draws, k)
      invariant legit == IsGenreLegit(genres, template, rule)
      invariant RejectedBefore(template, rule, draws, k)
      decreases |draws| - k
    {
      if legit.Raises? {
        return Raises(legit.exc);
      }
      RejectedExtends(template, rule, draws, k);
      if k == |draws| {
        return Ok(None);
      }
      genres := draws[k];
      k := k + 1;
      legit := IsGenreLegit(genres, template, rule);
    }
    assert FirstAccepted(template, rule, draws, k);
    return Ok(Some(genres));
  }

  /** Only the IMO check can raise. */
  lemma OnlyImoRaises(template: string, rule: seq<string>)
    requires template != "IMO"
    ensures forall genres :: IsGenreLegit(genres, template, rule).Ok?
  {
  }

  /** A draw the loop accepts fits its rule. */
  lemma AcceptedFits(genres: seq<char>, template: string, rule: seq<string>)
    requires IsGenreLegit(genres, template, rule) == Ok(true)
    ensures FitsRule(genres, rule)
  {
  }

  // ---------------------------------------------------------------------------
  // Statements and the paper

  /** `get_potd_statement`: the statement cell of problem `number`, found by the
      same index arithmetic as `get_potd_row` but without its lower-bound test;
      a row index past the sheet raises, a missing cell gives None. */
  function GetPotdStatement(number: int, values: seq<Row>, cols: Columns): (r: Result<Option<string>>)
    ensures CurrentPotd(values).Raises? ==> r == Raises(CurrentPotd(values).exc)
    ensures CurrentPotd(values).Ok? ==>
      (var current := CurrentPotd(values).value;
       (number > current ==> r == Ok(None)) &&
       (number <= current && current - number >= |values| ==> r == Raises(IndexError)) &&
       (number <= current && current - number < |values| ==>
          r.Ok? && (r.value.Some? <==> cols.statement < |values[current - number]|)))
    ensures r.Ok? && r.value.Some? ==>
      (var current := CurrentPotd(values).value;
       number <= current && current - number < |values| &&
       cols.statement < |values[current - number]| &&
       r.value.value == values[current - number][cols.statement])
    ensures r.Raises? && CurrentPotd(values).Ok? ==>
      (r.exc == IndexError && number <= CurrentPotd(values).value &&
       CurrentPotd(values).value - number >= |values|)
  {
    match CurrentPotd(values)
    case Raises(e) => Raises(e)
    case Ok(current) =>
      if number > current then Ok(None)
      else if current - number >= |values| then Raises(IndexError)
      else
        var row := values[current - number];
        if cols.statement < |row| then Ok(Some(row[cols.statement])) else Ok(None)
  }

  /** On a well-numbered sheet the statement found is the statement cell of the
      row whose id is `number`. */
  lemma StatementOfNumberedRow(number: int, values: seq<Row>, cols: Columns)
    requires WellNumbered(values)
    requires GetPotdStatement(number, values, cols).Ok?
    requires GetPotdStatement(number, values, cols).value.Some?
    ensures exists k :: (0 <= k < |values| && ParseInt(values[k][0]) == Some(number) &&
      cols.statement < |values[k]| &&
      GetPotdStatement(number, values, cols).value.value == values[k][cols.statement])
  {
    var k := CurrentPotd(values).value - number;
    assert ParseInt(values[k][0]) == Some(number);
  }

  /** One problem of a rendered paper: its position, the POTD chosen and its statement. */
  datatype Problem = Problem(position: nat, potd: int, statement: string)

  /** The search request of slot i: its difficulty bounds and its drawn subject. */
  function SlotQuery(bounds: Bounds, genres: seq<char>, i: nat): Query
    requires i < |bounds| && i < |genres|
  {
    Query(bounds[i].0, bounds[i].1, {[genres[i]]})
  }

  /** The ids of the problems chosen so far. */
  function Potds(problems: seq<Problem>): (r: seq<int>)
  {
    seq(|problems|, k requires 0 <= k < |problems| => problems[k].potd)
  }

  /** Slot |earlier| holds `p`: an id of the tier `pick_potd` draws from, given
      the ids already picked, with that problem's statement. */
  predicate SlotFilled(values: seq<Row>, bounds: Bounds, genres: seq<char>, excluded: seq<int>,
                       cols: Columns, cal: Calendar, earlier: seq<Problem>, p: Problem)
    requires |earlier| < |bounds| == |genres|
  {
    var candidates := CandidateIds(values, SlotQuery(bounds, genres, |earlier|), cols, cal);
    p.position == |earlier| + 1 &&
    candidates.Ok? && p.potd in WinningTier(candidates.value, excluded, Potds(earlier)) &&
    GetPotdStatement(p.potd, values, cols) == Ok(Some(p.statement))
  }

  /** Every problem so far fills its slot. */
  predicate PaperSoFar(values: seq<Row>, bounds: Bounds, genres: seq<char>, excluded: seq<int>,
                       cols: Columns, cal: Calendar, problems: seq<Problem>)
    requires |bounds| == |genres|
  {
    |problems| <= |bounds| &&
    forall j :: 0 <= j < |problems| ==> SlotFilled(values, bounds, genres, excluded, cols, cal, problems[..j], problems[j])
  }

  lemma PaperExtends(values: seq<Row>, bounds: Bounds, genres: seq<char>, excluded: seq<int>,
                     cols: Columns, cal: Calendar, problems: seq<Problem>, p: Problem)
    requires |bounds| == |genres| && |problems| < |bounds|
    requires PaperSoFar(values, bounds, genres, excluded, cols, cal, problems)
    requires SlotFilled(values, bounds, genres, excluded, cols, cal, problems, p)
    ensures PaperSoFar(values, bounds, genres, excluded, cols, cal, problems + [p])
  {
    var next := problems + [p];
    assert next[..|problems|] == problems;
    forall j | 0 <= j < |problems|
      ensures SlotFilled(values, bounds, genres, excluded, cols, cal, next[..j], next[j])
    {
      assert next[..j] == problems[..j] && next[j] == problems[j];
    }
  }

  /** Slot |earlier| cannot be filled: searching raises, finds nothing (then
      `int(None)` raises TypeError), or the chosen problem's statement raises or
      is missing (concatenating None raises TypeError). */
  predicate SlotFails(values: seq<Row>, bounds: Bounds, genres: seq<char>, excluded: seq<int>,
                      cols: Columns, cal: Calendar, earlier: seq<Problem>, exc: Exc)
    requires |earlier| < |bounds| == |genres|
  {
    var candidates := CandidateIds(values, SlotQuery(bounds, genres, |earlier|), cols, cal);
    candidates == Raises(exc) ||
    (candidates == Ok([]) && exc == TypeError) ||
    (candidates.Ok? && exists id :: (id in WinningTier(candidates.value, excluded, Potds(earlier)) &&
      (GetPotdStatement(id, values, cols) == Raises(exc) ||
       (GetPotdStatement(id, values, cols) == Ok(None) && exc == TypeError))))
  }

  /** Each slot of a filled paper holds a candidate of its own query, and a
      problem picked earlier is repeated only when every candidate was. */
  lemma FilledSlotFacts(values: seq<Row>, bounds: Bounds, genres: seq<char>, excluded: seq<int>,
                        cols: Columns, cal: Calendar, problems: seq<Problem>, i: nat)
    requires |bounds| == |genres| && i < |problems|
    requires PaperSoFar(values, bounds, genres, excluded, cols, cal, problems)
    ensures CandidateIds(values, SlotQuery(bounds, genres, i), cols, cal).Ok?
    ensures problems[i].potd in CandidateIds(values, SlotQuery(bounds, genres, i), cols, cal).value
    ensures (exists x :: x in CandidateIds(values, SlotQuery(bounds, genres, i), cols, cal).value &&
                         x !in Potds(problems[..i])) ==>
      forall j :: 0 <= j < i ==> problems[j].potd != problems[i].potd
  {
    assert SlotFilled(values, bounds, genres, excluded, cols, cal, problems[..i], problems[i]);
    RepeatOnlyWhenForced(CandidateIds(values, SlotQuery(bounds, genres, i), cols, cal).value, excluded, problems, i);
  }

  lemma RepeatOnlyWhenForced(candidates: seq<int>, excluded: seq<int>, problems: seq<Problem>, i: nat)
    requires i < |problems|
    requires problems[i].potd in WinningTier(candidates, excluded, Potds(problems[..i]))
    ensures problems[i].potd in candidates
    ensures (exists x :: x in candidates && x !in Potds(problems[..i])) ==>
      forall j :: 0 <= j < i ==> problems[j].potd != problems[i].potd
  {
    var earlier := Potds(problems[..i]);
    if exists x :: x in candidates && x !in earlier {
      TierAvoidsPicked(candidates, excluded, earlier, problems[i].potd);
      forall j | 0 <= j < i ensures problems[j].potd != problems[i].potd {
        assert earlier[j] == problems[j].potd;
      }
    }
  }


  /** The rendering loop: one `pick_potd` per slot, each seeing the ids chosen
      before it. */
  method AssemblePaper(values: seq<Row>, bounds: Bounds, genres: seq<char>, excluded: seq<int>,
                       cols: Columns, cal: Calendar) returns (r: Result<seq<Problem>>)
    requires |genres| == |bounds|
    ensures r.Ok? ==> |r.value| == |bounds| && PaperSoFar(values, bounds, genres, excluded, cols, cal, r.value)
    ensures r.Raises? ==> exists problems ::
      |problems| < |bounds| && PaperSoFar(values, bounds, genres, excluded, cols, cal, problems) &&
      SlotFails(values, bounds, genres, excluded, cols, cal, problems, r.exc)
  {
    var problems: seq<Problem> := [];
    for i := 0 to |bounds|
      invariant |problems| == i
      invariant PaperSoFar(values, bounds, genres, excluded, cols, cal, problems)
    {
      var query := SlotQuery(bounds, genres, i);
      var picked := PickPotd(values, query, Potds(problems), excluded, cols, cal);
      if picked.Raises? {
        assert SlotFails(values, bounds, genres, excluded, cols, cal, problems, picked.exc);
        return Raises(picked.exc);
      }
      if picked.value.None? {
        assert SlotFails(values, bounds, genres, excluded, cols, cal, problems, TypeError);
        return Raises(TypeError);
      }
      var id := picked.value.value;
      var statement := GetPotdStatement(id, values, cols);
      if statement.Raises? {
        assert SlotFails(values, bounds, genres, excluded, cols, cal, problems, statement.exc);
        return Raises(statement.exc);
      }
      if statement.value.None? {
        assert SlotFails(values, bounds, genres, excluded, cols, cal, problems, TypeError);
        return Raises(TypeError);
      }
      var p := Problem(i + 1, id, statement.value.value);
      assert SlotFilled(values, bounds, genres, excluded, cols, cal, problems, p);
      PaperExtends(values, bounds, genres, excluded, cols, cal, problems, p);
      problems := problems + [p];
    }
    return Ok(problems);
  }

  // ---------------------------------------------------------------------------
  // The two commands

  /** The two-day contests and how their problems are split between the days. */
  function DayIndices(template: string): seq<seq<nat>>
  {
    if template in ["IMO", "CHINA", "USAMO", "USAJMO"] then [[0, 1, 2], [3, 4, 5]]
    else if template == "AMO" then [[0, 1, 2, 3], [4, 5, 6, 7]]
    else []
  }

  /** Day 1 takes the first half of the problems and day 2 the second. */
  predicate HalfSplit(days: seq<seq<nat>>, n: nat)
  {
    |days| == 2 && n % 2 == 0 && |days[0]| == n / 2 && |days[1]| == n / 2 &&
    forall k :: 0 <= k < n / 2 ==> days[0][k] == k && days[1][k] == n / 2 + k
  }

  /** The two-day contests are exactly those with day indices, and those
      split their table in half. */
  lemma DayLengths(template: string)
    requires TemplateBounds(template).Some?
    ensures DayIndices(template) != [] <==> template in ["IMO", "AMO", "USAMO", "USAJMO", "CHINA"]
    ensures DayIndices(template) != [] ==> HalfSplit(DayIndices(template), |TemplateBounds(template).value|)
  {
    if template == "IMO" || template == "USAMO" || template == "USAJMO" || template == "CHINA" {
      assert |TemplateBounds(template).value| == 6;
    } else if template == "AMO" {
      assert |TemplateBounds(template).value| == 8;
    }
  }

  function Pick(problems: seq<Problem>, indices: seq<nat>): (r: seq<Problem>)
    requires forall k :: 0 <= k < |indices| ==> indices[k] < |problems|
  {
    seq(|indices|, k requires 0 <= k < |indices| => problems[indices[k]])
  }

  lemma PickHalves(problems: seq<Problem>, days: seq<seq<nat>>)
    requires HalfSplit(days, |problems|)
    ensures forall d, k :: 0 <= d < 2 && 0 <= k < |days[d]| ==> days[d][k] < |problems|
    ensures Pick(problems, days[0]) + Pick(problems, days[1]) == problems
  {
    assert Pick(problems, days[0]) == problems[..|problems| / 2];
    assert Pick(problems, days[1]) == problems[|problems| / 2..];
    assert problems == problems[..|problems| / 2] + problems[|problems| / 2..];
  }

  /** A paper as sent: its title and problems. */
  datatype Paper = Paper(name: string, problems: seq<Problem>)

  /** The problems of all papers, in order. */
  function AllProblems(papers: seq<Paper>): seq<Problem>
  {
    if papers == [] then [] else papers[0].problems + AllProblems(papers[1..])
  }

  /** The papers a template produces: two days for the two-day contests, the
      whole paper under the template's name otherwise; either way every problem
      is sent once, in order. */
  function SplitDays(template: string, problems: seq<Problem>): (r: seq<Paper>)
    requires TemplateBounds(template).Some? && |problems| == |TemplateBounds(template).value|
    ensures AllProblems(r) == problems
    ensures |r| == 2 <==> template in ["IMO", "AMO", "USAMO", "USAJMO", "CHINA"]
    ensures |r| == 2 ==>
      (r[0].name == template + " (Day 1)" && r[1].name == template + " (Day 2)" &&
       |r[0].problems| == |r[1].problems|)
    ensures |r| != 2 ==> r == [Paper(template, problems)]
  {
    DayLengths(template);
    var days := DayIndices(template);
    if days == [] then
      assert AllProblems([Paper(template, problems)]) == problems + [];
      [Paper(template, problems)]
    else
      PickHalves(problems, days);
      var first := Pick(problems, days[0]);
      var second := Pick(problems, days[1]);
      var r := [Paper(template + " (Day 1)", first), Paper(template + " (Day 2)", second)];
      assert AllProblems(r[1..]) == second + [];
      r
  }

  /** What `potd_mock` sends. */
  datatype TemplateReply = TemplateNotFound | DrawsExhausted | Papers(papers: seq<Paper>)

  /** The random draws fit the rule of the named template. */
  predicate DrawsFitTemplate(name: string, draws: seq<seq<char>>)
  {
    TemplateBounds(name).Some? ==>
      forall k :: 0 <= k < |draws| ==> FitsRule(draws[k], GenreRule(name, |TemplateBounds(name).value|))
  }

  /** `potd_mock`: look up the upper-cased template, draw subjects, pick the
      problems and split them into days. Exceptions propagate. */
  method MockTemplate(template: string, values: seq<Row>, draws: seq<seq<char>>, searchUnsolved: bool,
                      solved: seq<int>, read: seq<int>, cols: Columns, cal: Calendar)
    returns (r: Result<TemplateReply>)
    requires DrawsFitTemplate(Upper(template), draws)
    ensures r == Ok(TemplateNotFound) <==> TemplateBounds(Upper(template)).None?
    ensures r == Ok(DrawsExhausted) <==>
      (var name := Upper(template);
       TemplateBounds(name).Some? &&
       RejectedBefore(name, GenreRule(name, |TemplateBounds(name).value|), draws, |draws| + 1))
    ensures r.Ok? && r.value.Papers? ==>
      TemplateBounds(Upper(template)).Some? &&
      (var name := Upper(template);
       var bounds := TemplateBounds(name).value;
       var rule := GenreRule(name, |bounds|);
       var problems := AllProblems(r.value.papers);
       |problems| == |bounds| && r.value.papers == SplitDays(name, problems) &&
       exists k :: FirstAccepted(name, rule, draws, k) && |Candidate(draws, k)| == |bounds| &&
         PaperSoFar(values, bounds, Candidate(draws, k), ExcludedIds(searchUnsolved, solved, read), cols, cal, problems))
    ensures r.Raises? ==>
      TemplateBounds(Upper(template)).Some? &&
      (var name := Upper(template);
       var bounds := TemplateBounds(name).value;
       var rule := GenreRule(name, |bounds|);
       ((exists k: nat :: k <= |draws| && RejectedBefore(name, rule, draws, k) &&
           IsGenreLegit(Candidate(draws, k), name, rule) == Raises(r.exc)) ||
        (exists k :: FirstAccepted(name, rule, draws, k) && |Candidate(draws, k)| == |bounds| &&
           exists problems :: |problems| < |bounds| &&
             PaperSoFar(values, bounds, Candidate(draws, k), ExcludedIds(searchUnsolved, solved, read), cols, cal, problems) &&
             SlotFails(values, bounds, Candidate(draws, k), ExcludedIds(searchUnsolved, solved, read), cols, cal, problems, r.exc))))
  {
    var name := Upper(template);
    var table := TemplateBounds(name);
    if table.None? {
      return Ok(TemplateNotFound);
    }
    var bounds := table.value;
    var rule := GenreRule(name, |bounds|);
    assert |rule| == |bounds|;
    var drawn := DrawGenres(name, rule, draws);
    if drawn.Raises? {
      return Raises(drawn.exc);
    }
    if drawn.value.None? {
      return Ok(DrawsExhausted);
    }
    var genres := drawn.value.value;
    ghost var k :| FirstAccepted(name, rule, draws, k) && Candidate(draws, k) == genres;
    AcceptedFits(genres, name, rule);
    var excluded := ExcludedIds(searchUnsolved, solved, read);
    var paper := AssemblePaper(values, bounds, genres, excluded, cols, cal);
    if paper.Raises? {
      return Raises(paper.exc);
    }
    var papers := SplitDays(name, paper.value);
    return Ok(Papers(papers));
  }

  /** What `potd_mock_custom` sends. */
  datatype CustomReply =
    | RuleInputError
    | TooManyProblems
    | CustomDrawsExhausted
    | Unable(rules: string)
    | Created(rules: string, paper: Paper)

  /** The allowed subjects of each custom rule; a rule naming none allows all four. */
  function CustomGenreRule(rules: seq<MockRule>): (r: seq<string>)
    ensures |r| == |rules|
    ensures forall k :: 0 <= k < |rules| ==> r[k] != "" && (rules[k].genres != "" ==> r[k] == rules[k].genres)
    ensures forall k :: 0 <= k < |rules| && rules[k].genres == "" ==> r[k] == Subjects
  {
    seq(|rules|, k requires 0 <= k < |rules| => if rules[k].genres == "" then Subjects else rules[k].genres)
  }

  function CustomBounds(rules: seq<MockRule>): (r: Bounds)
  {
    seq(|rules|, k requires 0 <= k < |rules| => (rules[k].lower, Bound(rules[k].upper)))
  }

  /** The random draws fit the rule the parsed text gives. */
  predicate DrawsFitCustom(text: string, draws: seq<seq<char>>)
  {
    MockRulesOf(text).Some? ==>
      forall k :: 0 <= k < |draws| ==> FitsRule(draws[k], CustomGenreRule(MockRulesOf(text).value))
  }

  /** `potd_mock_custom`: parse the rules, refuse an empty or failed parse and
      more than 15 problems, draw subjects, then pick the problems; any exception
      while picking becomes the "unable" reply. Unsolved problems are preferred. */
  method MockCustom(text: string, values: seq<Row>, draws: seq<seq<char>>,
                    solved: seq<int>, read: seq<int>, cols: Columns, cal: Calendar)
    returns (r: CustomReply)
    requires DrawsFitCustom(text, draws)
    ensures r == RuleInputError <==> MockRulesOf(text) == None || MockRulesOf(text) == Some([])
    ensures r == TooManyProblems <==> MockRulesOf(text).Some? && |MockRulesOf(text).value| > 15
    ensures r.Unable? || r.Created? ==>
      MockRulesOf(text).Some? && r.rules == Join(RuleStrings(MockRulesOf(text).value), ' ')
    ensures r == CustomDrawsExhausted <==>
      MockRulesOf(text).Some? && 1 <= |MockRulesOf(text).value| <= 15 &&
      RejectedBefore("Custom", CustomGenreRule(MockRulesOf(text).value), draws, |draws| + 1)
    ensures r.Created? ==>
      (var rules := MockRulesOf(text).value;
       var bounds := CustomBounds(rules);
       var rule := CustomGenreRule(rules);
       1 <= |rules| <= 15 && r.paper.name == "(Custom)" && |r.paper.problems| == |rules| &&
       exists k :: FirstAccepted("Custom", rule, draws, k) && FitsRule(Candidate(draws, k), rule) &&
         PaperSoFar(values, bounds, Candidate(draws, k), solved + read, cols, cal, r.paper.problems))
    ensures r.Unable? ==>
      (var rules := MockRulesOf(text).value;
       var bounds := CustomBounds(rules);
       var rule := CustomGenreRule(rules);
       1 <= |rules| <= 15 &&
       exists k :: FirstAccepted("Custom", rule, draws, k) && FitsRule(Candidate(draws, k), rule) &&
         exists problems, exc :: |problems| < |rules| &&
           PaperSoFar(values, bounds, Candidate(draws, k), solved + read, cols, cal, problems) &&
           SlotFails(values, bounds, Candidate(draws, k), solved + read, cols, cal, problems, exc))
  {
    var parsed := ParseMockRules(text);
    if parsed.None? || parsed.value == [] {
      return RuleInputError;
    }
    var rules := parsed.value;
    if |rules| > 15 {
      return TooManyProblems;
    }
    var rule := CustomGenreRule(rules);
    var drawn := DrawGenres("Custom", rule, draws);
    OnlyImoRaises("Custom", rule);
    assert drawn.Ok?;
    if drawn.value.None? {
      return CustomDrawsExhausted;
    }
    var genres := drawn.value.value;
    ghost var k :| FirstAccepted("Custom", rule, draws, k) && Candidate(draws, k) == genres;
    AcceptedFits(genres, "Custom", rule);
    var bounds := CustomBounds(rules);
    var shown := StringifyMockRules(rules);
    var paper := AssemblePaper(values, bounds, genres, solved + read, cols, cal);
    if paper.Raises? {
      return Unable(shown);
    }
    return Created(shown, Paper("(Custom)", paper.value));
  }
}
