/** The search commands (cogs/main.py): the genre-filter mini-language, the
    clamping of difficulty bounds, the keyword filter behind autocomplete, and
    the choice of hint. */
module Search {
  import opened PyStr
  import opened Sheet
  import opened Selector
  import opened MockRules

  // ---------------------------------------------------------------------------
  // parse_genre_input

  /** A character names a subject when it upper-cases to one of A, C, G, N. */
  predicate NamesSubject(c: char)
  {
    UpperChar(c) in Subjects
  }

  /** `pieces[0::2]`: the text outside quotes. */
  function Unquoted(pieces: seq<string>): (r: seq<string>)
  {
    seq((|pieces| + 1) / 2, k requires 0 <= k < (|pieces| + 1) / 2 => pieces[2 * k])
  }

  /** `pieces[1::2]`: the quoted groups. */
  function Quoted(pieces: seq<string>): (r: seq<string>)
  {
    seq(|pieces| / 2, k requires 0 <= k < |pieces| / 2 => pieces[2 * k + 1])
  }

  /** The one-letter elements contributed by the first n unquoted characters. */
  function SingleElements(simple: string, n: nat): set<string>
    requires n <= |simple|
  {
    set k | 0 <= k < n && NamesSubject(simple[k]) :: [UpperChar(simple[k])]
  }

  /** The elements contributed by the first m quoted groups: each group's
      subject letters, once each. */
  function GroupElements(groups: seq<string>, m: nat): set<string>
    requires m <= |groups|
  {
    set j | 0 <= j < m :: GenreLetters(groups[j])
  }

  /** The filter a genre argument denotes: every subject letter outside quotes
      is an element of its own, and every quoted group is one element holding
      its subject letters. */
  function GenreFilter(genre: string): set<string>
  {
    var pieces := Split(genre, '\'');
    var simple := Concat(Unquoted(pieces));
    var groups := Quoted(pieces);
    SingleElements(simple, |simple|) + GroupElements(groups, |groups|)
  }

  lemma SingleElementsStep(simple: string, i: nat)
    requires i < |simple|
    ensures SingleElements(simple, i + 1) ==
      SingleElements(simple, i) + (if NamesSubject(simple[i]) then {[UpperChar(simple[i])]} else {})
  {
  }

  lemma GroupElementsStep(groups: seq<string>, m: nat)
    requires m < |groups|
    ensures GroupElements(groups, m + 1) == GroupElements(groups, m) + {GenreLetters(groups[m])}
  {
  }

  lemma ElementsAppend(elements: seq<string>, e: string)
    ensures (set x | x in elements + [e]) == (set x | x in elements) + {e}
  {
  }

  /** One step of collecting a quoted group's letters. */
  lemma AddGenresStep(parsed: string, item: string, j: nat)
    requires j < |item|
    ensures AddGenres(parsed, item[j..]) ==
      (var u := UpperChar(item[j]);
       AddGenres(if u in Subjects && u !in parsed then parsed + [u] else parsed, item[j + 1..]))
  {
    assert item[j..][1..] == item[j + 1..];
  }

  /** `parse_genre_input`: split on quotes, collect one-letter elements from the
      unquoted text and one element per quoted group, then make a set. */
  method ParseGenreInput(genre: string) returns (filter: set<string>)
    ensures filter == GenreFilter(genre)
  {
    var pieces := Split(genre, '\'');
    var groups := Quoted(pieces);
    var simple := Concat(Unquoted(pieces));
    var elements: seq<string> := [];
    for i := 0 to |simple|
      invariant (set x | x in elements) == SingleElements(simple, i)
    {
      SingleElementsStep(simple, i);
      var u := UpperChar(simple[i]);
      if u in Subjects {
        ElementsAppend(elements, [u]);
        elements := elements + [[u]];
      }
    }
    for m := 0 to |groups|
      invariant (set x | x in elements) == SingleElements(simple, |simple|) + GroupElements(groups, m)
    {
      var item := groups[m];
      var parsed: string := "";
      for j := 0 to |item|
        invariant AddGenres(parsed, item[j..]) == GenreLetters(item)
      {
        AddGenresStep(parsed, item, j);
        var u := UpperChar(item[j]);
        if u in Subjects && u !in parsed {
          parsed := parsed + [u];
        }
      }
      GroupElementsStep(groups, m);
      ElementsAppend(elements, parsed);
      elements := elements + [parsed];
    }
    filter := set x | x in elements;
  }

  /** Every element of a filter is a set of distinct subject letters. */
  lemma FilterElementsAreSubjects(genre: string)
    ensures forall g :: g in GenreFilter(genre) ==> SubjectLetters(g)
  {
    var pieces := Split(genre, '\'');
    var simple := Concat(Unquoted(pieces));
    forall g | g in SingleElements(simple, |simple|) ensures SubjectLetters(g) {
      var k :| 0 <= k < |simple| && NamesSubject(simple[k]) && g == [UpperChar(simple[k])];
    }
  }

  /** Without quotes every character is unquoted text and there are no groups. */
  lemma UnquotedFilter(genre: string)
    requires '\'' !in genre
    ensures GenreFilter(genre) == SingleElements(genre, |genre|)
  {
    SplitNoSep(genre, '\'');
    var pieces := Split(genre, '\'');
    assert Unquoted(pieces) == [genre];
    assert [genre][1..] == [];
    assert Concat(Unquoted(pieces)) == genre + "";
    assert Concat(Unquoted(pieces)) == genre;
    assert Quoted(pieces) == [];
    assert GroupElements(Quoted(pieces), 0) == {};
  }

  /** A one-letter element matches exactly the genres holding that letter. */
  lemma SingleMatch(rowGenre: string, c: char)
    ensures MatchElement(rowGenre, [c]) <==> c in rowGenre
  {
    MatchElementIsSubset(rowGenre, [c]);
    assert Chars([c]) == {c};
  }

  /** Without quotes, the filter means "any of the named subjects": a row
      matches when its genre holds some subject letter of the argument. */
  lemma UnquotedMeansAny(genre: string, rowGenre: string)
    requires '\'' !in genre
    ensures MatchGenre(rowGenre, GenreFilter(genre)) <==>
      exists i :: 0 <= i < |genre| && NamesSubject(genre[i]) && UpperChar(genre[i]) in rowGenre
  {
    UnquotedFilter(genre);
    var filter := SingleElements(genre, |genre|);
    if MatchGenre(rowGenre, filter) {
      var g :| g in filter && MatchElement(rowGenre, g);
      var i :| 0 <= i < |genre| && NamesSubject(genre[i]) && g == [UpperChar(genre[i])];
      SingleMatch(rowGenre, UpperChar(genre[i]));
    }
    if exists i :: 0 <= i < |genre| && NamesSubject(genre[i]) && UpperChar(genre[i]) in rowGenre {
      var i :| 0 <= i < |genre| && NamesSubject(genre[i]) && UpperChar(genre[i]) in rowGenre;
      SingleMatch(rowGenre, UpperChar(genre[i]));
      assert [UpperChar(genre[i])] in filter;
    }
  }

  /** A quoted group means "all of these subjects": its element matches a row
      exactly when every subject letter of the group is in the row's genre. */
  lemma QuotedMeansAll(item: string, rowGenre: string)
    ensures MatchElement(rowGenre, GenreLetters(item)) <==>
      forall i :: 0 <= i < |item| && NamesSubject(item[i]) ==> UpperChar(item[i]) in rowGenre
  {
    if forall i :: 0 <= i < |item| && NamesSubject(item[i]) ==> UpperChar(item[i]) in rowGenre {
      QuotedAllSuffices(item, rowGenre);
    }
    if MatchElement(rowGenre, GenreLetters(item)) {
      QuotedAllNeeded(item, rowGenre);
    }
  }

  lemma QuotedAllSuffices(item: string, rowGenre: string)
    requires forall i :: 0 <= i < |item| && NamesSubject(item[i]) ==> UpperChar(item[i]) in rowGenre
    ensures MatchElement(rowGenre, GenreLetters(item))
  {
    var g := GenreLetters(item);
    AddGenresSpec("", item);
    MatchElementIsSubset(rowGenre, g);
    forall c | c in Chars(g) ensures c in Chars(rowGenre) {
      var k :| 0 <= k < |g| && g[k] == c;
      assert c in g;
      var i :| 0 <= i < |item| && UpperChar(item[i]) == c;
      assert UpperChar(item[i]) in rowGenre;
    }
  }

  lemma QuotedAllNeeded(item: string, rowGenre: string)
    requires MatchElement(rowGenre, GenreLetters(item))
    ensures forall i :: 0 <= i < |item| && NamesSubject(item[i]) ==> UpperChar(item[i]) in rowGenre
  {
    var g := GenreLetters(item);
    AddGenresSpec("", item);
    MatchElementIsSubset(rowGenre, g);
    forall i | 0 <= i < |item| && NamesSubject(item[i]) ensures UpperChar(item[i]) in rowGenre {
      var c := UpperChar(item[i]);
      assert c in g;
      var k :| 0 <= k < |g| && g[k] == c;
      assert c in Chars(g);
    }
  }


  /** A group without subject letters collects no letter. */
  lemma NoSubjectNoLetters(item: string)
    requires forall i :: 0 <= i < |item| ==> !NamesSubject(item[i])
    ensures GenreLetters(item) == ""
  {
    var g := GenreLetters(item);
    AddGenresSpec("", item);
    assert Chars(g) == {};
    NoDupCardinality(g);
  }

  /** A quoted group with no subject letter becomes the empty element, which
      matches every row: the whole filter then accepts every genre. */
  lemma EmptyGroupMatchesAll(genre: string, j: nat, rowGenre: string)
    requires j < |Quoted(Split(genre, '\''))|
    requires forall i :: 0 <= i < |Quoted(Split(genre, '\''))[j]| ==> !NamesSubject(Quoted(Split(genre, '\''))[j][i])
    ensures "" in GenreFilter(genre)
    ensures MatchGenre(rowGenre, GenreFilter(genre))
  {
    var groups := Quoted(Split(genre, '\''));
    var item := groups[j];
    var g := GenreLetters(item);
    NoSubjectNoLetters(item);
    var simple := Concat(Unquoted(Split(genre, '\'')));
    assert g in GroupElements(groups, |groups|);
    assert GenreFilter(genre) == SingleElements(simple, |simple|) + GroupElements(groups, |groups|);
    assert MatchElement(rowGenre, "");
  }

  // ---------------------------------------------------------------------------
  // potd_search

  /** The bounds `potd_search` passes on: the lower bound raised to 0, the upper
      bound capped at 99 but never below the new lower bound. */
  function ClampBounds(lower: int, upper: int): (r: (int, int))
    ensures 0 <= r.0 <= r.1
    ensures lower <= r.0 && (r.0 == lower || r.0 == 0)
    ensures r.1 <= 99 || r.1 == r.0
    ensures lower <= upper && 0 <= upper ==> r.1 <= upper
    ensures 0 <= lower <= upper <= 99 ==> r == (lower, upper)
    ensures lower <= 99 <= upper ==> r.1 == 99
    ensures lower <= upper <= 99 ==> r.1 == Max(upper, 0)
    ensures Min(99, upper) < r.0 ==> r.1 == r.0
  {
    var lo := Max(0, lower);
    (lo, Max(Min(99, upper), lo))
  }

  /** For a non-empty request reaching 0, the clamped range holds exactly the
      requested difficulties that exist on the sheet's 0..99 scale. */
  lemma ClampKeepsRequested(lower: int, upper: int, d: int)
    requires 0 <= d <= 99
    ensures lower <= d <= upper ==> ClampBounds(lower, upper).0 <= d <= ClampBounds(lower, upper).1
    ensures lower <= upper && 0 <= upper && ClampBounds(lower, upper).0 <= d <= ClampBounds(lower, upper).1 ==>
      lower <= d <= upper
  {
  }

  /** What `potd_search` replies. */
  datatype SearchReply = BoundsReversed | NoPotdFound | Fetch(number: int)

  /** The query `potd_search` runs for valid bounds. */
  function SearchQuery(lower: int, upper: int, genre: string): Query
  {
    var bounds := ClampBounds(lower, upper);
    Query(bounds.0, Bound(bounds.1), GenreFilter(genre))
  }

  /** `potd_search`: refuse reversed bounds, otherwise pick one problem of the
      clamped range and the parsed genre filter, avoiding the caller's solved
      and read problems when asked to; exceptions of the pick propagate. */
  method PotdSearch(lower: int, upper: int, genre: string, searchUnsolved: bool,
                    values: seq<Row>, solved: seq<int>, read: seq<int>, cols: Columns, cal: Calendar)
    returns (r: Result<SearchReply>)
    ensures r == Ok(BoundsReversed) <==> lower > upper
    ensures lower <= upper ==>
      (var candidates := CandidateIds(values, SearchQuery(lower, upper, genre), cols, cal);
       (candidates.Raises? ==> r == Raises(candidates.exc)) &&
       (candidates.Ok? ==> r.Ok?) &&
       (r == Ok(NoPotdFound) <==> candidates == Ok([])) &&
       (r.Ok? && r.value.Fetch? ==>
          candidates.Ok? &&
          r.value.number in WinningTier(candidates.value, ExcludedIds(searchUnsolved, solved, read), [])))
  {
    if lower > upper {
      return Ok(BoundsReversed);
    }
    var filter := ParseGenreInput(genre);
    var bounds := ClampBounds(lower, upper);
    var query := Query(bounds.0, Bound(bounds.1), filter);
    var picked := PickPotd(values, query, [], ExcludedIds(searchUnsolved, solved, read), cols, cal);
    if picked.Raises? {
      return Raises(picked.exc);
    }
    if picked.value.None? {
      return Ok(NoPotdFound);
    }
    return Ok(Fetch(picked.value.value));
  }

  // ---------------------------------------------------------------------------
  // Keywords and autocomplete

  /** The row has a statement cell containing every keyword, ignoring case. */
  predicate HasKeywords(row: Row, keywords: seq<string>, col: nat)
  {
    col < |row| && forall k :: 0 <= k < |keywords| ==> IsSubstring(Lower(keywords[k]), Lower(row[col]))
  }

  /** `potds_filtered_by_keywords`: the rows with every keyword, in sheet order. */
  function KeywordFilter(values: seq<Row>, keywords: seq<string>, col: nat): (r: seq<Row>)
    ensures forall x :: x in r <==> x in values && HasKeywords(x, keywords, col)
    ensures |r| <= |values|
    decreases |values|
  {
    if values == [] then []
    else
      assert forall x :: x in values <==> x == values[0] || x in values[1..];
      (if HasKeywords(values[0], keywords, col) then [values[0]] else []) +
      KeywordFilter(values[1..], keywords, col)
  }

  /** The filter keeps sheet order: it distributes over concatenation. */
  lemma {:induction false} KeywordFilterAppend(a: seq<Row>, b: seq<Row>, keywords: seq<string>, col: nat)
    ensures KeywordFilter(a + b, keywords, col) == KeywordFilter(a, keywords, col) + KeywordFilter(b, keywords, col)
    decreases |a|
  {
    if a == [] {
      assert a + b == b;
    } else {
      var head := if HasKeywords(a[0], keywords, col) then [a[0]] else [];
      calc {
        KeywordFilter(a + b, keywords, col);
      == { assert (a + b)[0] == a[0] && (a + b)[1..] == a[1..] + b; }
        head + KeywordFilter(a[1..] + b, keywords, col);
      == { KeywordFilterAppend(a[1..], b, keywords, col); }
        head + (KeywordFilter(a[1..], keywords, col) + KeywordFilter(b, keywords, col));
      ==
        KeywordFilter(a, keywords, col) + KeywordFilter(b, keywords, col);
      }
    }
  }

  /** With no keywords every row that has a statement cell is kept. */
  lemma NoKeywordsKeepsStatements(values: seq<Row>, col: nat)
    ensures forall x :: x in KeywordFilter(values, [], col) <==> x in values && col < |x|
  {
  }

  lemma LowerUpperChar(c: char)
    ensures LowerChar(UpperChar(c)) == LowerChar(c)
  {
  }

  /** The case of a keyword does not matter. */
  lemma KeywordCaseIgnored(row: Row, keywords: seq<string>, col: nat)
    ensures HasKeywords(row, seq(|keywords|, k requires 0 <= k < |keywords| => Upper(keywords[k])), col) ==
            HasKeywords(row, keywords, col)
  {
    var upper := seq(|keywords|, k requires 0 <= k < |keywords| => Upper(keywords[k]));
    forall k | 0 <= k < |keywords| ensures Lower(upper[k]) == Lower(keywords[k]) {
      forall i | 0 <= i < |keywords[k]| ensures Lower(upper[k])[i] == Lower(keywords[k])[i] {
        LowerUpperChar(keywords[k][i]);
      }
    }
  }

  /** `statement[:100]`. */
  function Truncate(s: string, n: nat): (r: string)
    ensures |r| <= n && r <= s
    ensures |s| <= n ==> r == s
  {
    if |s| <= n then s else s[..n]
  }

  /** The autocomplete choices: the statements of the rows holding every word
      typed so far, each cut to its first 100 characters, at most 25 of them. */
  function Autocomplete(current: string, values: seq<Row>, col: nat): (r: seq<string>)
    ensures |r| <= 25
    ensures forall k :: 0 <= k < |r| ==> |r[k]| <= 100
    ensures |r| == Min(25, |KeywordFilter(values, Words(current), col)|)
    ensures forall k :: 0 <= k < |r| ==>
      (var row := KeywordFilter(values, Words(current), col)[k];
       col < |row| && r[k] <= row[col] && (|r[k]| == 100 || r[k] == row[col]))
  {
    var rows := KeywordFilter(values, Words(current), col);
    assert forall k :: 0 <= k < |rows| ==> rows[k] in rows;
    var choices := seq(|rows|, k requires 0 <= k < |rows| => Truncate(rows[k][col], 100));
    if |choices| <= 25 then choices else choices[..25]
  }

  // ---------------------------------------------------------------------------
  // potd_hint

  /** What `potd_hint` replies: the hint and whether a further hint exists. */
  datatype HintReply =
    | NoPotd
    | NoHint(hint: int)
    | BadHintNumber
    | Hint(hint: int, text: string, more: bool)

  /** The column of hint 1, 2 or 3. */
  function HintColumn(cols: Columns, hint: int): nat
    requires 1 <= hint <= 3
  {
    if hint == 1 then cols.hint1 else if hint == 2 then cols.hint2 else cols.hint3
  }

  /** `potd_hint`: the row is looked up first (its exceptions propagate); then a
      hint number outside 1..3 is refused, an absent or empty hint cell is
      reported missing, and hints 1 and 2 mention whether the next one exists. */
  function PotdHint(number: int, hint: int, values: seq<Row>, cols: Columns): (r: Result<HintReply>)
    ensures r.Raises? <==> GetPotdRow(number, values).Raises?
    ensures r == Ok(NoPotd) <==> GetPotdRow(number, values) == Ok(None)
    ensures r.Ok? && r.value != NoPotd ==> GetPotdRow(number, values).value.Some?
    ensures r == Ok(BadHintNumber) <==>
      GetPotdRow(number, values).Ok? && GetPotdRow(number, values).value.Some? && !(1 <= hint <= 3)
    ensures r.Ok? && r.value.NoHint? ==>
      1 <= hint <= 3 && r.value.hint == hint &&
      Cell(GetPotdRow(number, values).value.value, HintColumn(cols, hint)) == ""
    ensures r.Ok? && r.value.Hint? ==>
      (var row := GetPotdRow(number, values).value.value;
       1 <= hint <= 3 && r.value.hint == hint &&
       r.value.text == Cell(row, HintColumn(cols, hint)) && r.value.text != "" &&
       (r.value.more <==> hint < 3 && Cell(row, HintColumn(cols, hint + 1)) != ""))
  {
    match GetPotdRow(number, values)
    case Raises(e) => Raises(e)
    case Ok(None) => Ok(NoPotd)
    case Ok(Some(row)) =>
      if !(1 <= hint <= 3) then Ok(BadHintNumber)
      else
        var text := Cell(row, HintColumn(cols, hint));
        if text == "" then Ok(NoHint(hint))
        else Ok(Hint(hint, text, hint < 3 && Cell(row, HintColumn(cols, hint + 1)) != ""))
  }

  /** On a well-numbered sheet a hint is found exactly when problem `number`
      exists, `hint` is 1..3 and that problem's hint cell is not empty. */
  lemma HintFound(number: int, hint: int, values: seq<Row>, cols: Columns)
    requires WellNumbered(values)
    ensures PotdHint(number, hint, values, cols).Ok?
    ensures PotdHint(number, hint, values, cols).value.Hint? <==>
      1 <= hint <= 3 &&
      exists k :: 0 <= k < |values| && number >= 1 && ParseInt(values[k][0]) == Some(number) &&
        Cell(values[k], HintColumn(cols, hint)) != ""
  {
    GetPotdRowFindsNumber(values, number);
    if 1 <= hint <= 3 && exists k :: (0 <= k < |values| && number >= 1 && ParseInt(values[k][0]) == Some(number) &&
        Cell(values[k], HintColumn(cols, hint)) != "") {
      var k :| 0 <= k < |values| && number >= 1 && ParseInt(values[k][0]) == Some(number) &&
        Cell(values[k], HintColumn(cols, hint)) != "";
      RowOfNumber(values, number, k);
    }
    if PotdHint(number, hint, values, cols).value.Hint? {
      var k := CurrentPotd(values).value - number;
      assert ParseInt(values[k][0]) == Some(number);
    }
  }

}
