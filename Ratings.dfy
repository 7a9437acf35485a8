/** Difficulty ratings (cogs/ratings.py): the spoilered display of a rating,
    rating one problem, rating many problems from a multi-line message, and
    removing a rating. The ratings table has the primary key (potd, user). */
module Ratings {
  import opened PyStr

  // ---------------------------------------------------------------------------
  // Display

  /** `format`: the rating inside a spoiler and backticks, followed by one
      space inside the backticks when it is below 10. */
  function FormatRating(rating: int): (r: string)
    ensures |r| >= 8 && r[..4] == "d||`" && r[|r| - 3..] == "`||"
  {
    NatToStringDigits(if rating < 0 then -rating else rating);
    "d||`" + IntToString(rating) + (if rating >= 10 then "" else " ") + "`||"
  }

  /** The text between the backticks of a formatted rating. */
  function Shown(formatted: string): string
    requires |formatted| >= 7
  {
    formatted[4..|formatted| - 3]
  }

  lemma StripTrailingSpace(x: string)
    requires x != [] && forall i :: 0 <= i < |x| ==> !IsSpace(x[i])
    ensures Strip(x + " ") == x
  {
    var t := x + " ";
    assert TrimStart(t) == t;
    assert t[..|t| - 1] == x;
    assert TrimEnd(t) == TrimEnd(x);
    StripNoSpace(x);
    assert TrimStart(x) == x;
  }

  /** The padding rule: no padding from 10 up, one trailing space below. */
  lemma FormatPadding(rating: int)
    ensures rating >= 10 ==> Shown(FormatRating(rating)) == IntToString(rating)
    ensures rating < 10 ==> Shown(FormatRating(rating)) == IntToString(rating) + " "
  {
    var f := FormatRating(rating);
    assert f == "d||`" + (IntToString(rating) + (if rating >= 10 then "" else " ")) + "`||";
  }

  /** `int` of the shown text gives the rating back. */
  lemma FormatRoundTrip(rating: int)
    ensures ParseInt(Shown(FormatRating(rating))) == Some(rating)
  {
    var x := IntToString(rating);
    FormatPadding(rating);
    IntToStringParses(rating);
    if rating < 10 {
      PrintedIsWord(rating);
      StripTrailingSpace(x);
      assert ParseInt(x + " ") == ParseStripped(x);
    }
  }

  /** Every rating `potd_rate` accepts is displayed in the same width. */
  lemma FormatWidth(rating: int)
    requires 0 <= rating <= 14
    ensures |FormatRating(rating)| == 9 && |Shown(FormatRating(rating))| == 2
  {
    NatToStringDigits(rating);
  }

  // ---------------------------------------------------------------------------
  // The ratings table

  /** Every stored rating lies in the range `potd_rate` accepts. */
  predicate InRange(ratings: map<(int, int), int>)
  {
    forall key :: key in ratings ==> 0 <= ratings[key] <= 14
  }

  datatype RateReply = OutOfRange | Rated(shown: string) | AlreadyRated(shown: string)

  datatype RemoveReply = NotRated | RemovedRating(rating: int)

  /** One parsed line of `potd_mass_rate`. */
  datatype Entry = Entry(potd: int, rating: int)

  datatype MassReply =
    | TooMany
      /** The entries inserted, the entries skipped as rated before, and the
          lines reported as formatting errors (once per message sent). */
    | MassRated(rated: seq<Entry>, already: seq<Entry>, reported: seq<string>)
      /** A second insert of the same (potd, user) violates the primary key. */
    | DuplicateKey(potd: int, reported: seq<string>)

  // ---------------------------------------------------------------------------
  // Parsing the lines of potd_mass_rate

  /** The parse of one non-empty line exactly as written: `data[0]` and
      `data[1]` are read inside a `try` that only catches ValueError, so a
      line with no token, or with one integer token, raises IndexError. */
  function ParseLineAsWritten(line: string): (r: Result<Option<Entry>>)
    ensures r.Raises? ==> r.exc == IndexError
  {
    var data := Words(line);
    if |data| == 0 then Raises(IndexError)
    else match ParseInt(data[0])
      case None => Ok(None)
      case Some(p) =>
        if |data| == 1 then Raises(IndexError)
        else match ParseInt(data[1])
          case None => Ok(None)
          case Some(q) => Ok(Some(Entry(p, q)))
  }

  /** The parse of one line with the missing tokens handled like a
      non-integer: an entry when the first two tokens are integers, whatever
      follows them. */
  function ParseLine(line: string): Option<Entry>
  {
    var data := Words(line);
    if |data| >= 2 && ParseInt(data[0]).Some? && ParseInt(data[1]).Some? then
      Some(Entry(ParseInt(data[0]).value, ParseInt(data[1]).value))
    else None
  }

  /** The as-written parse fails exactly on a blank-but-not-empty line and on
      a line whose only token is an integer. */
  lemma AsWrittenRaisesWhen(line: string)
    ensures ParseLineAsWritten(line).Raises? <==>
      |Words(line)| == 0 || (|Words(line)| == 1 && ParseInt(Words(line)[0]).Some?)
  {
  }

  /** The corrected parse never fails, and agrees with the as-written one on
      every line that does not raise. */
  lemma ParseLineAgrees(line: string)
    ensures ParseLineAsWritten(line).Ok? ==> ParseLineAsWritten(line).value == ParseLine(line)
    ensures ParseLineAsWritten(line).Raises? ==> ParseLine(line) == None
  {
  }

  /** `"{potd} {rating}"`: the line a user writes for one entry. */
  function LineOf(e: Entry): string
  {
    IntToString(e.potd) + " " + IntToString(e.rating)
  }

  lemma {:induction false} WordLenPrefix(a: string, rest: string)
    requires forall i :: 0 <= i < |a| ==> !IsSpace(a[i])
    requires rest == [] || IsSpace(rest[0])
    ensures WordLen(a + rest) == |a|
    decreases |a|
  {
    if a != [] {
      WordLenPrefix(a[1..], rest);
      assert (a + rest)[1..] == a[1..] + rest;
    }
  }

  /** A word followed by whitespace or the end is the first token. */
  lemma WordsPrefix(a: string, rest: string)
    requires a != [] && forall i :: 0 <= i < |a| ==> !IsSpace(a[i])
    requires rest == [] || IsSpace(rest[0])
    ensures Words(a + rest) == [a] + Words(rest)
  {
    WordLenPrefix(a, rest);
    var s := a + rest;
    assert s[..|a|] == a;
    assert s[|a|..] == rest;
  }

  lemma PrintedIsWord(i: int)
    ensures IntToString(i) != [] && forall k :: 0 <= k < |IntToString(i)| ==> !IsSpace(IntToString(i)[k])
    ensures '\n' !in IntToString(i)
  {
    IntToStringParses(i);
    NatToStringDigits(if i < 0 then -i else i);
  }

  lemma WordsOfLine(e: Entry)
    ensures Words(LineOf(e)) == [IntToString(e.potd), IntToString(e.rating)]
  {
    var a, b := IntToString(e.potd), IntToString(e.rating);
    PrintedIsWord(e.potd);
    PrintedIsWord(e.rating);
    WordsPrefix(a, " " + b);
    assert LineOf(e) == a + (" " + b);
    assert Words(" " + b) == Words(b) by {
      assert (" " + b)[1..] == b;
    }
    WordsPrefix(b, "");
    assert b + "" == b;
  }

  /** A line written as `"{potd} {rating}"` parses back to the entry, and is
      not reported as a formatting error. */
  lemma LineRoundTrip(e: Entry)
    ensures ParseLine(LineOf(e)) == Some(e)
    ensures |Words(LineOf(e))| == 2
  {
    WordsOfLine(e);
    IntToStringParses(e.potd);
    IntToStringParses(e.rating);
  }

  /** A lone integer makes the as-written parse raise; the corrected parse
      treats it as a formatting error. */
  lemma LoneIntegerRaises(p: int)
    ensures ParseLineAsWritten(IntToString(p)) == Raises(IndexError)
    ensures ParseLine(IntToString(p)) == None
  {
    PrintedIsWord(p);
    WordsPrefix(IntToString(p), "");
    assert IntToString(p) + "" == IntToString(p);
    IntToStringParses(p);
  }

  /** A non-empty line of whitespace has no tokens, so it makes the as-written
      parse raise as well. */
  lemma {:induction false} BlankLineRaises(line: string)
    requires line != "" && forall i :: 0 <= i < |line| ==> IsSpace(line[i])
    ensures Words(line) == []
    ensures ParseLineAsWritten(line) == Raises(IndexError)
    ensures ParseLine(line) == None
    decreases |line|
  {
    if |line| > 1 {
      BlankLineRaises(line[1..]);
    } else {
      assert line[1..] == "";
    }
  }

  /** The entry one line contributes: none for an empty line. */
  function EntryOf(line: string): seq<Entry>
  {
    if line != "" && ParseLine(line).Some? then [ParseLine(line).value] else []
  }

  /** The entries of the lines, in order; empty lines are skipped. */
  function ParseLines(lines: seq<string>): (r: seq<Entry>)
    ensures |r| <= |lines|
    decreases |lines|
  {
    if lines == [] then [] else ParseLines(lines[..|lines| - 1]) + EntryOf(lines[|lines| - 1])
  }

  /** The loop of `potd_mass_rate` as written: the first line that raises
      aborts the command before anything is stored. */
  function ParseLinesAsWritten(lines: seq<string>): (r: Result<seq<Entry>>)
    decreases |lines|
  {
    if lines == [] then Ok([])
    else
      var last := lines[|lines| - 1];
      match ParseLinesAsWritten(lines[..|lines| - 1])
        case Raises(exc) => Raises(exc)
        case Ok(entries) =>
          if last == "" then Ok(entries)
          else match ParseLineAsWritten(last)
            case Raises(exc) => Raises(exc)
            case Ok(None) => Ok(entries)
            case Ok(Some(e)) => Ok(entries + [e])
  }

  /** When no line raises, the as-written loop finds the same entries; it
      raises exactly when some non-empty line raises. */
  lemma {:induction false} ParseLinesAgree(lines: seq<string>)
    ensures ParseLinesAsWritten(lines).Ok? ==> ParseLinesAsWritten(lines).value == ParseLines(lines)
    ensures ParseLinesAsWritten(lines).Raises? <==>
      exists k :: 0 <= k < |lines| && lines[k] != "" && ParseLineAsWritten(lines[k]).Raises?
    decreases |lines|
  {
    if lines != [] {
      var init := lines[..|lines| - 1];
      var last := lines[|lines| - 1];
      ParseLinesAgree(init);
      ParseLineAgrees(last);
      if exists k :: 0 <= k < |init| && init[k] != "" && ParseLineAsWritten(init[k]).Raises? {
        var k :| 0 <= k < |init| && init[k] != "" && ParseLineAsWritten(init[k]).Raises?;
        assert lines[k] == init[k];
      }
      if exists k :: 0 <= k < |lines| && lines[k] != "" && ParseLineAsWritten(lines[k]).Raises? {
        var k :| 0 <= k < |lines| && lines[k] != "" && ParseLineAsWritten(lines[k]).Raises?;
        if k < |init| {
          assert init[k] == lines[k];
        }
      }
    }
  }

  /** One well-written line and one lone integer: the corrected loop keeps
      the entry, the as-written loop raises and stores nothing. */
  lemma OneBadLineLosesAll(e: Entry, p: int)
    ensures ParseLinesAsWritten([LineOf(e), IntToString(p)]) == Raises(IndexError)
    ensures ParseLines([LineOf(e), IntToString(p)]) == [e]
  {
    var lines := [LineOf(e), IntToString(p)];
    LineRoundTrip(e);
    ParseLineAgrees(LineOf(e));
    LoneIntegerRaises(p);
    PrintedIsWord(p);
    PrintedIsWord(e.potd);
    AsWrittenRaisesWhen(LineOf(e));
    assert lines[..1] == [LineOf(e)];
    assert [LineOf(e)][..0] == [];
    assert ParseLineAsWritten(LineOf(e)) == Ok(Some(e));
    assert ParseLinesAsWritten([LineOf(e)]) == Ok([] + [e]);
  }

  /** The formatting-error messages one line causes: one when it does not
      hold exactly two tokens, and one more when it yields no entry. */
  function LineReports(line: string): seq<string>
  {
    if line == "" then []
    else
      (if |Words(line)| != 2 then [line] else []) +
      (if ParseLine(line).None? then [line] else [])
  }

  function Reported(lines: seq<string>): seq<string>
    decreases |lines|
  {
    if lines == [] then [] else Reported(lines[..|lines| - 1]) + LineReports(lines[|lines| - 1])
  }

  /** A non-empty line that is not two tokens which both parse as integers. */
  predicate Malformed(line: string)
  {
    line != "" && (|Words(line)| != 2 || ParseLine(line).None?)
  }

  lemma LineReportsMeans(l: string, line: string)
    ensures line in LineReports(l) <==> l == line && Malformed(line)
  {
  }

  /** The lines' entries and reports grow one line at a time. */
  lemma LinesStep(lines: seq<string>, i: nat)
    requires i < |lines|
    ensures ParseLines(lines[..i + 1]) == ParseLines(lines[..i]) + EntryOf(lines[i])
    ensures Reported(lines[..i + 1]) == Reported(lines[..i]) + LineReports(lines[i])
  {
    assert lines[..i + 1][..i] == lines[..i];
  }

  /** A line is reported exactly when it is one of the lines and malformed. */
  lemma {:induction false} ReportedMeans(lines: seq<string>, line: string)
    ensures line in Reported(lines) <==> line in lines && Malformed(line)
    decreases |lines|
  {
    if lines != [] {
      var init := lines[..|lines| - 1];
      var last := lines[|lines| - 1];
      ReportedMeans(init, line);
      LineReportsMeans(last, line);
      assert Reported(lines) == Reported(init) + LineReports(last);
      assert lines == init + [last];
    }
  }

  /** The message a user writes for a list of entries, one per line. */
  function InputOf(es: seq<Entry>): string
  {
    Join(LinesOf(es), '\n')
  }

  function LinesOf(es: seq<Entry>): (r: seq<string>)
    ensures |r| == |es|
    decreases |es|
  {
    if es == [] then []
    else
      LinesOf(es[..|es| - 1]) + [LineOf(es[|es| - 1])]
  }

  lemma {:induction false} LinesNoNewline(es: seq<Entry>)
    ensures forall k :: 0 <= k < |LinesOf(es)| ==> '\n' !in LinesOf(es)[k]
    decreases |es|
  {
    if es != [] {
      var init := es[..|es| - 1];
      var e := es[|es| - 1];
      LinesNoNewline(init);
      PrintedIsWord(e.potd);
      PrintedIsWord(e.rating);
      assert '\n' !in LineOf(e);
      assert LinesOf(es) == LinesOf(init) + [LineOf(e)];
    }
  }

  lemma LastLineClean(e: Entry)
    ensures EntryOf(LineOf(e)) == [e] && LineReports(LineOf(e)) == []
  {
    LineRoundTrip(e);
    PrintedIsWord(e.potd);
    assert LineOf(e) != "";
  }

  lemma {:induction false} LinesRoundTrip(es: seq<Entry>)
    ensures ParseLines(LinesOf(es)) == es && Reported(LinesOf(es)) == []
    decreases |es|
  {
    var lines := LinesOf(es);
    if es != [] {
      var init := es[..|es| - 1];
      var e := es[|es| - 1];
      assert es == init + [e];
      LinesRoundTrip(init);
      assert lines == LinesOf(init) + [LineOf(e)];
      assert lines[..|es| - 1] == LinesOf(init);
      LastLineClean(e);
    }
  }

  /** Writing entries one per line and parsing the message gives the entries
      back, with no formatting error. */
  lemma InputRoundTrip(es: seq<Entry>)
    requires es != []
    ensures Split(InputOf(es), '\n') == LinesOf(es)
    ensures ParseLines(Split(InputOf(es), '\n')) == es
    ensures Reported(Split(InputOf(es), '\n')) == []
  {
    LinesNoNewline(es);
    SplitJoin(LinesOf(es), '\n');
    LinesRoundTrip(es);
  }

  // ---------------------------------------------------------------------------
  // Partition and insertion

  /** `unrated`: the entries whose problem the user had not rated. */
  function UnratedOf(es: seq<Entry>, ratings: map<(int, int), int>, user: int): (r: seq<Entry>)
    ensures forall e :: e in r <==> e in es && (e.potd, user) !in ratings
    decreases |es|
  {
    if es == [] then []
    else
      var last := es[|es| - 1];
      UnratedOf(es[..|es| - 1], ratings, user) + (if (last.potd, user) !in ratings then [last] else [])
  }

  /** `already_rated`: the entries whose problem the user had rated. */
  function AlreadyRatedOf(es: seq<Entry>, ratings: map<(int, int), int>, user: int): (r: seq<Entry>)
    ensures forall e :: e in r <==> e in es && (e.potd, user) in ratings
    decreases |es|
  {
    if es == [] then []
    else
      var last := es[|es| - 1];
      AlreadyRatedOf(es[..|es| - 1], ratings, user) + (if (last.potd, user) in ratings then [last] else [])
  }

  /** Every entry lands in exactly one of the two lists, as often as it was
      written. */
  lemma {:induction false} PartitionCounts(es: seq<Entry>, ratings: map<(int, int), int>, user: int)
    ensures multiset(UnratedOf(es, ratings, user)) + multiset(AlreadyRatedOf(es, ratings, user)) == multiset(es)
    decreases |es|
  {
    if es != [] {
      var init := es[..|es| - 1];
      PartitionCounts(init, ratings, user);
      assert es == init + [es[|es| - 1]];
    }
  }

  /** The table after inserting the entries in order. */
  function InsertAll(ratings: map<(int, int), int>, user: int, es: seq<Entry>): (r: map<(int, int), int>)
    ensures ratings.Keys <= r.Keys
    ensures forall a :: 0 <= a < |es| ==> (es[a].potd, user) in r
    decreases |es|
  {
    if es == [] then ratings
    else
      var last := es[|es| - 1];
      InsertAll(ratings, user, es[..|es| - 1])[(last.potd, user) := last.rating]
  }

  predicate DistinctPotds(es: seq<Entry>)
  {
    forall a, b :: 0 <= a < b < |es| ==> es[a].potd != es[b].potd
  }

  /** How many entries insert before one repeats an earlier problem. */
  function DistinctPrefix(es: seq<Entry>): (m: nat)
    ensures m <= |es| && DistinctPotds(es[..m])
    ensures m < |es| ==> exists a :: 0 <= a < m && es[a].potd == es[m].potd
    decreases |es|
  {
    if es == [] then 0
    else
      var init := es[..|es| - 1];
      var p := DistinctPrefix(init);
      assert init[..p] == es[..p];
      if p < |init| then
        assert init[p] == es[p];
        p
      else if exists a :: 0 <= a < |init| && es[a].potd == es[|init|].potd then |init|
      else
        assert es[..|es|] == es;
        |es|
  }

  /** A distinct prefix followed by a repeat is where `DistinctPrefix` stops. */
  lemma DistinctPrefixAt(es: seq<Entry>, j: nat)
    requires j <= |es| && DistinctPotds(es[..j])
    requires j < |es| ==> exists a :: 0 <= a < j && es[a].potd == es[j].potd
    ensures DistinctPrefix(es) == j
  {
    var m := DistinctPrefix(es);
    if m < j {
      var a :| 0 <= a < m && es[a].potd == es[m].potd;
      DistinctAt(es, j, a, m);
    } else if m > j {
      var a :| 0 <= a < j && es[a].potd == es[j].potd;
      DistinctAt(es, m, a, j);
    }
  }

  lemma DistinctAt(es: seq<Entry>, n: nat, a: nat, b: nat)
    requires a < b < n <= |es| && DistinctPotds(es[..n])
    ensures es[a].potd != es[b].potd
  {
    assert es[..n][a] == es[a] && es[..n][b] == es[b];
  }

  lemma DistinctExtend(es: seq<Entry>, j: nat)
    requires j < |es| && DistinctPotds(es[..j])
    requires forall a :: 0 <= a < j ==> es[a].potd != es[j].potd
    ensures DistinctPotds(es[..j + 1])
  {
    var s := es[..j + 1];
    forall a, b | 0 <= a < b < |s|
      ensures s[a].potd != s[b].potd
    {
      if b < j {
        assert es[..j][a] == s[a] && es[..j][b] == s[b];
      }
    }
  }

  /** The keys after inserting: the old ones and the user's key for every
      entry. */
  lemma {:induction false} InsertAllKeys(ratings: map<(int, int), int>, user: int, es: seq<Entry>, key: (int, int))
    ensures key in InsertAll(ratings, user, es) <==>
      key in ratings || (key.1 == user && exists a :: 0 <= a < |es| && es[a].potd == key.0)
    decreases |es|
  {
    if es != [] {
      var init := es[..|es| - 1];
      InsertAllKeys(ratings, user, init, key);
      if exists a :: 0 <= a < |init| && init[a].potd == key.0 {
        var a :| 0 <= a < |init| && init[a].potd == key.0;
        assert es[a] == init[a];
      }
      if exists a :: 0 <= a < |es| && es[a].potd == key.0 {
        var a :| 0 <= a < |es| && es[a].potd == key.0;
        if a < |init| {
          assert init[a] == es[a];
        }
      }
    }
  }

  /** With distinct problems, each entry's rating is stored as written,
      with no range check, and every other key keeps its rating. */
  lemma {:induction false} InsertAllValues(ratings: map<(int, int), int>, user: int, es: seq<Entry>)
    requires DistinctPotds(es)
    ensures forall a :: 0 <= a < |es| ==> InsertAll(ratings, user, es)[(es[a].potd, user)] == es[a].rating
    ensures forall key :: key in ratings && (key.1 != user || forall a :: 0 <= a < |es| ==> es[a].potd != key.0) ==>
      InsertAll(ratings, user, es)[key] == ratings[key]
    decreases |es|
  {
    if es != [] {
      var init := es[..|es| - 1];
      assert DistinctPotds(init) by {
        forall a, b | 0 <= a < b < |init| ensures init[a].potd != init[b].potd {
          assert init[a] == es[a] && init[b] == es[b];
        }
      }
      InsertAllValues(ratings, user, init);
      forall a | 0 <= a < |init|
        ensures (es[a].potd, user) in InsertAll(ratings, user, init)
      {
        InsertAllKeys(ratings, user, init, (es[a].potd, user));
        assert init[a] == es[a];
      }
      forall key | key in ratings && (key.1 != user || forall a :: 0 <= a < |es| ==> es[a].potd != key.0)
        ensures InsertAll(ratings, user, es)[key] == ratings[key]
      {
        if key.1 == user {
          forall a | 0 <= a < |init| ensures init[a].potd != key.0 {
            assert init[a] == es[a];
          }
        }
      }
    }
  }

  /** `potd_mass_rate` stores a rating `potd_rate` refuses: one line
      `"{potd} {rating}"` for a problem the user has not rated stores the
      rating even when it lies outside 0..14. */
  lemma MassRateStoresAnyRating(ratings: map<(int, int), int>, user: int, potd: int, rating: int)
    requires (potd, user) !in ratings
    requires rating < 0 || rating > 14
    ensures var es := ParseLines(Split(InputOf([Entry(potd, rating)]), '\n'));
      var unrated := UnratedOf(es, ratings, user);
      DistinctPrefix(unrated) == |unrated| && !InRange(InsertAll(ratings, user, unrated))
  {
    var e := Entry(potd, rating);
    InputRoundTrip([e]);
    var unrated := UnratedOf([e], ratings, user);
    assert [e][..0] == [];
    assert UnratedOf([], ratings, user) == [];
    assert unrated == UnratedOf([e][..0], ratings, user) + [e];
    DistinctPrefixAt(unrated, 1);
    assert InsertAll(ratings, user, unrated)[(potd, user)] == rating;
  }

  // ---------------------------------------------------------------------------
  // The commands

  class RatingsTable {
    /** The rating of each (potd, user). */
    var ratings: map<(int, int), int>

    constructor ()
      ensures ratings == map[]
    {
      ratings := map[];
    }

    /** `potd_rate`: refuse a rating outside 0..14; otherwise insert it when
        the user has not rated the problem, and replace the old one only when
        `overwrite` is set. The reply shows the rating just given. */
    method Rate(potd: int, user: int, rating: int, overwrite: bool) returns (r: RateReply)
      modifies this
      ensures (rating < 0 || rating > 14) ==> r == OutOfRange && ratings == old(ratings)
      ensures 0 <= rating <= 14 && (potd, user) !in old(ratings) ==>
        r == Rated(FormatRating(rating)) && ratings == old(ratings)[(potd, user) := rating]
      ensures 0 <= rating <= 14 && (potd, user) in old(ratings) && !overwrite ==>
        r == AlreadyRated(FormatRating(rating)) && ratings == old(ratings)
      ensures 0 <= rating <= 14 && (potd, user) in old(ratings) && overwrite ==>
        r == Rated(FormatRating(rating)) && ratings == old(ratings)[(potd, user) := rating]
      ensures InRange(old(ratings)) ==> InRange(ratings)
    {
      if rating < 0 || rating > 14 {
        return OutOfRange;
      }
      if (potd, user) !in ratings {
        ratings := ratings[(potd, user) := rating];
        return Rated(FormatRating(rating));
      }
      if !overwrite {
        return AlreadyRated(FormatRating(rating));
      }
      ratings := ratings[(potd, user) := rating];
      r := Rated(FormatRating(rating));
    }

    /** `potd_rating_remove`: delete the user's rating of the problem when
        there is one, reporting the rating removed. */
    method RemoveRating(potd: int, user: int) returns (r: RemoveReply)
      modifies this
      ensures (potd, user) !in old(ratings) ==> r == NotRated && ratings == old(ratings)
      ensures (potd, user) in old(ratings) ==>
        r == RemovedRating(old(ratings)[(potd, user)]) && ratings == old(ratings) - {(potd, user)}
      ensures InRange(old(ratings)) ==> InRange(ratings)
    {
      if (potd, user) !in ratings {
        return NotRated;
      }
      r := RemovedRating(ratings[(potd, user)]);
      ratings := ratings - {(potd, user)};
    }

    /** `potd_mass_rate`: refuse more than 200 lines; parse every non-empty
        line, reporting formatting errors; split the entries by whether the
        user had rated the problem before the call; insert the others in
        order. A problem written twice among them makes the second insert
        violate the primary key, which ends the command after the inserts
        before it. */
    method MassRate(user: int, input: string) returns (r: MassReply)
      modifies this
      ensures |Split(input, '\n')| > 200 ==> r == TooMany && ratings == old(ratings)
      ensures |Split(input, '\n')| <= 200 ==>
        var lines := Split(input, '\n');
        var entries := ParseLines(lines);
        var unrated := UnratedOf(entries, old(ratings), user);
        var m := DistinctPrefix(unrated);
        ratings == InsertAll(old(ratings), user, unrated[..m]) &&
        r == (if m == |unrated| then MassRated(unrated, AlreadyRatedOf(entries, old(ratings), user), Reported(lines))
              else DuplicateKey(unrated[m].potd, Reported(lines)))
    {
      var lines := Split(input, '\n');
      if |lines| > 200 {
        return TooMany;
      }
      var entries, reported := ParseAndReport(lines);
      var unrated := UnratedOf(entries, ratings, user);
      var already := AlreadyRatedOf(entries, ratings, user);
      var j := InsertUnrated(user, unrated);
      if j < |unrated| {
        return DuplicateKey(unrated[j].potd, reported);
      }
      r := MassRated(unrated, already, reported);
    }

    /** The loop over the lines of `potd_mass_rate`. */
    static method ParseAndReport(lines: seq<string>) returns (entries: seq<Entry>, reported: seq<string>)
      ensures entries == ParseLines(lines) && reported == Reported(lines)
    {
      entries, reported := [], [];
      var i := 0;
      while i < |lines|
        invariant 0 <= i <= |lines|
        invariant entries == ParseLines(lines[..i]) && reported == Reported(lines[..i])
      {
        LinesStep(lines, i);
        var entry, reports := ParseOne(lines[i]);
        entries, reported := entries + entry, reported + reports;
        i := i + 1;
      }
      assert lines[..i] == lines;
    }

    /** One pass of that loop: a formatting error when the line does not
        hold two tokens, and another when they are not both integers. */
    static method ParseOne(line: string) returns (entry: seq<Entry>, reports: seq<string>)
      ensures entry == EntryOf(line) && reports == LineReports(line)
    {
      entry, reports := [], [];
      if line != "" {
        var data := Words(line);
        if |data| != 2 {
          reports := reports + [line];
        }
        match ParseLine(line)
        case Some(e) =>
          entry := [e];
        case None =>
          reports := reports + [line];
      }
    }

    /** The insert loop of `potd_mass_rate`: stops at the first entry whose
        key is already present, and returns how many entries were inserted. */
    method InsertUnrated(user: int, unrated: seq<Entry>) returns (j: nat)
      modifies this
      requires forall a :: 0 <= a < |unrated| ==> (unrated[a].potd, user) !in ratings
      ensures j == DistinctPrefix(unrated)
      ensures ratings == InsertAll(old(ratings), user, unrated[..j])
    {
      j := 0;
      while j < |unrated|
        invariant 0 <= j <= |unrated| && DistinctPotds(unrated[..j])
        invariant ratings == InsertAll(old(ratings), user, unrated[..j])
      {
        var e := unrated[j];
        InsertAllKeys(old(ratings), user, unrated[..j], (e.potd, user));
        if (e.potd, user) in ratings {
          var a :| 0 <= a < j && unrated[..j][a].potd == e.potd;
          assert unrated[a] == unrated[..j][a];
          DistinctPrefixAt(unrated, j);
          return;
        }
        ratings := ratings[(e.potd, user) := e.rating];
        assert unrated[..j + 1][..j] == unrated[..j];
        forall a | 0 <= a < j
          ensures unrated[a].potd != e.potd
        {
          assert unrated[..j][a] == unrated[a];
        }
        DistinctExtend(unrated, j);
        j := j + 1;
      }
      DistinctPrefixAt(unrated, j);
    }
  }
}
