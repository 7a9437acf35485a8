/** The solved, read and TODO lists (cogs/marking.py): a status table keyed by
    user and problem, the commands that mark and unmark problems, the unrated
    lists, the grouping of a list by difficulty or subject, and the splitting
    of a long reply into messages. */
module Marking {
  import opened PyStr
  import opened Sheet

  // ---------------------------------------------------------------------------
  // Input

  /** `int(i)` for every piece, or None when one piece is not an integer. */
  function ParseAll(pieces: seq<string>): (r: Option<seq<int>>)
    ensures r.Some? <==> forall k :: 0 <= k < |pieces| ==> ParseInt(pieces[k]).Some?
    ensures r.Some? ==> |r.value| == |pieces| && forall k :: 0 <= k < |pieces| ==> ParseInt(pieces[k]) == Some(r.value[k])
    decreases |pieces|
  {
    if pieces == [] then Some([])
    else
      var rest := ParseAll(pieces[..|pieces| - 1]);
      var last := ParseInt(pieces[|pieces| - 1]);
      if rest.None? || last.None? then None else Some(rest.value + [last.value])
  }

  /** `[int(i) for i in user_input.split(",")]`. */
  function ParseNumbers(input: string): Option<seq<int>>
  {
    ParseAll(Split(input, ','))
  }

  /** Empty input is one empty piece, which `int` refuses: a parsed list is never empty. */
  lemma ParsedNumbersNonEmpty(input: string)
    requires ParseNumbers(input).Some?
    ensures |ParseNumbers(input).value| >= 1
  {
  }

  /** `str(n)` for each number. */
  function Printed(ns: seq<int>): seq<string>
  {
    seq(|ns|, k requires 0 <= k < |ns| => IntToString(ns[k]))
  }

  /** Each printed number is comma-free and parses back. */
  lemma PrintedPieces(ns: seq<int>)
    ensures forall k :: 0 <= k < |ns| ==> ',' !in Printed(ns)[k] && ParseInt(Printed(ns)[k]) == Some(ns[k])
  {
    forall k | 0 <= k < |ns| ensures ',' !in Printed(ns)[k] && ParseInt(Printed(ns)[k]) == Some(ns[k]) {
      var s := IntToString(ns[k]);
      IntToStringParses(ns[k]);
    }
  }

  /** The comma-joined lists the bot prints parse back to the same numbers. */
  lemma PrintedNumbersParse(ns: seq<int>)
    requires |ns| >= 1
    ensures ParseNumbers(Join(Printed(ns), ',')) == Some(ns)
  {
    var printed := Printed(ns);
    PrintedPieces(ns);
    SplitJoin(printed, ',');
    var r := ParseAll(printed);
    assert r.value == ns;
  }

  // ---------------------------------------------------------------------------
  // The status table as a specification

  /** The user's entry for problem n holds this status. */
  predicate HasStatus(entries: map<(int, int), string>, user: int, n: int, status: string)
  {
    (user, n) in entries && entries[(user, n)] == status
  }

  /** The table after marking each number in turn. */
  function Marked(entries: map<(int, int), string>, user: int, ns: seq<int>, status: string): map<(int, int), string>
    decreases |ns|
  {
    if ns == [] then entries
    else Marked(entries, user, ns[..|ns| - 1], status)[(user, ns[|ns| - 1]) := status]
  }

  /** Marking sets every listed number to the status and changes no other entry. */
  lemma {:induction false} MarkedSpec(entries: map<(int, int), string>, user: int, ns: seq<int>, status: string)
    ensures forall key :: key in Marked(entries, user, ns, status) <==>
      key in entries || (key.0 == user && key.1 in ns)
    ensures forall key :: key in Marked(entries, user, ns, status) ==>
      Marked(entries, user, ns, status)[key] == if key.0 == user && key.1 in ns then status else entries[key]
    decreases |ns|
  {
    if ns != [] {
      var init := ns[..|ns| - 1];
      MarkedSpec(entries, user, init, status);
      assert forall n :: n in ns <==> n in init || n == ns[|ns| - 1] by {
        assert ns == init + [ns[|ns| - 1]];
      }
    }
  }

  /** Sending one more element to one of two lists keeps them a split of the input. */
  lemma SplitStep(a0: seq<int>, b0: seq<int>, xs: seq<int>, x: int, a: seq<int>, b: seq<int>)
    requires multiset(a0) + multiset(b0) == multiset(xs)
    requires (a == a0 + [x] && b == b0) || (a == a0 && b == b0 + [x])
    ensures multiset(a) + multiset(b) == multiset(xs + [x])
    ensures |a| + |b| == |xs| + 1
  {
    assert |multiset(a0)| + |multiset(b0)| == |multiset(xs)|;
  }

  /** Number k of the input is reported "already": when the loop reaches it,
      the table already holds the status. */
  predicate IsAlready(entries: map<(int, int), string>, user: int, ns: seq<int>, status: string, k: nat)
    requires k < |ns|
  {
    HasStatus(Marked(entries, user, ns[..k], status), user, ns[k], status)
  }

  /** A number is "already" exactly when the table held the status before the
      command or the number occurred earlier in the same input. */
  lemma AlreadyMeans(entries: map<(int, int), string>, user: int, ns: seq<int>, status: string, k: nat)
    requires k < |ns|
    ensures IsAlready(entries, user, ns, status, k) <==> HasStatus(entries, user, ns[k], status) || ns[k] in ns[..k]
  {
    MarkedSpec(entries, user, ns[..k], status);
  }

  /** The numbers reported "already", in input order. */
  function AlreadyOf(entries: map<(int, int), string>, user: int, ns: seq<int>, status: string): seq<int>
    decreases |ns|
  {
    if ns == [] then []
    else
      var init := ns[..|ns| - 1];
      AlreadyOf(entries, user, init, status) +
      (if HasStatus(Marked(entries, user, init, status), user, ns[|ns| - 1], status) then [ns[|ns| - 1]] else [])
  }

  /** The numbers reported "added", in input order. */
  function AddedOf(entries: map<(int, int), string>, user: int, ns: seq<int>, status: string): seq<int>
    decreases |ns|
  {
    if ns == [] then []
    else
      var init := ns[..|ns| - 1];
      AddedOf(entries, user, init, status) +
      (if HasStatus(Marked(entries, user, init, status), user, ns[|ns| - 1], status) then [] else [ns[|ns| - 1]])
  }

  /** The last number goes to exactly one of the two reports. */
  lemma ReportOne(entries: map<(int, int), string>, user: int, ns: seq<int>, status: string)
    requires ns != []
    ensures
      (var init, x := ns[..|ns| - 1], ns[|ns| - 1];
       (AddedOf(entries, user, ns, status) == AddedOf(entries, user, init, status) + [x] &&
        AlreadyOf(entries, user, ns, status) == AlreadyOf(entries, user, init, status)) ||
       (AddedOf(entries, user, ns, status) == AddedOf(entries, user, init, status) &&
        AlreadyOf(entries, user, ns, status) == AlreadyOf(entries, user, init, status) + [x]))
  {
  }

  /** Every number is reported exactly once, as added or as already there. */
  lemma {:induction false} AddedAlreadyPartition(entries: map<(int, int), string>, user: int, ns: seq<int>, status: string)
    ensures |AddedOf(entries, user, ns, status)| + |AlreadyOf(entries, user, ns, status)| == |ns|
    ensures multiset(AddedOf(entries, user, ns, status)) + multiset(AlreadyOf(entries, user, ns, status)) == multiset(ns)
    decreases |ns|
  {
    if ns != [] {
      var init := ns[..|ns| - 1];
      var x := ns[|ns| - 1];
      AddedAlreadyPartition(entries, user, init, status);
      assert ns == init + [x];
      ReportOne(entries, user, ns, status);
      SplitStep(AddedOf(entries, user, init, status), AlreadyOf(entries, user, init, status), init, x,
                AddedOf(entries, user, ns, status), AlreadyOf(entries, user, ns, status));
    }
  }

  /** The row of an added number is missing or too short to hold a statement. */
  predicate NoPotd(n: int, values: seq<Row>, cols: Columns)
    requires CurrentPotd(values).Ok?
  {
    var row := GetPotdRow(n, values).value;
    row.None? || |row.value| <= cols.statement
  }

  /** The row of an added number exists and has a non-empty discussion cell. */
  predicate HasDiscussion(n: int, values: seq<Row>, cols: Columns)
    requires CurrentPotd(values).Ok?
  {
    !NoPotd(n, values, cols) && Cell(GetPotdRow(n, values).value.value, cols.discussion) != ""
  }

  /** The added numbers without a problem, in order. */
  function NoPotdOf(added: seq<int>, values: seq<Row>, cols: Columns): (r: seq<int>)
    requires CurrentPotd(values).Ok?
    ensures forall n :: n in r <==> n in added && NoPotd(n, values, cols)
    decreases |added|
  {
    if added == [] then []
    else
      var init := added[..|added| - 1];
      var n := added[|added| - 1];
      assert forall x :: x in added <==> x in init || x == n by { assert added == init + [n]; }
      NoPotdOf(init, values, cols) + (if NoPotd(n, values, cols) then [n] else [])
  }

  /** The added numbers with a discussion, in order. */
  function DiscussedOf(added: seq<int>, values: seq<Row>, cols: Columns): (r: seq<int>)
    requires CurrentPotd(values).Ok?
    ensures forall n :: n in r <==> n in added && HasDiscussion(n, values, cols)
    decreases |added|
  {
    if added == [] then []
    else
      var init := added[..|added| - 1];
      var n := added[|added| - 1];
      assert forall x :: x in added <==> x in init || x == n by { assert added == init + [n]; }
      DiscussedOf(init, values, cols) + (if HasDiscussion(n, values, cols) then [n] else [])
  }

  /** The table after unmarking: an entry goes when it belongs to the user, its
      number is listed, and it holds the given status. */
  function Unmarked(entries: map<(int, int), string>, user: int, ns: seq<int>, status: string): map<(int, int), string>
  {
    map key | key in entries && !(key.0 == user && key.1 in ns && entries[key] == status) :: entries[key]
  }

  /** Unmarking right after marking the same numbers with the same status
      removes the user's entries for them and restores every other entry. */
  lemma UnmarkAfterMark(entries: map<(int, int), string>, user: int, ns: seq<int>, status: string)
    ensures forall n :: n in ns ==> (user, n) !in Unmarked(Marked(entries, user, ns, status), user, ns, status)
    ensures forall key :: key in entries && !(key.0 == user && key.1 in ns) ==>
      key in Unmarked(Marked(entries, user, ns, status), user, ns, status) &&
      Unmarked(Marked(entries, user, ns, status), user, ns, status)[key] == entries[key]
  {
    MarkedSpec(entries, user, ns, status);
  }

  // ---------------------------------------------------------------------------
  // The commands

  /** How `potd_status_update` sorts the numbers it was given. */
  datatype Report = Report(added: seq<int>, already: seq<int>, noPotd: seq<int>, hasDiscussion: seq<int>)

  datatype UpdateReply = UpdateNotIntegers | UpdateTooMany | Updated(report: Report)

  datatype RemoveReply = RemoveNotIntegers | RemoveTooMany | Removed(numbers: seq<int>)

  /** The lines of the confirmation message. */
  datatype Note =
    | AddedNote(numbers: seq<int>, rateHint: bool)
    | AlreadyNote(numbers: seq<int>)
    | NoPotdNote(numbers: seq<int>)
    | DiscussionNote(numbers: seq<int>)

  /** The confirmation: one line per non-empty list, in this order; a single
      added number of a non-TODO list suggests rating it, and discussions are
      mentioned only for the solved and read lists. */
  function Notes(report: Report, status: string): (r: seq<Note>)
    ensures |r| <= 4
    ensures DiscussionNote(report.hasDiscussion) in r <==> status != "todo" && report.hasDiscussion != []
    ensures forall k :: 0 <= k < |r| && r[k].DiscussionNote? ==> status != "todo"
    ensures AddedNote(report.added, true) in r <==> |report.added| == 1 && status != "todo"
    ensures forall k :: 0 <= k < |r| ==> r[k].numbers != []
  {
    (if report.added != [] then [AddedNote(report.added, |report.added| == 1 && status != "todo")] else []) +
    (if report.already != [] then [AlreadyNote(report.already)] else []) +
    (if report.noPotd != [] then [NoPotdNote(report.noPotd)] else []) +
    (if status != "todo" && report.hasDiscussion != [] then [DiscussionNote(report.hasDiscussion)] else [])
  }

  /** The status of every (user, problem) pair; one table serves the solved,
      read and TODO lists. */
  class StatusTable {
    var entries: map<(int, int), string>

    constructor ()
      ensures entries == map[]
    {
      entries := map[];
    }

    /** `potd_status_update`: parse the numbers, refuse non-integers and more
        than 200, then set each number to the status, reporting it "already" when
        it held the status and "added" otherwise; added numbers are checked
        against the sheet for a missing problem or a discussion. Looking up a
        row raises when the sheet's first cell is unreadable. */
    method StatusUpdate(user: int, input: string, status: string, values: seq<Row>, cols: Columns)
      returns (r: Result<UpdateReply>)
      modifies this
      ensures ParseNumbers(input).None? ==> r == Ok(UpdateNotIntegers) && entries == old(entries)
      ensures ParseNumbers(input).Some? && |ParseNumbers(input).value| > 200 ==>
        r == Ok(UpdateTooMany) && entries == old(entries)
      ensures r.Ok? && r.value.Updated? ==>
        (var ns := ParseNumbers(input).value;
         var added := AddedOf(old(entries), user, ns, status);
         var report := r.value.report;
         |ns| <= 200 &&
         entries == Marked(old(entries), user, ns, status) &&
         report.added == added && report.already == AlreadyOf(old(entries), user, ns, status) &&
         (added != [] ==>
            (CurrentPotd(values).Ok? &&
             report.noPotd == NoPotdOf(added, values, cols) && report.hasDiscussion == DiscussedOf(added, values, cols))) &&
         (added == [] ==> report.noPotd == [] && report.hasDiscussion == []))
      ensures ParseNumbers(input).Some? && |ParseNumbers(input).value| <= 200 ==> r.Raises? || r.value.Updated?
      ensures r.Raises? <==>
        ParseNumbers(input).Some? && |ParseNumbers(input).value| <= 200 &&
        CurrentPotd(values).Raises? && AddedOf(old(entries), user, ParseNumbers(input).value, status) != []
      ensures r.Raises? ==>
        (var ns := ParseNumbers(input).value;
         r.exc == CurrentPotd(values).exc &&
         exists k :: 0 <= k < |ns| && AddedOf(old(entries), user, ns[..k], status) == [] &&
           AddedOf(old(entries), user, ns[..k + 1], status) == [ns[k]] &&
           entries == Marked(old(entries), user, ns[..k + 1], status))
    {
      var parsed := ParseNumbers(input);
      if parsed.None? {
        return Ok(UpdateNotIntegers);
      }
      var ns := parsed.value;
      if |ns| > 200 {
        return Ok(UpdateTooMany);
      }
      r := MarkAll(user, ns, status, values, cols);
    }

    /** The marking loop of `potd_status_update` over the parsed numbers. */
    method MarkAll(user: int, ns: seq<int>, status: string, values: seq<Row>, cols: Columns)
      returns (r: Result<UpdateReply>)
      modifies this
      ensures r.Ok? ==>
        (var added := AddedOf(old(entries), user, ns, status);
         r.value.Updated? &&
         entries == Marked(old(entries), user, ns, status) &&
         r.value.report.added == added && r.value.report.already == AlreadyOf(old(entries), user, ns, status) &&
         (added != [] ==>
            (CurrentPotd(values).Ok? &&
             r.value.report.noPotd == NoPotdOf(added, values, cols) &&
             r.value.report.hasDiscussion == DiscussedOf(added, values, cols))) &&
         (added == [] ==> r.value.report.noPotd == [] && r.value.report.hasDiscussion == []))
      ensures r.Raises? <==> CurrentPotd(values).Raises? && AddedOf(old(entries), user, ns, status) != []
      ensures r.Raises? ==>
        (r.exc == CurrentPotd(values).exc &&
         exists k :: 0 <= k < |ns| && AddedOf(old(entries), user, ns[..k], status) == [] &&
           AddedOf(old(entries), user, ns[..k + 1], status) == [ns[k]] &&
           entries == Marked(old(entries), user, ns[..k + 1], status))
    {
      var added, already, noPotd, discussed := [], [], [], [];
      for i := 0 to |ns|
        invariant entries == Marked(old(entries), user, ns[..i], status)
        invariant added == AddedOf(old(entries), user, ns[..i], status)
        invariant already == AlreadyOf(old(entries), user, ns[..i], status)
        invariant added != [] ==>
          (CurrentPotd(values).Ok? && noPotd == NoPotdOf(added, values, cols) && discussed == DiscussedOf(added, values, cols))
        invariant added == [] ==> noPotd == [] && discussed == []
      {
        var n := ns[i];
        UpdateStep(old(entries), user, ns, status, i);
        if (user, n) in entries && entries[(user, n)] == status {
          already := already + [n];
        } else {
          entries := entries[(user, n) := status];
          var found := LookUpAdded(n, values, cols);
          if found.Raises? {
            AddedOfPrefix(old(entries), user, ns, status, i + 1);
            return Raises(found.exc);
          }
          NotesAppend(added, n, values, cols);
          added := added + [n];
          if found.value.0 {
            noPotd := noPotd + [n];
          } else if found.value.1 {
            discussed := discussed + [n];
          }
        }
      }
      assert ns[..|ns|] == ns;
      return Ok(Updated(Report(added, already, noPotd, discussed)));
    }

    /** `potd_status_remove`: parse as above, then delete the user's entry for
        each number only when it holds the given status. */
    method StatusRemove(user: int, input: string, status: string) returns (r: RemoveReply)
      modifies this
      ensures ParseNumbers(input).None? ==> r == RemoveNotIntegers && entries == old(entries)
      ensures ParseNumbers(input).Some? && |ParseNumbers(input).value| > 200 ==>
        r == RemoveTooMany && entries == old(entries)
      ensures ParseNumbers(input).Some? && |ParseNumbers(input).value| <= 200 ==>
        r == Removed(ParseNumbers(input).value)
      ensures r.Removed? ==>
        ParseNumbers(input) == Some(r.numbers) && |r.numbers| <= 200 &&
        entries == Unmarked(old(entries), user, r.numbers, status)
    {
      var parsed := ParseNumbers(input);
      if parsed.None? {
        return RemoveNotIntegers;
      }
      var ns := parsed.value;
      if |ns| > 200 {
        return RemoveTooMany;
      }
      for i := 0 to |ns|
        invariant entries == Unmarked(old(entries), user, ns[..i], status)
      {
        UnmarkStep(old(entries), user, ns, status, i);
        var key := (user, ns[i]);
        if key in entries && entries[key] == status {
          entries := map k | k in entries && k != key :: entries[k];
        }
      }
      assert ns[..|ns|] == ns;
      return Removed(ns);
    }
  }

  /** The sheet check for one added number: whether its problem is missing,
      and whether it has a discussion. Looking up the row raises exactly when
      the sheet's first cell is unreadable. */
  method LookUpAdded(n: int, values: seq<Row>, cols: Columns) returns (r: Result<(bool, bool)>)
    ensures r.Raises? <==> CurrentPotd(values).Raises?
    ensures r.Raises? ==> r.exc == CurrentPotd(values).exc
    ensures r.Ok? ==> r.value == (NoPotd(n, values, cols), HasDiscussion(n, values, cols))
  {
    var row := GetPotdRow(n, values);
    if row.Raises? {
      return Raises(row.exc);
    }
    if row.value.None? || |row.value.value| <= cols.statement {
      return Ok((true, false));
    }
    return Ok((false, Cell(row.value.value, cols.discussion) != ""));
  }

  /** The numbers added for a prefix of the input are never more than those
      added for the whole input. */
  lemma {:induction false} AddedOfPrefix(entries: map<(int, int), string>, user: int, ns: seq<int>, status: string, j: nat)
    requires j <= |ns|
    ensures |AddedOf(entries, user, ns[..j], status)| <= |AddedOf(entries, user, ns, status)|
    decreases |ns|
  {
    if j < |ns| {
      var init := ns[..|ns| - 1];
      assert ns[..j] == init[..j];
      AddedOfPrefix(entries, user, init, status, j);
    } else {
      assert ns[..j] == ns;
    }
  }

  /** One step of the marking loop. */
  lemma UpdateStep(entries: map<(int, int), string>, user: int, ns: seq<int>, status: string, i: nat)
    requires i < |ns|
    ensures
      (var before := Marked(entries, user, ns[..i], status);
       var n := ns[i];
       Marked(entries, user, ns[..i + 1], status) == before[(user, n) := status] &&
       (HasStatus(before, user, n, status) ==> before[(user, n) := status] == before) &&
       AddedOf(entries, user, ns[..i + 1], status) ==
         AddedOf(entries, user, ns[..i], status) + (if HasStatus(before, user, n, status) then [] else [n]) &&
       AlreadyOf(entries, user, ns[..i + 1], status) ==
         AlreadyOf(entries, user, ns[..i], status) + (if HasStatus(before, user, n, status) then [n] else []))
  {
    assert ns[..i + 1][..i] == ns[..i];
  }

  /** Reporting one more added number. */
  lemma NotesAppend(added: seq<int>, n: int, values: seq<Row>, cols: Columns)
    requires CurrentPotd(values).Ok?
    ensures NoPotdOf(added + [n], values, cols) == NoPotdOf(added, values, cols) + (if NoPotd(n, values, cols) then [n] else [])
    ensures DiscussedOf(added + [n], values, cols) ==
      DiscussedOf(added, values, cols) + (if HasDiscussion(n, values, cols) then [n] else [])
  {
    assert (added + [n])[..|added|] == added;
  }

  /** One deletion of the removal loop. */
  lemma UnmarkStep(entries: map<(int, int), string>, user: int, ns: seq<int>, status: string, i: nat)
    requires i < |ns|
    ensures
      (var before := Unmarked(entries, user, ns[..i], status);
       var key := (user, ns[i]);
       Unmarked(entries, user, ns[..i + 1], status) ==
         if key in before && before[key] == status then map k | k in before && k != key :: before[k] else before)
  {
    assert forall n :: n in ns[..i + 1] <==> n in ns[..i] || n == ns[i] by {
      assert ns[..i + 1] == ns[..i] + [ns[i]];
    }
  }

  // ---------------------------------------------------------------------------
  // Unrated problems

  /** `potd_unrated`: any problem the user solved or read but has not rated;
      `random.choice` of an empty list raises IndexError. */
  method PotdUnrated(solved: seq<int>, read: seq<int>, rated: seq<int>) returns (r: Result<int>)
    ensures r.Raises? <==> forall x :: x in solved + read ==> x in rated
    ensures r.Raises? ==> r.exc == IndexError
    ensures r.Ok? ==> r.value in solved + read && r.value !in rated
  {
    var unrated := Without(solved + read, rated);
    if unrated == [] {
      return Raises(IndexError);
    }
    var k :| 0 <= k < |unrated|;
    var x := unrated[k];
    assert x in solved + read && x !in rated;
    assert !(forall y :: y in solved + read ==> y in rated);
    return Ok(x);
  }

  /** `potd_unrated_list`: the solved and the read problems not yet rated, each
      in its original order; together they are the list `potd_unrated` draws from. */
  function UnratedLists(solved: seq<int>, read: seq<int>, rated: seq<int>): (r: (seq<int>, seq<int>))
    ensures forall x :: x in r.0 <==> x in solved && x !in rated
    ensures forall x :: x in r.1 <==> x in read && x !in rated
    ensures r.0 + r.1 == Without(solved + read, rated)
  {
    WithoutAppend(solved, read, rated);
    (Without(solved, rated), Without(read, rated))
  }

  // ---------------------------------------------------------------------------
  // Grouping by difficulty

  /** The difficulty a list entry is filed under: "(Unknown)" for numbers
      outside 1..current and for rows too short; `len(None)` raises TypeError
      for a number whose row lies past the end of the sheet. `current` is the
      number of the latest problem, which the callers read from the sheet. */
  function DifficultyOf(n: int, rows: seq<Row>, current: int, cols: Columns): (r: Result<string>)
    ensures r.Raises? ==> r.exc == TypeError
    ensures r.Raises? <==> 1 <= n <= current && current - n >= |rows|
    ensures n > current || n <= 0 ==> r == Ok("(Unknown)")
    ensures 1 <= n <= current && current - n < |rows| && cols.difficulty < |rows[current - n]| ==>
      r == Ok(rows[current - n][cols.difficulty])
    ensures 1 <= n <= current && current - n < |rows| && |rows[current - n]| <= cols.difficulty ==>
      r == Ok("(Unknown)")
  {
    if n > current || n <= 0 then Ok("(Unknown)")
    else if current - n >= |rows| then Raises(TypeError)
    else
      var row := rows[current - n];
      Ok(if |row| > cols.difficulty then row[cols.difficulty] else "(Unknown)")
  }

  /** With `current` read from the sheet, as the callers do, the lookup above is
      `get_potd_row`: it raises exactly where that finds no row. */
  lemma DifficultyOfRowLookup(n: int, rows: seq<Row>, cols: Columns)
    requires CurrentPotd(rows).Ok?
    ensures
      (var current := CurrentPotd(rows).value;
       1 <= n <= current ==>
         (DifficultyOf(n, rows, current, cols).Raises? <==> GetPotdRow(n, rows) == Ok(None)) &&
         (GetPotdRow(n, rows).value.Some? && cols.difficulty < |GetPotdRow(n, rows).value.value| ==>
            DifficultyOf(n, rows, current, cols) == Ok(GetPotdRow(n, rows).value.value[cols.difficulty])) &&
         (GetPotdRow(n, rows).value.Some? && |GetPotdRow(n, rows).value.value| <= cols.difficulty ==>
            DifficultyOf(n, rows, current, cols) == Ok("(Unknown)")))
  {
  }

  /** The numbers filed under `key`, in list order. */
  function Members(xs: seq<int>, key: string, rows: seq<Row>, current: int, cols: Columns): (r: seq<int>)
    ensures forall n :: n in r <==> n in xs && DifficultyOf(n, rows, current, cols) == Ok(key)
    decreases |xs|
  {
    if xs == [] then []
    else
      var init := xs[..|xs| - 1];
      var n := xs[|xs| - 1];
      assert forall x :: x in xs <==> x in init || x == n by { assert xs == init + [n]; }
      Members(init, key, rows, current, cols) + (if DifficultyOf(n, rows, current, cols) == Ok(key) then [n] else [])
  }

  lemma MembersAppend(xs: seq<int>, n: int, key: string, rows: seq<Row>, current: int, cols: Columns)
    ensures Members(xs + [n], key, rows, current, cols) ==
      Members(xs, key, rows, current, cols) + (if DifficultyOf(n, rows, current, cols) == Ok(key) then [n] else [])
  {
    assert (xs + [n])[..|xs|] == xs;
  }

  /** Python's `a < b` on strings: lexicographic by code point. */
  predicate StrLess(a: string, b: string)
    decreases |a|
  {
    if a == [] then b != []
    else b != [] && (a[0] < b[0] || (a[0] == b[0] && StrLess(a[1..], b[1..])))
  }

  lemma {:induction false} StrLessTotal(a: string, b: string)
    ensures StrLess(a, b) || StrLess(b, a) || a == b
    ensures !(StrLess(a, b) && StrLess(b, a))
    decreases |a|
  {
    if a != [] && b != [] && a[0] == b[0] {
      StrLessTotal(a[1..], b[1..]);
      if a[1..] == b[1..] {
        assert a == [a[0]] + a[1..] && b == [b[0]] + b[1..];
      }
    }
  }

  lemma {:induction false} StrLessTrans(a: string, b: string, c: string)
    requires StrLess(a, b) && StrLess(b, c)
    ensures StrLess(a, c)
    decreases |a|
  {
    if a != [] && a[0] == b[0] && b[0] == c[0] {
      StrLessTrans(a[1..], b[1..], c[1..]);
    }
  }

  /** The sort key `(x.isnumeric(), int(x) if x.isnumeric() else x)` of `a` is
      at least that of `b`: numeric keys rank above the others, numbers by value,
      other keys as strings. */
  predicate KeyAtLeast(a: string, b: string)
  {
    if IsNumeric(a) && IsNumeric(b) then DigitsValue(a) >= DigitsValue(b)
    else if IsNumeric(a) then true
    else if IsNumeric(b) then false
    else !StrLess(a, b)
  }

  lemma KeyAtLeastTotal(a: string, b: string)
    ensures KeyAtLeast(a, b) || KeyAtLeast(b, a)
  {
    StrLessTotal(a, b);
  }

  lemma KeyAtLeastTrans(a: string, b: string, c: string)
    requires KeyAtLeast(a, b) && KeyAtLeast(b, c)
    ensures KeyAtLeast(a, c)
  {
    if !IsNumeric(a) && !IsNumeric(b) && !IsNumeric(c) && StrLess(a, c) {
      StrLessTotal(a, b);
      StrLessTotal(b, c);
      StrLessTotal(a, c);
      if StrLess(b, a) {
        StrLessTrans(b, a, c);
      }
    }
  }

  /** Keys in descending order of their sort key. */
  predicate Descending(keys: seq<string>)
  {
    forall i, j :: 0 <= i < j < |keys| ==> KeyAtLeast(keys[i], keys[j])
  }

  /** Insert after every key ranking at least as high. */
  function Insert(x: string, keys: seq<string>): (r: seq<string>)
    ensures multiset(r) == multiset(keys) + multiset{x}
    decreases |keys|
  {
    if keys == [] then [x]
    else if KeyAtLeast(x, keys[0]) && !KeyAtLeast(keys[0], x) then [x] + keys
    else
      assert keys == [keys[0]] + keys[1..];
      [keys[0]] + Insert(x, keys[1..])
  }

  lemma {:induction false} InsertDescending(x: string, keys: seq<string>)
    requires Descending(keys)
    ensures Descending(Insert(x, keys))
    decreases |keys|
  {
    if keys != [] {
      if KeyAtLeast(x, keys[0]) && !KeyAtLeast(keys[0], x) {
        forall j | 1 <= j < |keys| + 1 ensures KeyAtLeast(x, ([x] + keys)[j]) {
          if j > 1 {
            KeyAtLeastTrans(x, keys[0], keys[j - 1]);
          }
        }
      } else {
        KeyAtLeastTotal(x, keys[0]);
        InsertDescending(x, keys[1..]);
        var rest := Insert(x, keys[1..]);
        forall j | 0 <= j < |rest| ensures KeyAtLeast(keys[0], rest[j]) {
          assert rest[j] in multiset(rest);
          if rest[j] != x {
            assert rest[j] in multiset(keys[1..]);
            var k :| 0 <= k < |keys[1..]| && keys[1..][k] == rest[j];
            assert keys[k + 1] == rest[j];
          }
        }
      }
    }
  }

  /** `sorted(keys, key=..., reverse=True)`: the same keys, in descending order. */
  function SortKeys(keys: seq<string>): (r: seq<string>)
    ensures multiset(r) == multiset(keys)
    ensures Descending(r)
    decreases |keys|
  {
    if keys == [] then []
    else
      var init := keys[..|keys| - 1];
      var sorted := SortKeys(init);
      InsertDescending(keys[|keys| - 1], sorted);
      assert keys == init + [keys[|keys| - 1]];
      Insert(keys[|keys| - 1], sorted)
  }

  /** The difficulty groups so far: every key met, once, in first-met order,
      each mapped to its members. */
  ghost predicate GroupedSoFar(xs: seq<int>, order: seq<string>, groups: map<string, seq<int>>, rows: seq<Row>, current: int, cols: Columns)
  {
    (forall i, j :: 0 <= i < j < |order| ==> order[i] != order[j]) &&
    (forall key :: key in groups <==> key in order) &&
    (forall key :: key in groups ==> groups[key] == Members(xs, key, rows, current, cols) && groups[key] != []) &&
    (forall x :: x in xs ==> DifficultyOf(x, rows, current, cols).Ok? && DifficultyOf(x, rows, current, cols).value in groups)
  }

  /** Filing `n` under a difficulty already met extends that group. */
  lemma GroupedStepOld(xs: seq<int>, n: int, key: string, order: seq<string>, groups: map<string, seq<int>>,
                       rows: seq<Row>, current: int, cols: Columns)
    requires DifficultyOf(n, rows, current, cols) == Ok(key) && key in groups
    requires GroupedSoFar(xs, order, groups, rows, current, cols)
    ensures GroupedSoFar(xs + [n], order, groups[key := groups[key] + [n]], rows, current, cols)
  {
    var groups' := groups[key := groups[key] + [n]];
    forall k | k in groups' ensures groups'[k] == Members(xs + [n], k, rows, current, cols) {
      MembersAppend(xs, n, k, rows, current, cols);
    }
    forall x | x in xs + [n] ensures DifficultyOf(x, rows, current, cols).Ok? && DifficultyOf(x, rows, current, cols).value in groups' {
      if x != n {
        assert x in xs;
      }
    }
    forall k ensures k in groups' <==> k in order {
    }
  }

  /** Filing `n` under a new difficulty opens a group and appends the key. */
  lemma GroupedStepNew(xs: seq<int>, n: int, key: string, order: seq<string>, groups: map<string, seq<int>>,
                       rows: seq<Row>, current: int, cols: Columns)
    requires DifficultyOf(n, rows, current, cols) == Ok(key) && key !in groups
    requires GroupedSoFar(xs, order, groups, rows, current, cols)
    ensures GroupedSoFar(xs + [n], order + [key], groups[key := [n]], rows, current, cols)
  {
    var order' := order + [key];
    var groups' := groups[key := [n]];
    forall k | k in groups' ensures groups'[k] == Members(xs + [n], k, rows, current, cols) {
      MembersAppend(xs, n, k, rows, current, cols);
      if k == key {
        MembersNone(xs, key, rows, current, cols);
      }
    }
    forall x | x in xs + [n] ensures DifficultyOf(x, rows, current, cols).Ok? && DifficultyOf(x, rows, current, cols).value in groups' {
      if x != n {
        assert x in xs;
      }
    }
    forall i, j | 0 <= i < j < |order'| ensures order'[i] != order'[j] {
      if j == |order| {
        assert order'[i] in order;
      }
    }
    forall k ensures k in groups' <==> k in order' {
    }
  }

  /** A key no number of `xs` is filed under has no members. */
  lemma MembersNone(xs: seq<int>, key: string, rows: seq<Row>, current: int, cols: Columns)
    requires forall x :: x in xs ==> DifficultyOf(x, rows, current, cols) != Ok(key)
    ensures Members(xs, key, rows, current, cols) == []
  {
  }

  /** The `d` view: each difficulty met, with the numbers filed under it. */
  datatype Group = Group(key: string, members: seq<int>)

  /** Grouping by difficulty (the `d` flag): file every number under its
      difficulty, then list the groups in descending order of the sort key.
      The first number whose row lies past the sheet raises. */
  method GroupByDifficulty(list: seq<int>, rows: seq<Row>, current: int, cols: Columns) returns (r: Result<seq<Group>>)
    ensures r.Raises? <==> exists n :: n in list && DifficultyOf(n, rows, current, cols).Raises?
    ensures r.Raises? ==> r.exc == TypeError
    ensures r.Ok? ==>
      (var keys := seq(|r.value|, k requires 0 <= k < |r.value| => r.value[k].key);
       Descending(keys) &&
       (forall i, j :: 0 <= i < j < |keys| ==> keys[i] != keys[j]) &&
       (forall k :: 0 <= k < |r.value| ==>
          r.value[k].members == Members(list, r.value[k].key, rows, current, cols) && r.value[k].members != []) &&
       (forall n :: n in list ==> DifficultyOf(n, rows, current, cols).value in keys))
  {
    var filed := FileByDifficulty(list, rows, current, cols);
    if filed.Raises? {
      return Raises(filed.exc);
    }
    var (order, groups) := filed.value;
    var sorted := SortKeys(order);
    GroupsListed(list, order, groups, sorted, rows, current, cols);
    var listed := seq(|sorted|, k requires 0 <= k < |sorted| => Group(sorted[k], groups[sorted[k]]));
    assert seq(|listed|, k requires 0 <= k < |listed| => listed[k].key) == sorted;
    r := Ok(listed);
  }

  /** The loop of the `d` flag: the `defaultdict` of numbers per difficulty,
      with its keys in insertion order. */
  method FileByDifficulty(list: seq<int>, rows: seq<Row>, current: int, cols: Columns)
    returns (r: Result<(seq<string>, map<string, seq<int>>)>)
    ensures r.Raises? <==> exists n :: n in list && DifficultyOf(n, rows, current, cols).Raises?
    ensures r.Raises? ==> r.exc == TypeError
    ensures r.Ok? ==> GroupedSoFar(list, r.value.0, r.value.1, rows, current, cols)
  {
    var order: seq<string> := [];
    var groups: map<string, seq<int>> := map[];
    for i := 0 to |list|
      invariant GroupedSoFar(list[..i], order, groups, rows, current, cols)
    {
      var n := list[i];
      var difficulty := DifficultyOf(n, rows, current, cols);
      if difficulty.Raises? {
        return Raises(difficulty.exc);
      }
      assert list[..i + 1] == list[..i] + [n];
      var key := difficulty.value;
      if key in groups {
        GroupedStepOld(list[..i], n, key, order, groups, rows, current, cols);
        groups := groups[key := groups[key] + [n]];
      } else {
        GroupedStepNew(list[..i], n, key, order, groups, rows, current, cols);
        order := order + [key];
        groups := groups[key := [n]];
      }
    }
    assert list[..|list|] == list;
    return Ok((order, groups));
  }

  /** The listed groups of a complete grouping have the properties promised above. */
  lemma GroupsListed(list: seq<int>, order: seq<string>, groups: map<string, seq<int>>, sorted: seq<string>,
                     rows: seq<Row>, current: int, cols: Columns)
    requires GroupedSoFar(list, order, groups, rows, current, cols)
    requires multiset(sorted) == multiset(order)
    ensures forall k :: 0 <= k < |sorted| ==> sorted[k] in groups
    ensures forall i, j :: 0 <= i < j < |sorted| ==> sorted[i] != sorted[j]
    ensures forall n :: n in list ==> DifficultyOf(n, rows, current, cols).value in sorted
  {
    forall k | 0 <= k < |sorted| ensures sorted[k] in groups {
      assert sorted[k] in multiset(order);
    }
    forall i, j | 0 <= i < j < |sorted| ensures sorted[i] != sorted[j] {
      if sorted[i] == sorted[j] {
        RepeatCount(sorted, i, j);
        NoDupCount(order, sorted[i]);
      }
    }
    forall n | n in list ensures DifficultyOf(n, rows, current, cols).value in sorted {
      assert DifficultyOf(n, rows, current, cols).value in multiset(order);
    }
  }

  /** A key at two positions occurs at least twice. */
  lemma RepeatCount(xs: seq<string>, i: int, j: int)
    requires 0 <= i < j < |xs| && xs[i] == xs[j]
    ensures multiset(xs)[xs[i]] >= 2
  {
    var v := xs[i];
    assert xs == xs[..j] + xs[j..];
    assert v in multiset(xs[..j]) by { assert xs[..j][i] == v; }
    assert v in multiset(xs[j..]) by { assert xs[j..][0] == v; }
  }

  /** A key occurs at most once in a list without repeats. */
  lemma {:induction false} NoDupCount(order: seq<string>, x: string)
    requires forall i, j :: 0 <= i < j < |order| ==> order[i] != order[j]
    ensures multiset(order)[x] <= 1
    decreases |order|
  {
    if order != [] {
      NoDupCount(order[1..], x);
      assert order == [order[0]] + order[1..];
      if order[0] == x {
        assert x !in order[1..];
      }
    }
  }

  // ---------------------------------------------------------------------------
  // Grouping by subject

  /** The genre a list entry is filed by: "(Unknown)" for numbers outside
      1..current and for rows too short; indexing past the sheet raises. */
  function GenreOf(n: int, rows: seq<Row>, current: int, cols: Columns): (r: Result<string>)
    ensures r.Raises? ==> r.exc == IndexError
    ensures r.Raises? <==> 1 <= n <= current && current - n >= |rows|
    ensures n > current || n <= 0 ==> r == Ok("(Unknown)")
    ensures 1 <= n <= current && current - n < |rows| && cols.genre < |rows[current - n]| ==>
      r == Ok(rows[current - n][cols.genre])
    ensures 1 <= n <= current && current - n < |rows| && |rows[current - n]| <= cols.genre ==>
      r == Ok("(Unknown)")
  {
    if n > current || n <= 0 then Ok("(Unknown)")
    else if current - n >= |rows| then Raises(IndexError)
    else
      var row := rows[current - n];
      Ok(if |row| > cols.genre then row[cols.genre] else "(Unknown)")
  }

  /** With `current` read from the sheet, the subject lookup indexes the row
      `get_potd_row` finds: it raises exactly where that finds no row, and
      otherwise gives the row's genre cell when the row has one. */
  lemma GenreOfRowLookup(n: int, rows: seq<Row>, cols: Columns)
    requires CurrentPotd(rows).Ok?
    ensures
      (var current := CurrentPotd(rows).value;
       1 <= n <= current ==>
         (GenreOf(n, rows, current, cols).Raises? <==> GetPotdRow(n, rows) == Ok(None)) &&
         (GetPotdRow(n, rows).value.Some? && cols.genre < |GetPotdRow(n, rows).value.value| ==>
            GenreOf(n, rows, current, cols) == Ok(GetPotdRow(n, rows).value.value[cols.genre])) &&
         (GetPotdRow(n, rows).value.Some? && |GetPotdRow(n, rows).value.value| <= cols.genre ==>
            GenreOf(n, rows, current, cols) == Ok("(Unknown)")))
  {
  }

  /** The number's genre is known and names the subject. */
  predicate InSubject(n: int, subject: char, rows: seq<Row>, current: int, cols: Columns)
  {
    GenreOf(n, rows, current, cols).Ok? && subject in GenreOf(n, rows, current, cols).value
  }

  /** The numbers whose genre contains the subject letter, in list order. */
  function SubjectMembers(xs: seq<int>, subject: char, rows: seq<Row>, current: int, cols: Columns): (r: seq<int>)
    ensures forall n :: n in r <==> n in xs && InSubject(n, subject, rows, current, cols)
    decreases |xs|
  {
    if xs == [] then []
    else
      var init := xs[..|xs| - 1];
      var n := xs[|xs| - 1];
      assert forall x :: x in xs <==> x in init || x == n by { assert xs == init + [n]; }
      SubjectMembers(init, subject, rows, current, cols) + (if InSubject(n, subject, rows, current, cols) then [n] else [])
  }

  lemma SubjectMembersAppend(xs: seq<int>, n: int, c: char, rows: seq<Row>, current: int, cols: Columns)
    ensures SubjectMembers(xs + [n], c, rows, current, cols) ==
      SubjectMembers(xs, c, rows, current, cols) + (if InSubject(n, c, rows, current, cols) then [n] else [])
  {
    assert (xs + [n])[..|xs|] == xs;
  }

  /** Grouping by subject (the `s` flag): each number goes under every one of
      A, C, G, N its genre contains. Indexing past the sheet raises. */
  method GroupBySubject(list: seq<int>, rows: seq<Row>, current: int, cols: Columns) returns (r: Result<map<char, seq<int>>>)
    ensures r.Raises? <==> exists n :: n in list && GenreOf(n, rows, current, cols).Raises?
    ensures r.Raises? ==> r.exc == IndexError
    ensures r.Ok? ==> r.value.Keys == {'A', 'C', 'G', 'N'}
    ensures r.Ok? ==> forall c :: c in r.value ==> r.value[c] == SubjectMembers(list, c, rows, current, cols)
  {
    var groups := map['A' := [], 'C' := [], 'G' := [], 'N' := []];
    for i := 0 to |list|
      invariant forall x :: x in list[..i] ==> GenreOf(x, rows, current, cols).Ok?
      invariant groups.Keys == {'A', 'C', 'G', 'N'}
      invariant forall c :: c in groups ==> groups[c] == SubjectMembers(list[..i], c, rows, current, cols)
    {
      var n := list[i];
      var genre := GenreOf(n, rows, current, cols);
      if genre.Raises? {
        return Raises(genre.exc);
      }
      assert list[..i + 1] == list[..i] + [n];
      groups := FileBySubject(groups, n, genre.value, list[..i], rows, current, cols);
    }
    assert list[..|list|] == list;
    return Ok(groups);
  }

  /** The inner loop: append `n` to the list of every subject its genre names. */
  method FileBySubject(groups: map<char, seq<int>>, n: int, genre: string, xs: seq<int>, rows: seq<Row>, current: int, cols: Columns)
    returns (groups': map<char, seq<int>>)
    requires GenreOf(n, rows, current, cols) == Ok(genre)
    requires groups.Keys == {'A', 'C', 'G', 'N'}
    requires forall c :: c in groups ==> groups[c] == SubjectMembers(xs, c, rows, current, cols)
    ensures groups'.Keys == {'A', 'C', 'G', 'N'}
    ensures forall c :: c in groups' ==> groups'[c] == SubjectMembers(xs + [n], c, rows, current, cols)
  {
    groups' := groups;
    var subjects := "ACGN";
    for j := 0 to |subjects|
      invariant groups'.Keys == {'A', 'C', 'G', 'N'}
      invariant forall k :: 0 <= k < |subjects| ==>
        groups'[subjects[k]] == groups[subjects[k]] + (if k < j && subjects[k] in genre then [n] else [])
    {
      var subject := subjects[j];
      if subject in genre {
        groups' := groups'[subject := groups'[subject] + [n]];
      }
    }
    forall c | c in groups' ensures groups'[c] == SubjectMembers(xs + [n], c, rows, current, cols) {
      SubjectMembersAppend(xs, n, c, rows, current, cols);
      assert c == subjects[0] || c == subjects[1] || c == subjects[2] || c == subjects[3];
    }
  }

  /** Numbers outside 1..current are filed under "(Unknown)", which names no
      subject, so the subject view leaves them out. */
  lemma UnknownInNoSubject(list: seq<int>, rows: seq<Row>, current: int, cols: Columns, n: int, c: char)
    requires n > current || n <= 0
    requires c in "ACGN"
    ensures n !in SubjectMembers(list, c, rows, current, cols)
  {
  }

  // ---------------------------------------------------------------------------
  // send_potd_solved

  /** Characters after which a message may be cut. */
  predicate IsCut(c: char)
  {
    c == ',' || c == ']'
  }

  /** No cut point among characters 1900 .. m of the message (1-based). */
  predicate NoCutBefore(b: string, m: int)
    requires m <= |b|
  {
    forall j :: 1899 <= j < m ==> !IsCut(b[j])
  }

  /** A message that is not the last: at least 1900 characters, ending at the
      first ',' or ']' from character 1900 on, or at 2000 characters. */
  predicate FullBatch(b: string)
  {
    1900 <= |b| <= 2000 && (IsCut(b[|b| - 1]) || |b| == 2000) && NoCutBefore(b, |b| - 1)
  }

  /** The last message: 1 to 2000 characters, with no earlier cut point from
      character 1900 on. */
  predicate LastBatch(b: string)
  {
    1 <= |b| <= 2000 && NoCutBefore(b, |b| - 1)
  }

  /** A message still being filled. */
  predicate OpenBatch(b: string)
  {
    1900 <= |b| < 2000 && NoCutBefore(b, |b|)
  }

  /** After one step the message either is sent, as a full or a last message,
      or stays open. */
  lemma BatchStep(b: string, atEnd: bool)
    requires 1 <= |b| <= 2000 && NoCutBefore(b, |b| - 1) && (|b| >= 1900 || atEnd)
    ensures IsCut(b[|b| - 1]) || |b| == 2000 || atEnd ==> FullBatch(b) || (atEnd && LastBatch(b))
    ensures !(IsCut(b[|b| - 1]) || |b| == 2000 || atEnd) ==> OpenBatch(b)
  {
  }

  /** Appending a character to an open message keeps its earlier characters cut-free. */
  lemma OpenGrows(b: string, c: char)
    requires OpenBatch(b)
    ensures NoCutBefore(b + [c], |b + [c]| - 1) && |b + [c]| <= 2000
  {
    assert forall j :: 0 <= j < |b| ==> (b + [c])[j] == b[j];
  }

  /** The messages sent so far: all full, except that once the text is used
      up the last may be a last message. */
  predicate Batched(batches: seq<string>, finished: bool)
  {
    (forall k :: 0 <= k < |batches| - 1 ==> FullBatch(batches[k])) &&
    (|batches| > 0 ==> FullBatch(batches[|batches| - 1]) || (finished && LastBatch(batches[|batches| - 1])))
  }

  lemma BatchedAppend(batches: seq<string>, batch: string, finished: bool)
    requires Batched(batches, false)
    requires FullBatch(batch) || (finished && LastBatch(batch))
    ensures Batched(batches + [batch], finished)
  {
  }

  lemma BatchedOpen(batches: seq<string>, finished: bool)
    requires Batched(batches, false)
    ensures Batched(batches, finished)
  {
  }

  /** One filling step of `send_potd_solved`: an empty message takes the next
      1900 characters (or what is left), an open one takes one character. */
  method Fill(s: string, ghost start: int, i: int, batch: string) returns (i': int, batch': string)
    requires 0 <= start <= i < |s| && batch == s[start..i]
    requires batch == "" || OpenBatch(batch)
    ensures i < i' <= |s| && batch' == s[start..i']
    ensures 1 <= |batch'| <= 2000 && NoCutBefore(batch', |batch'| - 1)
    ensures |batch'| >= 1900 || i' == |s|
  {
    if batch == "" {
      var jump := Min(1900, |s| - i);
      batch', i' := s[i..i + jump], i + jump;
    } else {
      OpenGrows(batch, s[i]);
      batch', i' := batch + [s[i]], i + 1;
      assert s[start..i'] == s[start..i] + [s[i]];
    }
  }

  /** `send_potd_solved`: cut the reply into messages under Discord's 2000
      character limit, preferring to cut after a ',' or ']' once 1900
      characters are in the message. */
  method SendBatches(s: string) returns (batches: seq<string>)
    ensures Concat(batches) == s
    ensures batches == [] <==> s == ""
    ensures forall k :: 0 <= k < |batches| - 1 ==> FullBatch(batches[k])
    ensures |batches| > 0 ==> LastBatch(batches[|batches| - 1])
  {
    var i := 0;
    var batch := "";
    batches := [];
    ghost var start := 0;
    while i < |s|
      invariant 0 <= start <= i <= |s|
      invariant Concat(batches) == s[..start] && batch == s[start..i]
      invariant Batched(batches, i == |s|)
      invariant batch != "" ==> i < |s| && OpenBatch(batch)
      invariant i > 0 ==> batches != [] || batch != ""
    {
      i, batch := Fill(s, start, i, batch);
      BatchStep(batch, i == |s|);
      if IsCut(batch[|batch| - 1]) || |batch| == 2000 || i == |s| {
        ConcatAppend(batches, batch);
        assert s[..i] == s[..start] + s[start..i];
        BatchedAppend(batches, batch, i == |s|);
        batches := batches + [batch];
        batch := "";
        start := i;
      } else {
        BatchedOpen(batches, i == |s|);
      }
    }
    assert s[..start] == s;
  }
}
