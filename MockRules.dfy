/** The rule language of custom mock papers (`parse_mock_rules` and
    `stringify_mock_rules` in cogs/mock.py): a text such as "[5 7] [7 9 G]"
    becomes a list of rules, each an inclusive difficulty range and the
    subject letters allowed. */
module MockRules {
  import opened PyStr

  /** One parsed rule: difficulty bounds after clamping to 0..14, and the
      recognised subject letters in order of first appearance ("" when none). */
  datatype MockRule = MockRule(lower: int, upper: int, genres: string)

  /** The four subjects: algebra, combinatorics, geometry, number theory. */
  const Subjects: string := "ACGN"

  // ---------------------------------------------------------------------------
  // re.findall(r"\[.*?\]", text)

  /** From an opening bracket at s[0], the index of the first ']' at or after j,
      provided no newline comes first (`.` does not match a newline). */
  function CloseFrom(s: string, j: nat): (r: Option<nat>)
    requires 1 <= j <= |s|
    requires forall k :: 1 <= k < j ==> s[k] != ']' && s[k] != '\n'
    ensures r.Some? ==> j <= r.value < |s| && s[r.value] == ']'
    ensures r.Some? ==> forall k :: 1 <= k < r.value ==> s[k] != ']' && s[k] != '\n'
    ensures r.None? ==> forall k :: 1 <= k < |s| && s[k] == ']' ==> exists m :: 1 <= m < k && s[m] == '\n'
    decreases |s| - j
  {
    if j == |s| then None
    else if s[j] == ']' then Some(j)
    else if s[j] == '\n' then
      assert forall k :: 1 <= k < |s| && s[k] == ']' ==> j < k;
      None
    else CloseFrom(s, j + 1)
  }

  /** The non-overlapping matches of `\[.*?\]`, left to right: each is a '['
      followed by the shortest newline-free stretch up to the next ']'. */
  function Brackets(s: string): (r: seq<string>)
    ensures forall k :: 0 <= k < |r| ==> |r[k]| >= 2 && r[k][0] == '[' && r[k][|r[k]| - 1] == ']'
    decreases |s|
  {
    if s == [] then []
    else if s[0] == '[' then
      match CloseFrom(s, 1)
      case Some(j) => [s[..j + 1]] + Brackets(s[j + 1..])
      case None => Brackets(s[1..])
    else Brackets(s[1..])
  }

  /** A bracketed stretch without ']' or newline inside is matched whole, and
      matching resumes right after it. */
  lemma {:induction false} BracketsCons(inner: string, rest: string)
    requires forall i :: 0 <= i < |inner| ==> inner[i] != ']' && inner[i] != '\n'
    ensures Brackets("[" + inner + "]" + rest) == ["[" + inner + "]"] + Brackets(rest)
  {
    var s := "[" + inner + "]" + rest;
    var close := |inner| + 1;
    assert forall k :: 1 <= k < close ==> s[k] == inner[k - 1];
    assert s[close] == ']';
    assert CloseFrom(s, 1) == Some(close) by { CloseFromReaches(s, 1, close); }
    assert s[..close + 1] == "[" + inner + "]";
    assert s[close + 1..] == rest;
  }

  lemma {:induction false} CloseFromReaches(s: string, j: nat, close: nat)
    requires 1 <= j <= close < |s| && s[close] == ']'
    requires forall k :: 1 <= k < close ==> s[k] != ']' && s[k] != '\n'
    ensures CloseFrom(s, j) == Some(close)
    decreases close - j
  {
    if j < close {
      CloseFromReaches(s, j + 1, close);
    }
  }

  lemma BracketsSpace(rest: string)
    ensures Brackets(" " + rest) == Brackets(rest)
  {
    assert (" " + rest)[1..] == rest;
  }

  // ---------------------------------------------------------------------------
  // One rule

  /** A rule's genres field: no repeated letter, every letter a subject, upper case. */
  predicate SubjectLetters(g: string)
  {
    NoDup(g) && forall i :: 0 <= i < |g| ==> g[i] in Subjects
  }

  /** The subject letters of a rule's third field: each character upper-cased,
      kept when it is a subject not yet collected. */
  function AddGenres(acc: string, s: string): string
    decreases |s|
  {
    if s == [] then acc
    else
      var c := UpperChar(s[0]);
      AddGenres(if c in Subjects && c !in acc then acc + [c] else acc, s[1..])
  }

  /** The collected letters are the earlier ones plus every subject some
      character upper-cases to, each once. */
  lemma AddGenresSpec(acc: string, s: string)
    ensures forall c :: c in AddGenres(acc, s) <==>
      c in acc || (c in Subjects && exists i :: 0 <= i < |s| && UpperChar(s[i]) == c)
    ensures NoDup(acc) ==> NoDup(AddGenres(acc, s))
    ensures (forall i :: 0 <= i < |acc| ==> acc[i] in Subjects) ==>
      forall i :: 0 <= i < |AddGenres(acc, s)| ==> AddGenres(acc, s)[i] in Subjects
  {
    AddGenresMembers(acc, s);
    if NoDup(acc) {
      AddGenresNoDup(acc, s);
    }
    if forall i :: 0 <= i < |acc| ==> acc[i] in Subjects {
      AddGenresSubjects(acc, s);
    }
  }

  lemma {:induction false} AddGenresMembers(acc: string, s: string)
    ensures forall c :: c in AddGenres(acc, s) <==>
      c in acc || (c in Subjects && exists i :: 0 <= i < |s| && UpperChar(s[i]) == c)
    decreases |s|
  {
    if s != [] {
      var c := UpperChar(s[0]);
      var acc' := if c in Subjects && c !in acc then acc + [c] else acc;
      AddGenresMembers(acc', s[1..]);
      assert forall i :: 1 <= i < |s| ==> s[i] == s[1..][i - 1];
      assert forall d :: (d in Subjects && exists i :: 0 <= i < |s| && UpperChar(s[i]) == d) ==>
        d == c || exists i :: 0 <= i < |s[1..]| && UpperChar(s[1..][i]) == d;
      assert c in Subjects ==> exists i :: 0 <= i < |s| && UpperChar(s[i]) == c by {
        assert UpperChar(s[0]) == c;
      }
    }
  }

  lemma {:induction false} AddGenresNoDup(acc: string, s: string)
    requires NoDup(acc)
    ensures NoDup(AddGenres(acc, s))
    decreases |s|
  {
    if s != [] {
      var c := UpperChar(s[0]);
      var acc' := if c in Subjects && c !in acc then acc + [c] else acc;
      if c in Subjects && c !in acc {
        forall i, j | 0 <= i < j < |acc'| ensures acc'[i] != acc'[j] {
          if j == |acc| {
            assert acc'[i] == acc[i];
          }
        }
      }
      AddGenresNoDup(acc', s[1..]);
    }
  }

  lemma {:induction false} AddGenresSubjects(acc: string, s: string)
    requires forall i :: 0 <= i < |acc| ==> acc[i] in Subjects
    ensures forall i :: 0 <= i < |AddGenres(acc, s)| ==> AddGenres(acc, s)[i] in Subjects
    decreases |s|
  {
    if s != [] {
      var c := UpperChar(s[0]);
      var acc' := if c in Subjects && c !in acc then acc + [c] else acc;
      assert forall i :: 0 <= i < |acc'| ==> acc'[i] in Subjects;
      AddGenresSubjects(acc', s[1..]);
    }
  }

  /** `genres` as the parser builds it from a rule's third field. */
  function GenreLetters(s: string): (r: string)
    ensures SubjectLetters(r)
  {
    AddGenresSpec("", s);
    AddGenres("", s)
  }

  /** Collecting letters that are already distinct upper-case subjects appends them unchanged. */
  lemma {:induction false} AddGenresKeeps(acc: string, s: string)
    requires SubjectLetters(acc + s)
    ensures AddGenres(acc, s) == acc + s
    decreases |s|
  {
    if s != [] {
      var c := s[0];
      assert c == (acc + s)[|acc|];
      assert UpperChar(c) == c;
      assert c !in acc by {
        forall i | 0 <= i < |acc| ensures acc[i] != c {
          assert (acc + s)[i] == acc[i];
        }
      }
      assert acc + s == (acc + [c]) + s[1..];
      AddGenresKeeps(acc + [c], s[1..]);
    }
  }

  /** Python's `substring[1:-1]`. */
  function Inner(sub: string): string
  {
    if |sub| >= 2 then sub[1..|sub| - 1] else ""
  }

  /** One match turned into a rule: its inside split on single spaces. */
  function ParseRule(sub: string): Option<MockRule>
  {
    ParseFields(Split(Inner(sub), ' '))
  }

  /** Two or three fields, both bounds integers with lower <= upper, then
      clamped to 0..14; a missing third field means all four subjects. None
      stands for the whole parse failing. */
  function ParseFields(fields: seq<string>): (r: Option<MockRule>)
    ensures r.Some? ==> |fields| in {2, 3}
    ensures r.Some? <==>
      (|fields| in {2, 3} && ParseInt(fields[0]).Some? && ParseInt(fields[1]).Some? &&
       ParseInt(fields[0]).value <= ParseInt(fields[1]).value)
    ensures r.Some? ==>
      (r.value.lower == Max(ParseInt(fields[0]).value, 0) &&
       r.value.upper == Min(ParseInt(fields[1]).value, 14))
    ensures r.Some? ==> 0 <= r.value.lower && r.value.upper <= 14 && SubjectLetters(r.value.genres)
  {
    if |fields| != 2 && |fields| != 3 then None
    else
      var letters := if |fields| == 2 then Subjects else fields[2];
      match ParseInt(fields[0])
      case None => None
      case Some(a) =>
        match ParseInt(fields[1])
        case None => None
        case Some(b) =>
          if a > b then None
          else Some(MockRule(Max(a, 0), Min(b, 14), GenreLetters(letters)))
  }

  /** All of the per-match results, or None as soon as one of them failed. */
  function AllParsed(results: seq<Option<MockRule>>): (r: Option<seq<MockRule>>)
    ensures r.Some? <==> forall k :: 0 <= k < |results| ==> results[k].Some?
    ensures r.Some? ==> |r.value| == |results| && forall k :: 0 <= k < |results| ==> results[k] == Some(r.value[k])
    decreases |results|
  {
    if results == [] then Some([])
    else
      assert forall k :: 1 <= k < |results| ==> results[k] == results[1..][k - 1];
      match results[0]
      case None => None
      case Some(rule) =>
        match AllParsed(results[1..])
        case None =>
          assert exists k :: 0 <= k < |results| && results[k].None? by {
            var k :| 0 <= k < |results[1..]| && results[1..][k].None?;
            assert results[k + 1] == results[1..][k];
          }
          None
        case Some(rest) => Some([rule] + rest)
  }

  /** Every match must parse; one failure fails the whole text. */
  function ParseRules(subs: seq<string>): (r: Option<seq<MockRule>>)
    ensures r.Some? <==> forall k :: 0 <= k < |subs| ==> ParseRule(subs[k]).Some?
    ensures r.Some? ==> |r.value| == |subs| && forall k :: 0 <= k < |subs| ==> ParseRule(subs[k]) == Some(r.value[k])
  {
    var results := seq(|subs|, k requires 0 <= k < |subs| => ParseRule(subs[k]));
    assert forall k :: 0 <= k < |subs| ==> results[k] == ParseRule(subs[k]);
    AllParsed(results)
  }

  /** What `parse_mock_rules` returns for a text: commas count as spaces. */
  function MockRulesOf(text: string): Option<seq<MockRule>>
  {
    ParseRules(Brackets(ReplaceChar(text, ',', ' ')))
  }

  lemma ParseRulesFails(subs: seq<string>, i: nat)
    requires i < |subs| && ParseRule(subs[i]).None?
    ensures ParseRules(subs) == None
  {
  }

  lemma ParseRulesSucceeds(subs: seq<string>, parsed: seq<MockRule>)
    requires |parsed| == |subs|
    requires forall k :: 0 <= k < |subs| ==> ParseRule(subs[k]) == Some(parsed[k])
    ensures ParseRules(subs) == Some(parsed)
  {
    assert ParseRules(subs).Some?;
    assert ParseRules(subs).value == parsed;
  }

  lemma ParsedExtends(subs: seq<string>, parsed: seq<MockRule>, rule: MockRule)
    requires |parsed| < |subs| && ParseRule(subs[|parsed|]) == Some(rule)
    requires forall k :: 0 <= k < |parsed| ==> ParseRule(subs[k]) == Some(parsed[k])
    ensures forall k :: 0 <= k <= |parsed| ==> ParseRule(subs[k]) == Some((parsed + [rule])[k])
  {
  }

  /** `parse_mock_rules`: the loop over the matches, with its early failure. */
  method ParseMockRules(text: string) returns (r: Option<seq<MockRule>>)
    ensures r == MockRulesOf(text)
  {
    var subs := Brackets(ReplaceChar(text, ',', ' '));
    var parsed: seq<MockRule> := [];
    for i := 0 to |subs|
      invariant |parsed| == i
      invariant forall k :: 0 <= k < i ==> ParseRule(subs[k]) == Some(parsed[k])
    {
      var rule := ParseRule(subs[i]);
      if rule.None? {
        ParseRulesFails(subs, i);
        return None;
      }
      ParsedExtends(subs, parsed, rule.value);
      parsed := parsed + [rule.value];
    }
    ParseRulesSucceeds(subs, parsed);
    return Some(parsed);
  }

  // ---------------------------------------------------------------------------
  // stringify_mock_rules

  /** The genres field is shown unless it is empty or all four subjects. */
  predicate ShowsGenres(rule: MockRule)
  {
    rule.genres != "" && rule.genres != Subjects
  }

  function RuleFields(rule: MockRule): seq<string>
  {
    [IntToString(rule.lower), IntToString(rule.upper)] + (if ShowsGenres(rule) then [rule.genres] else [])
  }

  /** "[lower upper genres]" or "[lower upper]". */
  function RuleString(rule: MockRule): string
  {
    "[" + Join(RuleFields(rule), ' ') + "]"
  }

  function RuleStrings(rules: seq<MockRule>): (r: seq<string>)
    ensures |r| == |rules| && forall k :: 0 <= k < |rules| ==> r[k] == RuleString(rules[k])
  {
    seq(|rules|, k requires 0 <= k < |rules| => RuleString(rules[k]))
  }

  /** `stringify_mock_rules`: each rule rendered, the renderings joined by spaces. */
  method StringifyMockRules(rules: seq<MockRule>) returns (text: string)
    ensures text == Join(RuleStrings(rules), ' ')
  {
    var strings: seq<string> := [];
    for i := 0 to |rules|
      invariant strings == RuleStrings(rules[..i])
    {
      strings := strings + [RuleString(rules[i])];
      assert rules[..i + 1] == rules[..i] + [rules[i]];
    }
    assert rules[..|rules|] == rules;
    text := Join(strings, ' ');
  }

  // ---------------------------------------------------------------------------
  // The round trip

  /** The rules the parser can give back exactly: bounds already inside 0..14
      and in order, genres distinct upper-case subjects. */
  predicate WellFormed(rule: MockRule)
  {
    0 <= rule.lower <= rule.upper <= 14 && SubjectLetters(rule.genres)
  }

  /** An empty genres field reads back as all four subjects. */
  function Normalized(rule: MockRule): MockRule
  {
    if rule.genres == "" then rule.(genres := Subjects) else rule
  }

  lemma RuleFieldsClean(rule: MockRule)
    requires WellFormed(rule)
    ensures forall k :: 0 <= k < |RuleFields(rule)| ==> ' ' !in RuleFields(rule)[k]
    ensures forall k, i :: 0 <= k < |RuleFields(rule)| && 0 <= i < |RuleFields(rule)[k]| ==>
      RuleFields(rule)[k][i] != ']' && RuleFields(rule)[k][i] != '\n' && RuleFields(rule)[k][i] != ','
  {
    IntToStringChars(rule.lower);
    IntToStringChars(rule.upper);
  }

  lemma {:induction false} JoinChars(parts: seq<string>, sep: char, c: char)
    requires sep != c
    requires forall k :: 0 <= k < |parts| ==> c !in parts[k]
    ensures c !in Join(parts, sep)
    decreases |parts|
  {
    if |parts| > 1 {
      JoinChars(parts[1..], sep, c);
    }
  }

  lemma SubjectsWellFormed()
    ensures SubjectLetters(Subjects)
    ensures GenreLetters(Subjects) == Subjects
  {
    assert SubjectLetters(Subjects) by {
      assert forall i, j :: 0 <= i < j < 4 ==> Subjects[i] != Subjects[j];
    }
    AddGenresKeeps("", Subjects);
    assert "" + Subjects == Subjects;
  }

  /** A rendered rule splits back into its fields. */
  lemma FieldsOfRuleString(rule: MockRule)
    requires WellFormed(rule)
    ensures Split(Inner(RuleString(rule)), ' ') == RuleFields(rule)
  {
    RuleFieldsClean(rule);
    assert Inner(RuleString(rule)) == Join(RuleFields(rule), ' ');
    SplitJoin(RuleFields(rule), ' ');
  }

  lemma ParseRuleFields(rule: MockRule)
    requires WellFormed(rule)
    ensures ParseFields(RuleFields(rule)) == Some(Normalized(rule))
  {
    IntToStringParses(rule.lower);
    IntToStringParses(rule.upper);
    var fields := RuleFields(rule);
    assert ParseInt(fields[0]) == Some(rule.lower);
    assert ParseInt(fields[1]) == Some(rule.upper);
    if ShowsGenres(rule) {
      AddGenresKeeps("", rule.genres);
      assert "" + rule.genres == rule.genres;
      assert GenreLetters(fields[2]) == rule.genres;
    } else {
      SubjectsWellFormed();
    }
  }

  /** Parsing a rendered rule gives the rule back, with empty genres read as all four. */
  lemma ParseRuleString(rule: MockRule)
    requires WellFormed(rule)
    ensures ParseRule(RuleString(rule)) == Some(Normalized(rule))
  {
    FieldsOfRuleString(rule);
    ParseRuleFields(rule);
  }

  /** The matches of the joined renderings are the renderings themselves. */
  /** The text between a rule's brackets holds no ']' and no newline. */
  lemma InnerClean(rule: MockRule)
    requires WellFormed(rule)
    ensures forall i :: 0 <= i < |Join(RuleFields(rule), ' ')| ==>
      Join(RuleFields(rule), ' ')[i] != ']' && Join(RuleFields(rule), ' ')[i] != '\n'
  {
    RuleFieldsClean(rule);
    var inner := Join(RuleFields(rule), ' ');
    JoinChars(RuleFields(rule), ' ', ']');
    JoinChars(RuleFields(rule), ' ', '\n');
    forall i | 0 <= i < |inner| ensures inner[i] != ']' && inner[i] != '\n' {
      assert inner[i] in inner;
    }
  }

  lemma {:induction false} BracketsOfJoin(rules: seq<MockRule>)
    requires forall k :: 0 <= k < |rules| ==> WellFormed(rules[k])
    ensures Brackets(Join(RuleStrings(rules), ' ')) == RuleStrings(rules)
    decreases |rules|
  {
    if rules != [] {
      var strs := RuleStrings(rules);
      var head := rules[0];
      var inner := Join(RuleFields(head), ' ');
      InnerClean(head);
      assert RuleStrings(rules[1..]) == strs[1..];
      if |rules| == 1 {
        assert Join(strs, ' ') == "[" + inner + "]" + "";
        BracketsCons(inner, "");
        assert Brackets("") == [];
      } else {
        BracketsOfJoin(rules[1..]);
        var rest := Join(strs[1..], ' ');
        assert Join(strs, ' ') == "[" + inner + "]" + (" " + rest);
        BracketsCons(inner, " " + rest);
        BracketsSpace(rest);
      }
      assert [strs[0]] + strs[1..] == strs;
    }
  }

  lemma NoCommas(rules: seq<MockRule>)
    requires forall k :: 0 <= k < |rules| ==> WellFormed(rules[k])
    ensures ReplaceChar(Join(RuleStrings(rules), ' '), ',', ' ') == Join(RuleStrings(rules), ' ')
  {
    var strs := RuleStrings(rules);
    forall k | 0 <= k < |strs| ensures ',' !in strs[k] {
      RuleFieldsClean(rules[k]);
      JoinChars(RuleFields(rules[k]), ' ', ',');
    }
    JoinChars(strs, ' ', ',');
    var text := Join(strs, ' ');
    assert forall i :: 0 <= i < |text| ==> text[i] != ',' by {
      forall i | 0 <= i < |text| ensures text[i] != ',' { assert text[i] in text; }
    }
  }

  /** Stringifying well-formed rules and parsing the text again gives the rules
      back, empty genres read as all four subjects. */
  lemma RoundTrip(rules: seq<MockRule>)
    requires forall k :: 0 <= k < |rules| ==> WellFormed(rules[k])
    ensures MockRulesOf(Join(RuleStrings(rules), ' ')) ==
      Some(seq(|rules|, k requires 0 <= k < |rules| => Normalized(rules[k])))
  {
    var strs := RuleStrings(rules);
    NoCommas(rules);
    BracketsOfJoin(rules);
    assert MockRulesOf(Join(strs, ' ')) == ParseRules(strs);
    forall k | 0 <= k < |rules| ensures ParseRule(strs[k]) == Some(Normalized(rules[k])) {
      ParseRuleString(rules[k]);
    }
    var expected := seq(|rules|, k requires 0 <= k < |rules| => Normalized(rules[k]));
    ParseRulesSucceeds(strs, expected);
  }

  /** Clamping happens after the order check, so a range above 14 parses to a
      rule whose lower bound exceeds its upper bound. */
  lemma ClampCanInvert()
    ensures ParseRule("[20 30]") == Some(MockRule(20, 14, Subjects))
  {
    assert Inner("[20 30]") == Join(["20", "30"], ' ');
    SplitJoin(["20", "30"], ' ');
    ClampFields();
  }

  lemma ClampFields()
    ensures ParseFields(["20", "30"]) == Some(MockRule(20, 14, Subjects))
  {
    IntToStringParses(20);
    IntToStringParses(30);
    assert IntToString(20) == "20" && IntToString(30) == "30";
    SubjectsWellFormed();
  }

  /** Commas become spaces before splitting on single spaces, so "[5, 7]" has an
      empty middle field and the whole text is rejected. */
  lemma CommaSpaceRejected()
    ensures MockRulesOf("[5, 7]") == None
  {
    CommaSpaceMatches();
    CommaSpaceRule();
    ParseRulesFails(["[5  7]"], 0);
  }

  lemma CommaSpaceMatches()
    ensures Brackets(ReplaceChar("[5, 7]", ',', ' ')) == ["[5  7]"]
  {
    var inner := "5  7";
    assert ReplaceChar("[5, 7]", ',', ' ') == "[" + inner + "]" + "";
    BracketsCons(inner, "");
    assert Brackets("") == [];
    assert "[" + inner + "]" == "[5  7]";
  }

  lemma CommaSpaceRule()
    ensures ParseRule("[5  7]") == None
  {
    assert Inner("[5  7]") == Join(["5", "", "7"], ' ');
    SplitJoin(["5", "", "7"], ' ');
    assert ParseInt("") == None;
  }
}
