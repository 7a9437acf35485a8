/** Python string and integer behaviour that the bot's command handlers rely on:
    `str.split(sep)`, `sep.join`, `str.split()`, `int(...)`, `str(int)`, ASCII
    `upper`/`lower`, substring tests, and the exceptions they raise. */
module PyStr {

  datatype Option<T> = None | Some(value: T)

  /** The Python exceptions that the modelled code can raise. */
  datatype Exc = ValueError | IndexError | TypeError

  /** The outcome of Python code that either returns a value or raises. */
  datatype Result<T> = Ok(value: T) | Raises(exc: Exc)

  function Max(a: int, b: int): int { if a >= b then a else b }
  function Min(a: int, b: int): int { if a <= b then a else b }

  // ---------------------------------------------------------------------------
  // Characters

  predicate IsDigit(c: char) { '0' <= c <= '9' }

  /** Whitespace as Python's `str.split()` and `int()` see it, restricted to ASCII. */
  predicate IsSpace(c: char) { c == ' ' || 9 <= c as int <= 13 || 28 <= c as int <= 31 }

  function UpperChar(c: char): char { if 'a' <= c <= 'z' then (c as int - 32) as char else c }
  function LowerChar(c: char): char { if 'A' <= c <= 'Z' then (c as int + 32) as char else c }

  function Upper(s: string): (r: string)
    ensures |r| == |s| && forall i :: 0 <= i < |s| ==> r[i] == UpperChar(s[i])
  {
    if s == [] then [] else [UpperChar(s[0])] + Upper(s[1..])
  }

  function Lower(s: string): (r: string)
    ensures |r| == |s| && forall i :: 0 <= i < |s| ==> r[i] == LowerChar(s[i])
  {
    if s == [] then [] else [LowerChar(s[0])] + Lower(s[1..])
  }

  /** The set of characters of a string, as Python's `set(s)`. */
  function Chars(s: string): set<char> { set i | 0 <= i < |s| :: s[i] }

  /** No character occurs twice. */
  predicate NoDup(s: string) { forall i, j :: 0 <= i < j < |s| ==> s[i] != s[j] }

  lemma {:induction false} NoDupCardinality(s: string)
    ensures |Chars(s)| <= |s|
    ensures NoDup(s) <==> |Chars(s)| == |s|
  {
    if s != [] {
      var t := s[..|s| - 1];
      var c := s[|s| - 1];
      NoDupCardinality(t);
      assert Chars(s) == Chars(t) + {c} by {
        forall x | x in Chars(s) ensures x in Chars(t) + {c} {
          var i :| 0 <= i < |s| && s[i] == x;
          if i < |s| - 1 { assert t[i] == x; }
        }
        forall x | x in Chars(t) + {c} ensures x in Chars(s) {
          if x in Chars(t) { var i :| 0 <= i < |t| && t[i] == x; assert s[i] == x; }
          else { assert s[|s| - 1] == x; }
        }
      }
      if c in Chars(t) {
        assert Chars(s) == Chars(t);
        var i :| 0 <= i < |t| && t[i] == c;
        assert s[i] == s[|s| - 1];
        assert !NoDup(s);
      } else {
        assert |Chars(s)| == |Chars(t)| + 1;
        if NoDup(s) {
          assert NoDup(t) by {
            forall i, j | 0 <= i < j < |t| ensures t[i] != t[j] { assert s[i] == t[i] && s[j] == t[j]; }
          }
        }
        if NoDup(t) {
          forall i, j | 0 <= i < j < |s| ensures s[i] != s[j] {
            if j == |s| - 1 { assert s[i] == t[i]; assert t[i] in Chars(t); }
            else { assert s[i] == t[i] && s[j] == t[j]; }
          }
        }
      }
    }
  }

  // ---------------------------------------------------------------------------
  // str.split(sep) and sep.join(parts)

  /** Python's `s.split(sep)` for a one-character separator: always at least one piece. */
  function Split(s: string, sep: char): (r: seq<string>)
    ensures |r| >= 1
    ensures forall k :: 0 <= k < |r| ==> sep !in r[k]
    decreases |s|
  {
    if s == [] then [""]
    else if s[0] == sep then [""] + Split(s[1..], sep)
    else
      var rest := Split(s[1..], sep);
      [[s[0]] + rest[0]] + rest[1..]
  }

  /** Python's `sep.join(parts)` for a one-character separator. */
  function Join(parts: seq<string>, sep: char): string
    decreases |parts|
  {
    if |parts| == 0 then ""
    else if |parts| == 1 then parts[0]
    else parts[0] + [sep] + Join(parts[1..], sep)
  }

  /** Splitting and joining again gives back the original string. */
  lemma {:induction false} JoinSplit(s: string, sep: char)
    ensures Join(Split(s, sep), sep) == s
    decreases |s|
  {
    if s != [] {
      JoinSplit(s[1..], sep);
      var rest := Split(s[1..], sep);
      if s[0] == sep {
        assert s == [sep] + s[1..];
      } else {
        if |rest| == 1 {
          assert Join(Split(s, sep), sep) == [s[0]] + rest[0];
        } else {
          assert Join(Split(s, sep), sep) == ([s[0]] + rest[0]) + [sep] + Join(rest[1..], sep);
          assert Join(rest, sep) == rest[0] + [sep] + Join(rest[1..], sep);
        }
        assert s == [s[0]] + s[1..];
      }
    }
  }

  /** Joining pieces free of the separator and splitting again gives back the pieces. */
  lemma {:induction false} SplitJoin(parts: seq<string>, sep: char)
    requires |parts| >= 1
    requires forall k :: 0 <= k < |parts| ==> sep !in parts[k]
    ensures Split(Join(parts, sep), sep) == parts
    decreases |parts|
  {
    if |parts| == 1 {
      SplitNoSep(parts[0], sep);
    } else {
      SplitJoin(parts[1..], sep);
      SplitPrefix(parts[0], [sep] + Join(parts[1..], sep), sep);
      SplitNoSep("", sep);
      assert Split([sep] + Join(parts[1..], sep), sep) == [""] + parts[1..] by {
        assert ([sep] + Join(parts[1..], sep))[1..] == Join(parts[1..], sep);
      }
      assert parts[0] + [sep] + Join(parts[1..], sep) == parts[0] + ([sep] + Join(parts[1..], sep));
      assert parts[0] + "" == parts[0];
      assert ([""] + parts[1..])[1..] == parts[1..];
      assert [parts[0]] + parts[1..] == parts;
    }
  }

  lemma {:induction false} SplitNoSep(s: string, sep: char)
    requires sep !in s
    ensures Split(s, sep) == [s]
    decreases |s|
  {
    if s != [] {
      SplitNoSep(s[1..], sep);
      assert [s[0]] + s[1..] == s;
    }
  }

  /** A separator-free prefix glues onto the first piece of what follows it. */
  lemma {:induction false} SplitPrefix(a: string, b: string, sep: char)
    requires sep !in a
    ensures Split(a + b, sep) == [a + Split(b, sep)[0]] + Split(b, sep)[1..]
    decreases |a|
  {
    if a == [] {
      assert a + b == b;
      assert a + Split(b, sep)[0] == Split(b, sep)[0];
      assert Split(b, sep) == [Split(b, sep)[0]] + Split(b, sep)[1..];
    } else {
      SplitPrefix(a[1..], b, sep);
      assert (a + b)[0] == a[0] && (a + b)[1..] == a[1..] + b;
      assert [a[0]] + (a[1..] + Split(b, sep)[0]) == a + Split(b, sep)[0];
    }
  }

  /** Concatenation of a sequence of strings, as Python's `"".join(parts)`. */
  function Concat(parts: seq<string>): string
    decreases |parts|
  {
    if parts == [] then "" else parts[0] + Concat(parts[1..])
  }

  lemma {:induction false} ConcatAppend(parts: seq<string>, last: string)
    ensures Concat(parts + [last]) == Concat(parts) + last
    decreases |parts|
  {
    if parts != [] {
      ConcatAppend(parts[1..], last);
      assert (parts + [last])[1..] == parts[1..] + [last];
    }
  }

  /** The characters `s.replace(old, new)` produces for one-character arguments. */
  function ReplaceChar(s: string, from: char, to: char): (r: string)
    ensures |r| == |s|
    ensures forall i :: 0 <= i < |s| ==> r[i] == (if s[i] == from then to else s[i])
  {
    if s == [] then [] else [if s[0] == from then to else s[0]] + ReplaceChar(s[1..], from, to)
  }

  // ---------------------------------------------------------------------------
  // str.split() with no argument

  /** Length of the run of non-whitespace characters at the start of `s`. */
  function WordLen(s: string): (n: nat)
    ensures n <= |s|
    ensures forall i :: 0 <= i < n ==> !IsSpace(s[i])
    ensures n < |s| ==> IsSpace(s[n])
  {
    if s == [] || IsSpace(s[0]) then 0 else 1 + WordLen(s[1..])
  }

  /** Python's `s.split()`: the maximal runs of non-whitespace characters, in order. */
  function Words(s: string): (r: seq<string>)
    ensures forall k :: 0 <= k < |r| ==> r[k] != "" && forall i :: 0 <= i < |r[k]| ==> !IsSpace(r[k][i])
    decreases |s|
  {
    if s == [] then []
    else if IsSpace(s[0]) then Words(s[1..])
    else
      var n := WordLen(s);
      [s[..n]] + Words(s[n..])
  }

  // ---------------------------------------------------------------------------
  // int(s) and str(n)

  predicate AllDigits(s: string) { forall i :: 0 <= i < |s| ==> IsDigit(s[i]) }

  /** ASCII form of `str.isnumeric()`: non-empty and every character a digit. */
  predicate IsNumeric(s: string) { |s| > 0 && AllDigits(s) }

  /** The value of one digit character (0 for any other character). */
  function DigitValue(c: char): nat
  {
    if IsDigit(c) then c as int - '0' as int else 0
  }

  /** The decimal value of a digit string, most significant digit first. */
  function DigitsValue(s: string): nat
    decreases |s|
  {
    if s == [] then 0 else 10 * DigitsValue(s[..|s| - 1]) + DigitValue(s[|s| - 1])
  }

  /** `s.lstrip()`. */
  function TrimStart(s: string): string
    decreases |s|
  {
    if s != [] && IsSpace(s[0]) then TrimStart(s[1..]) else s
  }

  /** `s.rstrip()`. */
  function TrimEnd(s: string): string
    decreases |s|
  {
    if s != [] && IsSpace(s[|s| - 1]) then TrimEnd(s[..|s| - 1]) else s
  }

  /** Python's `s.strip()` for ASCII whitespace. */
  function Strip(s: string): string { TrimEnd(TrimStart(s)) }

  /** A string without whitespace is its own strip. */
  lemma StripNoSpace(s: string)
    requires forall i :: 0 <= i < |s| ==> !IsSpace(s[i])
    ensures Strip(s) == s
  {
    assert TrimStart(s) == s;
    assert TrimEnd(s) == s;
  }

  /** Python's `int(s)` on a string: optional surrounding whitespace, an optional
      sign, then at least one digit; `None` where Python raises ValueError. */
  function ParseInt(s: string): Option<int>
  {
    ParseStripped(Strip(s))
  }

  /** `int(t)` for a string without surrounding whitespace. */
  function ParseStripped(t: string): Option<int>
  {
    if |t| > 1 && t[0] == '-' && IsNumeric(t[1..]) then Some(-(DigitsValue(t[1..]) as int))
    else if |t| > 1 && t[0] == '+' && IsNumeric(t[1..]) then Some(DigitsValue(t[1..]))
    else if IsNumeric(t) then Some(DigitsValue(t))
    else None
  }

  function DigitChar(d: nat): char
    requires d < 10
  {
    ('0' as int + d) as char
  }

  /** Python's `str(n)` for a natural number. */
  function NatToString(n: nat): string
    decreases n
  {
    if n < 10 then [DigitChar(n)] else NatToString(n / 10) + [DigitChar(n % 10)]
  }

  /** Python's `str(i)` for an integer. */
  function IntToString(i: int): string
  {
    if i < 0 then "-" + NatToString(-i) else NatToString(i)
  }

  lemma {:induction false} NatToStringDigits(n: nat)
    ensures IsNumeric(NatToString(n)) && DigitsValue(NatToString(n)) == n
    ensures 1 <= |NatToString(n)| && (n < 10 <==> |NatToString(n)| == 1)
    ensures n < 100 ==> |NatToString(n)| <= 2
    decreases n
  {
    if n >= 10 {
      NatToStringDigits(n / 10);
      var s := NatToString(n);
      assert s[..|s| - 1] == NatToString(n / 10);
    }
  }

  /** `int(str(i)) == i`: the printed form of an integer parses back to it. */
  lemma IntToStringParses(i: int)
    ensures ParseInt(IntToString(i)) == Some(i)
    ensures forall k :: 0 <= k < |IntToString(i)| ==> IsPrintedIntChar(IntToString(i)[k])
  {
    var n: nat := if i < 0 then -i else i;
    NatToStringDigits(n);
    IntToStringChars(i);
    if i < 0 {
      ParseNegative(NatToString(n));
    } else {
      ParseNonNegative(NatToString(n));
    }
  }

  lemma ParseNonNegative(s: string)
    requires IsNumeric(s)
    ensures ParseInt(s) == Some(DigitsValue(s))
  {
    StripNoSpace(s);
  }

  lemma ParseNegative(s: string)
    requires IsNumeric(s)
    ensures ParseInt("-" + s) == Some(-(DigitsValue(s) as int))
  {
    var t := "-" + s;
    assert forall k :: 0 <= k < |t| ==> !IsSpace(t[k]) by {
      forall k | 0 <= k < |t| ensures !IsSpace(t[k]) {
        if k > 0 { assert t[k] == s[k - 1]; }
      }
    }
    StripNoSpace(t);
    assert t[1..] == s;
    assert ParseStripped(t) == Some(-(DigitsValue(s) as int));
  }

  /** The characters `str(i)` can print: a sign and digits. */
  predicate IsPrintedIntChar(c: char) { IsDigit(c) || c == '-' }

  lemma IntToStringChars(i: int)
    ensures forall k :: 0 <= k < |IntToString(i)| ==> IsPrintedIntChar(IntToString(i)[k])
  {
    var n: nat := if i < 0 then -i else i;
    NatToStringDigits(n);
  }

  // ---------------------------------------------------------------------------
  // Substrings

  /** Python's `needle in hay` for strings. */
  predicate IsSubstring(needle: string, hay: string)
  {
    exists i :: 0 <= i <= |hay| - |needle| && OccursAt(needle, hay, i)
  }

  predicate OccursAt(needle: string, hay: string, i: int)
  {
    0 <= i <= |hay| - |needle| && hay[i..i + |needle|] == needle
  }

  // ---------------------------------------------------------------------------
  // List comprehensions over integer lists

  /** `[x for x in xs if x not in excluded]`. */
  function Without(xs: seq<int>, excluded: seq<int>): (r: seq<int>)
    ensures forall x :: x in r <==> x in xs && x !in excluded
    ensures |r| <= |xs|
    decreases |xs|
  {
    if xs == [] then []
    else if xs[0] in excluded then Without(xs[1..], excluded)
    else [xs[0]] + Without(xs[1..], excluded)
  }

  /** The filter keeps the original order: it distributes over concatenation. */
  lemma {:induction false} WithoutAppend(a: seq<int>, b: seq<int>, excluded: seq<int>)
    ensures Without(a + b, excluded) == Without(a, excluded) + Without(b, excluded)
    decreases |a|
  {
    if a == [] {
      assert a + b == b;
    } else {
      var head := if a[0] in excluded then [] else [a[0]];
      calc {
        Without(a + b, excluded);
      == { assert (a + b)[0] == a[0] && (a + b)[1..] == a[1..] + b; }
        head + Without(a[1..] + b, excluded);
      == { WithoutAppend(a[1..], b, excluded); }
        head + (Without(a[1..], excluded) + Without(b, excluded));
      ==
        Without(a, excluded) + Without(b, excluded);
      }
    }
  }

  /** `xs.count(x)`. */
  function Count(xs: seq<int>, x: int): nat
    decreases |xs|
  {
    if xs == [] then 0 else (if xs[|xs| - 1] == x then 1 else 0) + Count(xs[..|xs| - 1], x)
  }
}
