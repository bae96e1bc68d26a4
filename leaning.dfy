/** The juror rows of the leaning report: a table cell of text is cleaned of
    `(cid:N)` glyph codes, stars and periods, cut into its non-blank lines,
    and read as a juror with eight fields. */
module Leaning {
  import opened Common

  datatype Juror = Juror(name: string, gender: string, age: int, education: string,
                         maritalStatus: string, race: string, occupation: string, finalLeaning: string)

  /** What `parse_row` does with a cell: no cell gives `None`, a readable
      cell a juror, and any other cell raises (`IndexError` or `ValueError`). */
  datatype RowResult = NoRow | Parsed(juror: Juror) | Raises

  // ---------------------------------------------------------------------------
  // cleanText
  // ---------------------------------------------------------------------------

  /** The number of leading digits. */
  function DigitRun(s: string): (n: nat)
    ensures n <= |s| && (forall k :: 0 <= k < n ==> IsDigit(s[k])) && (n < |s| ==> !IsDigit(s[n]))
  {
    if s != [] && IsDigit(s[0]) then 1 + DigitRun(s[1..]) else 0
  }

  /** The length of the `(cid:N)` code at the start of `s`, or 0 when there
      is none. */
  function CidLen(s: string): (n: nat)
    ensures n == 0 || (7 <= n <= |s| && s[..5] == "(cid:" && s[n - 1] == ')'
                       && forall k :: 5 <= k < n - 1 ==> IsDigit(s[k]))
  {
    if |s| >= 5 && s[..5] == "(cid:" then
      var d := DigitRun(s[5..]);
      if d > 0 && 5 + d < |s| && s[5 + d] == ')' then 6 + d else 0
    else 0
  }

  /** `cleanText`: the substitution scans left to right, dropping a
      `(cid:N)` code, a `*` or a `.` wherever one starts, and keeping every
      other character. */
  function CleanText(s: string): (r: string)
    ensures |r| <= |s|
    decreases |s|
  {
    if s == [] then []
    else
      var n := CidLen(s);
      if n > 0 then CleanText(s[n..])
      else if s[0] == '*' || s[0] == '.' then CleanText(s[1..])
      else [s[0]] + CleanText(s[1..])
  }

  /** The cleaned text has no star and no period. */
  lemma {:induction false} CleanNoStarOrPeriod(s: string)
    ensures '*' !in CleanText(s) && '.' !in CleanText(s)
    decreases |s|
  {
    if s != [] {
      var n := CidLen(s);
      if n > 0 {
        CleanNoStarOrPeriod(s[n..]);
      } else {
        CleanNoStarOrPeriod(s[1..]);
      }
    }
  }

  /** Text with no `(`, `*` or `.` is left as it is. */
  lemma {:induction false} CleanPlain(s: string)
    requires forall k :: 0 <= k < |s| ==> s[k] != '(' && s[k] != '*' && s[k] != '.'
    ensures CleanText(s) == s
    decreases |s|
  {
    if s != [] {
      assert s[0] != '(';
      if |s| >= 5 {
        assert s[..5][0] == s[0];
      }
      assert CidLen(s) == 0;
      CleanPlain(s[1..]);
      assert s == [s[0]] + s[1..];
    }
  }

  lemma {:induction false} DigitRunAppend(x: string, y: string)
    requires DigitRun(x) < |x| || (y != [] && !IsDigit(y[0]))
    ensures DigitRun(x + y) == DigitRun(x)
  {
    if x != [] && IsDigit(x[0]) {
      assert (x + y)[1..] == x[1..] + y;
      DigitRunAppend(x[1..], y);
    } else if x == [] {
      assert x + y == y;
    }
  }

  /** A code cannot run into a following `(`. */
  lemma CidLenBefore(p: string, r: string)
    requires p != [] && r != [] && r[0] == '('
    ensures CidLen(p + r) == CidLen(p)
    ensures CidLen(p) <= |p|
  {
    var s := p + r;
    if |p| < 5 {
      assert s[|p|] == '(';
      if |s| >= 5 {
        assert s[..5][|p|] == '(';
      }
    } else {
      assert s[..5] == p[..5];
      if p[..5] == "(cid:" {
        assert s[5..] == p[5..] + r;
        DigitRunAppend(p[5..], r);
        var d := DigitRun(p[5..]);
        if 5 + d < |p| {
          assert s[5 + d] == p[5 + d];
        } else {
          assert s[5 + d] == r[0];
        }
      }
    }
  }

  /** Cleaning splits at a `(`: no code starts before it and ends after it. */
  lemma {:induction false} CleanSplit(p: string, r: string)
    requires r != [] && r[0] == '('
    ensures CleanText(p + r) == CleanText(p) + CleanText(r)
    decreases |p|
  {
    if p == [] {
      assert p + r == r;
    } else {
      var s := p + r;
      CidLenBefore(p, r);
      var n := CidLen(p);
      if n > 0 {
        assert s[n..] == p[n..] + r;
        CleanSplit(p[n..], r);
      } else {
        assert s[0] == p[0];
        assert s[1..] == p[1..] + r;
        CleanSplit(p[1..], r);
        if !(p[0] == '*' || p[0] == '.') {
          AppendAssoc([p[0]], CleanText(p[1..]), CleanText(r));
        }
      }
    }
  }

  /** A `(cid:N)` code at the start is dropped as a whole. */
  lemma CleanCid(digits: string, q: string)
    requires IsDigits(digits)
    ensures CleanText("(cid:" + digits + ")" + q) == CleanText(q)
  {
    var r := "(cid:" + digits + ")" + q;
    assert r[..5] == "(cid:";
    assert r[5..] == digits + ([')'] + q);
    DigitRunAppend(digits, [')'] + q);
    assert DigitRun(digits) == |digits|;
    assert r[5 + |digits|] == ')';
    assert CidLen(r) == 6 + |digits|;
    assert r[6 + |digits|..] == q;
  }

  /** A `(cid:N)` code is removed wherever it occurs in the raw text. */
  lemma CleanRemovesCid(p: string, digits: string, q: string)
    requires IsDigits(digits)
    ensures CleanText(p + ("(cid:" + digits + ")") + q) == CleanText(p) + CleanText(q)
  {
    var r := "(cid:" + digits + ")" + q;
    assert p + ("(cid:" + digits + ")") + q == p + r;
    assert r[0] == '(';
    CleanSplit(p, r);
    CleanCid(digits, q);
  }

  // ---------------------------------------------------------------------------
  // parse_row
  // ---------------------------------------------------------------------------

  /** The stripped non-blank lines of the cleaned cell. */
  function Lines(row: string): seq<string>
  {
    FilterMap(Split(CleanText(row), "\n"), NonBlank, Strip)
  }

  /** `line.split(': ')[1]`: the text between the first and the second
      `': '`, or nothing when the line has none. */
  function Field(line: string): Option<string>
  {
    var parts := Split(line, ": ");
    if |parts| >= 2 then Some(parts[1]) else None
  }

  /** Digits in groups separated by single underscores, as `int()` reads
      them. */
  predicate DigitGroups(b: string)
  {
    && |b| > 0 && IsDigit(b[0]) && IsDigit(b[|b| - 1])
    && forall k :: 0 <= k < |b| ==> IsDigit(b[k]) || (b[k] == '_' && k + 1 < |b| && IsDigit(b[k + 1]))
  }

  /** The value of digit groups, underscores ignored. */
  function GroupsValue(b: string): nat
  {
    if b == [] then 0
    else
      var n := |b| - 1;
      if IsDigit(b[n]) then GroupsValue(b[..n]) * 10 + (b[n] as int - '0' as int)
      else GroupsValue(b[..n])
  }

  /** Python's `int()` on a string: surrounding whitespace, an optional sign,
      then digit groups. */
  function ParseInt(s: string): (r: Option<int>)
    ensures Strip(s) == "" ==> r.None?
  {
    var t := Strip(s);
    if |t| > 0 && (t[0] == '-' || t[0] == '+') then
      var b := t[1..];
      var v: int := GroupsValue(b);
      if DigitGroups(b) then Some(if t[0] == '-' then -v else v) else None
    else if DigitGroups(t) then Some(GroupsValue(t))
    else None
  }

  lemma {:induction false} GroupsValueDigits(s: string)
    requires forall k :: 0 <= k < |s| ==> IsDigit(s[k])
    ensures GroupsValue(s) == DigitsValue(s)
  {
    if s != [] {
      GroupsValueDigits(s[..|s| - 1]);
    }
  }

  /** `int(str(n)) == n`. */
  lemma ParseIntToString(n: int)
    ensures ParseInt(IntToString(n)) == Some(n)
  {
    var s := IntToString(n);
    var m := if n < 0 then -n else n;
    var digits := NatToString(m);
    assert Strip(s) == s;
    GroupsValueDigits(digits);
    if n < 0 {
      assert s[1..] == digits;
    } else {
      assert s == digits;
    }
  }

  /** The reading of the lines: the offset, then the eight fields in order;
      a missing line, a line without `': '` or an age that is not an integer
      raises. */
  function ReadJuror(lines: seq<string>): RowResult
  {
    if |lines| < 2 then Raises
    else
      var i := if lines[1] == "*" then 2 else 1;
      if |lines| < i + 8 then Raises
      else
        var gender, ageText, education := Field(lines[i + 1]), Field(lines[i + 2]), Field(lines[i + 3]);
        var marital, race, leaning := Field(lines[i + 4]), Field(lines[i + 5]), Field(lines[i + 7]);
        var age := if ageText.Some? then ParseInt(ageText.value) else None;
        if gender.None? || age.None? || education.None? || marital.None? || race.None? || leaning.None? then Raises
        else Parsed(Juror(lines[i], gender.value, age.value, education.value,
                          marital.value, race.value, lines[i + 6], leaning.value))
  }

  /** `parse_row`: no cell gives `None` and only then.  Because `cleanText`
      has removed every star, the test for a `*` line never holds and the
      fields start at the second line. */
  function ParseRow(row: Option<string>): (r: RowResult)
    ensures r == NoRow <==> row.None?
  {
    if row.None? then NoRow else ReadJuror(Lines(row.value))
  }

  /** A character that is not in the text is in none of its pieces. */
  lemma {:induction false} SplitWithout(s: string, sep: string, c: char)
    requires |sep| > 0 && forall m :: 0 <= m < |s| ==> s[m] != c
    ensures forall k :: 0 <= k < |Split(s, sep)| ==> c !in Split(s, sep)[k]
    decreases |s|
  {
    match IndexOf(s, sep)
    case None =>
      assert Split(s, sep) == [s];
    case Some(i) =>
      var rest := s[i + |sep|..];
      var parts := Split(s, sep);
      assert parts == [s[..i]] + Split(rest, sep);
      assert forall m :: 0 <= m < |rest| ==> rest[m] == s[i + |sep| + m];
      SplitWithout(rest, sep, c);
      assert forall m :: 0 <= m < i ==> s[..i][m] == s[m];
      forall k | 0 <= k < |parts| ensures c !in parts[k] {
        if k > 0 {
          assert parts[k] == Split(rest, sep)[k - 1];
        }
      }
  }

  /** No line is a lone star, so the offset is always 1. */
  lemma NoStarLine(row: string, j: nat)
    requires j < |Lines(row)|
    ensures Lines(row)[j] != "*"
  {
    var text := CleanText(row);
    var parts := Split(text, "\n");
    CleanNoStarOrPeriod(row);
    FilterMapPositions(parts, NonBlank, Strip);
    var i := Positions(parts, NonBlank)[j];
    var line := Strip(parts[i]);
    assert Lines(row)[j] == line;
    assert forall m :: 0 <= m < |text| ==> text[m] != '*' by {
      forall m | 0 <= m < |text| ensures text[m] != '*' {
        assert text[m] in text;
      }
    }
    SplitWithout(text, "\n", '*');
    StripInfix(parts[i]);
  }

  /** A line has a second `': '`-separated piece exactly when it holds `': '`. */
  lemma FieldPresent(line: string)
    ensures Field(line).Some? <==> Contains(line, ": ")
  {
    IndexOfFirstOccurrence(line, ": ");
    match IndexOf(line, ": ")
    case None =>
      if Contains(line, ": ") {
        ContainsWitness(line, ": ");
      }
    case Some(i) =>
      assert |Split(line, ": ")| >= 2;
      ContainsAt(line, ": ", i);
  }

  /** Lines without a lone-star second line are read as a juror exactly
      when there are nine of them, each field line holds `': '` and the age
      piece is an integer; the juror then holds the name from the second line,
      the occupation from the eighth, every other field as the second `': '`
      piece of its line and the age as that piece read as an integer. */
  lemma ReadJurorFields(lines: seq<string>)
    requires |lines| >= 2 ==> lines[1] != "*"
    ensures ReadJuror(lines).Parsed? <==>
              && |lines| >= 9
              && Contains(lines[2], ": ") && Contains(lines[4], ": ") && Contains(lines[5], ": ")
              && Contains(lines[6], ": ") && Contains(lines[8], ": ")
              && Field(lines[3]).Some? && ParseInt(Field(lines[3]).value).Some?
    ensures var r := ReadJuror(lines);
            r.Parsed? ==>
              && |lines| >= 9 && r.juror.name == lines[1] && r.juror.occupation == lines[7]
              && Field(lines[2]) == Some(r.juror.gender) && Field(lines[4]) == Some(r.juror.education)
              && Field(lines[5]) == Some(r.juror.maritalStatus) && Field(lines[6]) == Some(r.juror.race)
              && Field(lines[8]) == Some(r.juror.finalLeaning)
              && Field(lines[3]).Some? && ParseInt(Field(lines[3]).value) == Some(r.juror.age)
  {
    if |lines| >= 9 {
      FieldPresent(lines[2]);
      FieldPresent(lines[4]);
      FieldPresent(lines[5]);
      FieldPresent(lines[6]);
      FieldPresent(lines[8]);
    }
  }

  /** The second cleaned, non-blank line of a cell is never a lone star, so
      a cell is read by `ReadJurorFields` with the fields from line 1 on. */
  lemma ParseRowLines(row: string)
    ensures |Lines(row)| >= 2 ==> Lines(row)[1] != "*"
  {
    if |Lines(row)| >= 2 {
      NoStarLine(row, 1);
    }
  }
}
