/**
  The line parser: one input line becomes a (name, value) record or a
  failure. A line must hold exactly one separator; both fields are trimmed
  and the right one must read as a number.
 */
module Parser {
  import opened Wrappers
  import opened Text
  import opened Numbers

  /** One parsed observation. */
  datatype Record = Record(name: string, value: real)

  /** Why a line was not turned into a record. */
  datatype ParseError =
    | MalformedLine          // not exactly two fields
    | InvalidNumber(text: string)  // the trimmed value field does not read as a number
    | EmptyName              // the trimmed name field is empty

  /** The text left of the only separator of `line`. */
  function NameField(line: string): string
    requires Count(line, Separator) == 1
  {
    CountPositive(line, Separator);
    line[..IndexOf(line, Separator)]
  }

  /** The text right of the only separator of `line`. */
  function ValueField(line: string): string
    requires Count(line, Separator) == 1
  {
    CountPositive(line, Separator);
    line[IndexOf(line, Separator) + 1..]
  }

  /**
    The parser as written: splits on the separator, insists on exactly two
    parts, trims both and reads the right one as a number. An empty name is
    accepted.
   */
  function ParseLine(line: string): (r: Result<Record, ParseError>)
    ensures r == Err(MalformedLine) <==> Count(line, Separator) != 1
    ensures r.Ok? ==>
      && Count(line, Separator) == 1
      && r.value.name == TrimSpace(NameField(line))
      && ParseNum(TrimSpace(ValueField(line))) == Some(r.value.value)
    ensures r.Err? && r.error.InvalidNumber? ==>
      && Count(line, Separator) == 1
      && r.error.text == TrimSpace(ValueField(line))
      && ParseNum(r.error.text) == None
    ensures r != Err(EmptyName)
  {
    var parts := Split(line, Separator);
    if |parts| != 2 then Err(MalformedLine)
    else
      SplitTwoFields(line);
      var name := TrimSpace(parts[0]);
      var numberText := TrimSpace(parts[1]);
      match ParseNum(numberText)
      case None => Err(InvalidNumber(numberText))
      case Some(number) => Ok(Record(name, number))
  }

  /**
    The parser with the empty-name check the aggregation needs: a line whose
    name field is only white space is rejected instead of being passed on.
   */
  function ParseRecord(line: string): (r: Result<Record, ParseError>)
    ensures r.Ok? ==> r.value.name != [] && ParseLine(line) == r
    ensures r.Ok? <==> ParseLine(line).Ok? && ParseLine(line).value.name != []
    ensures r.Err? && ParseLine(line).Err? ==> r == ParseLine(line)
  {
    match ParseLine(line)
    case Err(e) => Err(e)
    case Ok(rec) => if rec.name == [] then Err(EmptyName) else Ok(rec)
  }

  /** A line is rejected for its name exactly when it is well formed but its name field is blank. */
  lemma EmptyNameIffBlank(line: string)
    ensures ParseRecord(line) == Err(EmptyName) <==>
      && Count(line, Separator) == 1
      && AllSpace(NameField(line))
      && ParseNum(TrimSpace(ValueField(line))).Some?
  {
    if Count(line, Separator) == 1 {
      TrimSpaceEmpty(NameField(line));
      SplitTwoFields(line);
    }
  }

  // ---------------------------------------------------------------------------
  // Splitting a line with one separator
  // ---------------------------------------------------------------------------

  lemma {:induction false} CountPositive(s: string, c: char)
    requires Count(s, c) > 0
    ensures c in s
  {
    if s[0] != c {
      CountPositive(s[1..], c);
    }
  }

  lemma {:induction false} CountAppend(a: string, b: string, c: char)
    ensures Count(a + b, c) == Count(a, c) + Count(b, c)
  {
    if |a| > 0 {
      assert (a + b)[1..] == a[1..] + b;
      CountAppend(a[1..], b, c);
    } else {
      assert a + b == b;
    }
  }

  lemma {:induction false} CountZero(s: string, c: char)
    requires Count(s, c) == 0
    ensures c !in s
  {
    if |s| > 0 {
      CountZero(s[1..], c);
    }
  }

  lemma {:induction false} AbsentCountsZero(s: string, c: char)
    requires c !in s
    ensures Count(s, c) == 0
  {
    if |s| > 0 {
      AbsentCountsZero(s[1..], c);
    }
  }

  /** With one separator, splitting yields exactly the name and value fields. */
  lemma SplitTwoFields(line: string)
    ensures Count(line, Separator) == 1 ==>
      Split(line, Separator) == [NameField(line), ValueField(line)]
  {
    if Count(line, Separator) == 1 {
      var a := NameField(line);
      var b := ValueField(line);
      assert line == a + [Separator] + b;
      CountAppend(a + [Separator], b, Separator);
      CountAppend(a, [Separator], Separator);
      CountZero(b, Separator);
      SplitPrefix(a, b, Separator);
      NoSeparatorIsOnePart(b, Separator);
    }
  }

  /** A line made of two separator-free fields parses field by field. */
  lemma ParseJoinedFields(line: string, a: string, b: string)
    requires line == a + [Separator] + b
    requires Separator !in a && Separator !in b
    ensures ParseLine(line) ==
      match ParseNum(TrimSpace(b))
      case None => Err(InvalidNumber(TrimSpace(b)))
      case Some(v) => Ok(Record(TrimSpace(a), v))
  {
    SplitPrefix(a, b, Separator);
    NoSeparatorIsOnePart(b, Separator);
  }

  /** The same for fields that carry no surrounding white space. */
  lemma ParseCleanFields(line: string, a: string, b: string)
    requires line == a + [Separator] + b
    requires Separator !in a && Separator !in b
    requires NoOuterSpace(a) && NoOuterSpace(b)
    ensures ParseLine(line) ==
      match ParseNum(b)
      case None => Err(InvalidNumber(b))
      case Some(v) => Ok(Record(a, v))
  {
    ParseJoinedFields(line, a, b);
    TrimmedIsFixed(a);
    TrimmedIsFixed(b);
  }

  /** Two fields with a valid number make a record. */
  lemma ExampleValid()
    ensures ParseLine("Alice;10.0") == Ok(Record("Alice", 10.0))
  {
    ReadTen();
    ParseCleanFields("Alice;10.0", "Alice", "10.0");
  }

  lemma ReadTen()
    ensures ParseNum("10.0") == Some(10.0)
  {
    assert "10.0" == FormatTenths(100);
    ParseFormatTenths(100);
  }

  /** A line without a separator is malformed. */
  lemma ExampleMalformed()
    ensures ParseLine("bad-line") == Err(MalformedLine)
  {
    AbsentCountsZero("bad-line", Separator);
  }

  lemma ExampleNotANumber()
    ensures ParseLine("Carol;abc") == Err(InvalidNumber("abc"))
  {
    assert ParseNum("abc") == None by { assert !IsDigit("abc"[0]); }
    ParseCleanFields("Carol;abc", "Carol", "abc");
  }

  /** A blank name passes the parser as written but not the checked one. */
  lemma ExampleBlankName()
    ensures ParseLine(" ;10") == Ok(Record("", 10.0))
    ensures ParseRecord(" ;10") == Err(EmptyName)
  {
    assert ParseNum("10") == Some(10.0) by {
      assert "10" == NatToDigits(10);
      DigitsRoundTrip(10);
    }
    BlankNameField(" ;10", " ", "10");
  }

  lemma BlankNameField(line: string, a: string, b: string)
    requires line == a + [Separator] + b
    requires Separator !in a && Separator !in b
    requires AllSpace(a) && NoOuterSpace(b)
    ensures ParseLine(line) ==
      match ParseNum(b)
      case None => Err(InvalidNumber(b))
      case Some(v) => Ok(Record("", v))
  {
    ParseJoinedFields(line, a, b);
    TrimSpaceEmpty(a);
    TrimmedIsFixed(b);
  }
}
