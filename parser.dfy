/** The command-line parser (CommandParser.java): three arguments, an action
    word, a letter-and-digit seat position and a decimal seat count, turned
    into a `Command` through the builder's setters. */
module CommandParsing {
  import opened Results
  import opened Commands

  /** The range of a Java `int`, which is what Integer.parseInt accepts. */
  const INT_MIN: int := -0x8000_0000
  const INT_MAX: int := 0x7fff_ffff

  /** parseAction: exactly "BOOK" or "CANCEL" (case-sensitive); any other
      word raises. */
  function ParseAction(name: string): (r: Result<Action>)
    ensures r == Ok(BOOK) <==> name == "BOOK"
    ensures r == Ok(CANCEL) <==> name == "CANCEL"
    ensures r.Err? ==> r.error == InvalidActionName
  {
    if name == "BOOK" then Ok(BOOK)
    else if name == "CANCEL" then Ok(CANCEL)
    else Err(InvalidActionName)
  }

  /** The word that names an action on the command line. */
  function ActionName(a: Action): string {
    match a
    case BOOK => "BOOK"
    case CANCEL => "CANCEL"
  }

  /** parsePosition: any two characters are accepted; the row is the first
      one's distance from 'A' and the column the second one's distance from
      '0', so that neither need be in range yet (the setters check that). */
  function ParsePosition(position: string): (r: Result<(int, int)>)
    ensures r.Ok? <==> |position| == 2
    ensures r.Err? ==> r.error == InvalidPositionFormat
    ensures r.Ok? ==> PositionText(r.value.0, r.value.1) == position
  {
    if |position| != 2 then Err(InvalidPositionFormat)
    else Ok((position[0] as int - 'A' as int, position[1] as int - '0' as int))
  }

  /** A Unicode scalar value, that is, the code of some `char`. */
  predicate IsCharCode(v: int) {
    0 <= v < 0xD800 || 0xE000 <= v < 0x11_0000
  }

  /** True when `'A' + row` and `'0' + col` are characters. */
  predicate Printable(row: int, col: int) {
    IsCharCode('A' as int + row) && IsCharCode('0' as int + col)
  }

  /** The two-character text of a position: row letter, then column digit. */
  function PositionText(row: int, col: int): (text: string)
    ensures Printable(row, col) ==> |text| == 2
    ensures Printable(row, col) ==> text[0] as int - 'A' as int == row && text[1] as int - '0' as int == col
  {
    if Printable(row, col) then [('A' as int + row) as char, ('0' as int + col) as char]
    else ""
  }

  /** An ASCII decimal digit. */
  predicate IsDigit(c: char) { '0' <= c <= '9' }

  /** A non-empty run of decimal digits. */
  predicate IsNumeral(s: string) {
    |s| >= 1 && forall i :: 0 <= i < |s| ==> IsDigit(s[i])
  }

  /** The value of a run of decimal digits, most significant first. */
  function NumeralValue(s: string): nat
    requires forall i :: 0 <= i < |s| ==> IsDigit(s[i])
  {
    if |s| == 0 then 0
    else
      assert IsDigit(s[|s| - 1]);
      NumeralValue(s[..|s| - 1]) * 10 + (s[|s| - 1] as int - '0' as int)
  }

  /** The texts Integer.parseInt reads as a number: an optional '-' or '+'
      followed by at least one digit. */
  predicate IsIntegerText(s: string) {
    IsNumeral(s) || (|s| >= 1 && (s[0] == '-' || s[0] == '+') && IsNumeral(s[1..]))
  }

  /** Integer.parseInt over ASCII digits: an optional '-' or '+', then at
      least one digit, and a value that fits a Java `int`; anything else is
      `None` (a NumberFormatException). */
  function ParseInt(s: string): (r: Option<int>)
    ensures r.Some? ==> IsIntegerText(s) && INT_MIN <= r.value <= INT_MAX
    ensures IsNumeral(s) ==>
              (r.Some? <==> NumeralValue(s) <= INT_MAX) && (r.Some? ==> r.value == NumeralValue(s))
    ensures |s| >= 1 && s[0] == '+' && IsNumeral(s[1..]) ==>
              (r.Some? <==> NumeralValue(s[1..]) <= INT_MAX) && (r.Some? ==> r.value == NumeralValue(s[1..]))
    ensures |s| >= 1 && s[0] == '-' && IsNumeral(s[1..]) ==>
              (r.Some? <==> NumeralValue(s[1..]) <= -INT_MIN) && (r.Some? ==> r.value == -(NumeralValue(s[1..]) as int))
  {
    if |s| == 0 then None
    else
      var negative := s[0] == '-';
      var digits := if s[0] == '-' || s[0] == '+' then s[1..] else s;
      if !IsNumeral(digits) then None
      else
        var magnitude: int := NumeralValue(digits);
        var v := if negative then -magnitude else magnitude;
        if INT_MIN <= v <= INT_MAX then Some(v) else None
  }

  /** Counts as the tests and a user might write them: a non-numeric text,
      a number with trailing letters and a bare sign are rejected, and a
      signed number keeps its sign. */
  lemma CountTextExamples()
    ensures ParseInt("abc") == None && ParseInt("2x") == None
    ensures ParseInt("-") == None && ParseInt("") == None
    ensures ParseInt("-5") == Some(-5) && ParseInt("+3") == Some(3)
  {
    assert !IsDigit("abc"[0]) && !IsDigit("2x"[1]);
    assert "-5"[1..] == "5" && "+3"[1..] == "3";
  }

  /** parseConsecutiveNumber: Integer.parseInt, whose NumberFormatException
      becomes an IllegalArgumentException. */
  function ParseConsecutiveNumber(text: string): (r: Result<int>)
    ensures r.Ok? <==> ParseInt(text).Some?
    ensures r.Ok? ==> r.value == ParseInt(text).value
    ensures r.Err? ==> r.error == InvalidConsecutiveNumber
  {
    match ParseInt(text)
    case None => Err(InvalidConsecutiveNumber)
    case Some(v) => Ok(v)
  }

  /** The decimal digits of a natural number, without sign or leading zeros. */
  function Decimal(n: nat): (s: string)
    ensures IsNumeral(s)
    decreases n
  {
    if n < 10 then [('0' as int + n) as char]
    else Decimal(n / 10) + [('0' as int + n % 10) as char]
  }

  /** Reading back the digits of `n` gives `n`. */
  lemma {:induction false} DecimalValue(n: nat)
    ensures NumeralValue(Decimal(n)) == n
    decreases n
  {
    var s := Decimal(n);
    if n >= 10 {
      DecimalValue(n / 10);
      assert s[..|s| - 1] == Decimal(n / 10);
    }
  }

  /** parseInt reads back every non-negative `int` written in decimal. */
  lemma ParseDecimal(n: nat)
    requires n <= INT_MAX
    ensures ParseInt(Decimal(n)) == Some(n)
  {
    DecimalValue(n);
    assert Decimal(n)[0] != '-' && Decimal(n)[0] != '+';
  }

  /** CommandParser.parse: exactly three arguments, then the action, the
      position and the count are parsed in that order, and the values go
      through the builder's setters, so the first failure is the one that
      raises.  A parsed command always carries an action and in-range
      fields. */
  function Parse(args: seq<string>): (r: Result<Command>)
    ensures |args| != 3 ==> r == Err(WrongArgumentCount)
    ensures r.Ok? <==>
              && |args| == 3
              && (args[0] == "BOOK" || args[0] == "CANCEL")
              && |args[1]| == 2
              && RowInRange(args[1][0] as int - 'A' as int)
              && ColumnInRange(args[1][1] as int - '0' as int)
              && ParseInt(args[2]).Some? && CountInRange(ParseInt(args[2]).value)
    ensures r.Ok? ==>
              && r.value.action.Some?
              && RowInRange(r.value.rowNumber)
              && ColumnInRange(r.value.columnNumber)
              && CountInRange(r.value.consecutiveSeats)
    ensures r.Ok? ==> (r.value.action == Some(BOOK) <==> args[0] == "BOOK")
    ensures r.Ok? ==>
              && r.value.rowNumber == args[1][0] as int - 'A' as int
              && r.value.columnNumber == args[1][1] as int - '0' as int
              && r.value.consecutiveSeats == ParseInt(args[2]).value
  {
    if |args| != 3 then Err(WrongArgumentCount)
    else
      var action :- ParseAction(args[0]);
      var position :- ParsePosition(args[1]);
      var count :- ParseConsecutiveNumber(args[2]);
      SetterChain(Some(action), position.0, position.1, count)
  }

  /** A count written with a leading zero or a plus sign is read as its
      value, as Integer.parseInt reads it. */
  lemma PaddedAndSignedCounts()
    ensures Parse(["BOOK", "A3", "02"]) == Ok(Command(Some(BOOK), 0, 3, 2))
    ensures Parse(["CANCEL", "B5", "+2"]) == Ok(Command(Some(CANCEL), 1, 5, 2))
  {
    assert NumeralValue("02") == 2 && NumeralValue("+2"[1..]) == 2;
  }

  /** The three arguments that denote a command. */
  function Unparse(c: Command): (args: seq<string>)
    requires c.action.Some?
    ensures |args| == 3
  {
    [ActionName(c.action.value), PositionText(c.rowNumber, c.columnNumber), Decimal(if c.consecutiveSeats < 0 then 0 else c.consecutiveSeats)]
  }

  /** Every command the setters accept is parsed back from its own text. */
  lemma {:induction false} ParseUnparse(c: Command)
    requires c.action.Some?
    requires RowInRange(c.rowNumber) && ColumnInRange(c.columnNumber) && CountInRange(c.consecutiveSeats)
    ensures Parse(Unparse(c)) == Ok(c)
  {
    var args := Unparse(c);
    ParseDecimal(c.consecutiveSeats);
    assert ParseAction(args[0]) == Ok(c.action.value) by {
      match c.action.value
      case BOOK => assert args[0] == "BOOK";
      case CANCEL => assert args[0] == "CANCEL";
    }
    assert ParsePosition(args[1]) == Ok((c.rowNumber, c.columnNumber));
  }

  /** A parsed command determines its action word and position text: only
      the count may have been written in another form ("+2", "02"). */
  lemma {:induction false} ParseIsCanonical(args: seq<string>)
    requires Parse(args).Ok?
    ensures Unparse(Parse(args).value)[..2] == args[..2]
  {
    var c := Parse(args).value;
    var position := ParsePosition(args[1]).value;
    assert (c.rowNumber, c.columnNumber) == position;
    assert PositionText(c.rowNumber, c.columnNumber) == args[1];
    assert ActionName(c.action.value) == args[0];
  }
}
