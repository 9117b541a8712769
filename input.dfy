/**
 * How GameEngine reads a line: the exact-string command switch of the game loop and
 * the Convert.ToInt32 call of the attack sub-loop, whose exceptions are caught and leave
 * the choice at -1.
 */
module Input {
  import opened Wrappers
  import opened Layout

  /** The game loop's reading of one line. */
  datatype Command = Go(direction: Direction) | Fight | Quit | Unknown

  /** The switch on the raw input line: only the exact strings "1" to "6" are commands. */
  function ParseCommand(line: string): Command
  {
    if line == "1" then Go(North)
    else if line == "2" then Go(South)
    else if line == "3" then Go(East)
    else if line == "4" then Go(West)
    else if line == "5" then Fight
    else if line == "6" then Quit
    else Unknown
  }

  /** The number the menu prints in front of each command. */
  function Key(c: Command): (key: string)
    requires !c.Unknown?
  {
    match c
    case Go(d) => (match d case North => "1" case South => "2" case East => "3" case West => "4")
    case Fight => "5"
    case Quit => "6"
  }

  /** The menu line of a command: its key, then what it does. */
  function Label(c: Command): string
    requires !c.Unknown?
  {
    Key(c) + ". " +
    match c
    case Go(d) => (match d case North => "Move North" case South => "Move South" case East => "Move East" case West => "Move West")
    case Fight => "Attack"
    case Quit => "Exit Game"
  }

  /** The first character of every menu line is the input that selects that line's command. */
  lemma LabelSelects(c: Command)
    requires !c.Unknown?
    ensures |Label(c)| > 3 && Label(c)[1..3] == ". " && ParseCommand(Label(c)[..1]) == c
  {
    var line := Label(c);
    assert |Key(c)| == 1;
    assert line[..1] == Key(c) && line[1..3] == ". ";
    CommandKeysRoundTrip(c, line[..1]);
  }

  /** Typing the printed number gives back that command, and every command line is such a number. */
  lemma CommandKeysRoundTrip(c: Command, line: string)
    ensures !c.Unknown? ==> ParseCommand(Key(c)) == c
    ensures !ParseCommand(line).Unknown? ==> Key(ParseCommand(line)) == line
  {
  }

  /** Only "1".."4" choose a direction, in the order north, south, east, west. */
  lemma OnlyDigitsOneToFourMove(line: string)
    ensures ParseCommand(line).Go? <==> line == "1" || line == "2" || line == "3" || line == "4"
  {
  }

  const Int32Min: int := -0x8000_0000
  const Int32Max: int := 0x7fff_ffff

  /** The white space Int32 parsing skips before and after the number: U+0009..U+000D and the space. */
  predicate IsWhiteSpace(ch: char)
  {
    ch == ' ' || '\t' <= ch <= '\r'
  }

  predicate IsDigit(ch: char)
  {
    '0' <= ch <= '9'
  }

  predicate AllDigits(s: string)
  {
    forall i :: 0 <= i < |s| ==> IsDigit(s[i])
  }

  function DigitValue(ch: char): nat
    requires IsDigit(ch)
  {
    ch as int - '0' as int
  }

  /** Where Int32 parsing is in the line: before the number, after a sign, inside the digits
      (with the magnitude read so far), or in the white space after them. */
  datatype Phase = Leading | Signed(negative: bool) | Digits(negative: bool, magnitude: nat) | Trailing(negative: bool, magnitude: nat)

  /**
   * Convert.ToInt32 on a string, character by character: optional white space, an optional
   * sign, one or more decimal digits, optional white space, and a value inside the 32-bit
   * range; anything else throws, which is None here.
   */
  function Scan(s: string, phase: Phase): Option<int>
    decreases |s|
  {
    if s == [] then
      match phase
      case Digits(negative, m) => InRange(negative, m)
      case Trailing(negative, m) => InRange(negative, m)
      case _ => None
    else
      var ch := s[0];
      match phase
      case Leading =>
        if IsWhiteSpace(ch) then Scan(s[1..], Leading)
        else if ch == '-' then Scan(s[1..], Signed(true))
        else if ch == '+' then Scan(s[1..], Signed(false))
        else if IsDigit(ch) then Scan(s[1..], Digits(false, DigitValue(ch)))
        else None
      case Signed(negative) =>
        if IsDigit(ch) then Scan(s[1..], Digits(negative, DigitValue(ch))) else None
      case Digits(negative, m) =>
        if IsDigit(ch) then Scan(s[1..], Digits(negative, m * 10 + DigitValue(ch)))
        else if IsWhiteSpace(ch) then Scan(s[1..], Trailing(negative, m))
        else None
      case Trailing(negative, m) =>
        if IsWhiteSpace(ch) then Scan(s[1..], Trailing(negative, m)) else None
  }

  /** The signed value, or None when it does not fit in 32 bits (an OverflowException). */
  function InRange(negative: bool, m: nat): Option<int>
  {
    var v := if negative then -(m as int) else m as int;
    if Int32Min <= v <= Int32Max then Some(v) else None
  }

  function ParseInt32(s: string): Option<int>
  {
    Scan(s, Leading)
  }

  /** Whatever is typed, a parsed choice is a 32-bit integer. */
  lemma {:induction false} ScanInRange(s: string, phase: Phase)
    ensures Scan(s, phase).Some? ==> Int32Min <= Scan(s, phase).value <= Int32Max
    decreases |s|
  {
    if s != [] {
      var ch := s[0];
      match phase
      case Leading =>
        ScanInRange(s[1..], if IsWhiteSpace(ch) then Leading else if ch == '-' then Signed(true)
                            else if ch == '+' then Signed(false)
                            else if IsDigit(ch) then Digits(false, DigitValue(ch)) else Leading);
      case Signed(negative) =>
        if IsDigit(ch) { ScanInRange(s[1..], Digits(negative, DigitValue(ch))); }
      case Digits(negative, m) =>
        if IsDigit(ch) { ScanInRange(s[1..], Digits(negative, m * 10 + DigitValue(ch))); }
        else if IsWhiteSpace(ch) { ScanInRange(s[1..], Trailing(negative, m)); }
      case Trailing(negative, m) =>
        ScanInRange(s[1..], phase);
    }
  }

  /** The attack sub-loop's choice: the parsed number, or -1 when parsing threw. */
  function ParseChoice(line: string): int
  {
    match ParseInt32(line)
    case Some(v) => v
    case None => -1
  }

  /** The choice each line of the input would give the attack sub-loop, line by line. */
  function Choices(input: seq<string>): (choices: seq<int>)
    ensures |choices| == |input|
  {
    seq(|input|, i requires 0 <= i < |input| => ParseChoice(input[i]))
  }

  lemma ChoiceAt(input: seq<string>, i: nat)
    requires i < |input|
    ensures Choices(input)[i] == ParseChoice(input[i])
  {
  }

  function DigitChar(d: nat): (ch: char)
    requires d < 10
    ensures IsDigit(ch) && DigitValue(ch) == d
  {
    ('0' as int + d) as char
  }

  /** How C# string interpolation writes a non-negative int: decimal digits, no leading zero. */
  function Decimal(n: nat): (s: string)
    ensures s != [] && AllDigits(s)
    ensures |s| > 1 ==> s[0] != '0'
  {
    if n < 10 then [DigitChar(n)] else Decimal(n / 10) + [DigitChar(n % 10)]
  }

  /** The magnitude after reading the digits ds on top of m, most significant first. */
  function Accumulate(m: nat, ds: string): nat
    requires AllDigits(ds)
    decreases |ds|
  {
    if ds == [] then m else Accumulate(m * 10 + DigitValue(ds[0]), ds[1..])
  }

  lemma {:induction false} AccumulateLast(m: nat, ds: string, ch: char)
    requires AllDigits(ds) && IsDigit(ch)
    ensures Accumulate(m, ds + [ch]) == Accumulate(m, ds) * 10 + DigitValue(ch)
    decreases |ds|
  {
    if ds == [] {
      assert [] + [ch] == [ch];
    } else {
      assert (ds + [ch])[0] == ds[0];
      assert (ds + [ch])[1..] == ds[1..] + [ch];
      AccumulateLast(m * 10 + DigitValue(ds[0]), ds[1..], ch);
    }
  }

  lemma {:induction false} DecimalValue(n: nat)
    ensures Accumulate(0, Decimal(n)) == n
  {
    if n >= 10 {
      DecimalValue(n / 10);
      AccumulateLast(0, Decimal(n / 10), DigitChar(n % 10));
    }
  }

  /** Reading a run of digits to the end of the line only adds them to the magnitude. */
  lemma {:induction false} ScanDigits(ds: string, negative: bool, m: nat)
    requires AllDigits(ds)
    ensures Scan(ds, Digits(negative, m)) == InRange(negative, Accumulate(m, ds))
  {
    if ds != [] {
      ScanDigits(ds[1..], negative, m * 10 + DigitValue(ds[0]));
    }
  }

  /** Typing back a number the menu printed selects exactly that number. */
  lemma PrintedChoiceParses(n: nat)
    requires n <= Int32Max
    ensures ParseInt32(Decimal(n)) == Some(n)
    ensures ParseChoice(Decimal(n)) == n
  {
    var s := Decimal(n);
    ScanDigits(s[1..], false, DigitValue(s[0]));
    DecimalValue(n);
  }

  /** A negative number written with a minus sign parses to itself, down to the 32-bit minimum. */
  lemma NegativeChoiceParses(n: nat)
    requires 0 < n <= -Int32Min
    ensures ParseInt32("-" + Decimal(n)) == Some(-(n as int))
  {
    var s := "-" + Decimal(n);
    assert s[1..] == Decimal(n);
    assert s[2..] == Decimal(n)[1..];
    assert Scan(s, Leading) == Scan(s[1..], Signed(true));
    assert Scan(s[1..], Signed(true)) == Scan(s[2..], Digits(true, DigitValue(s[1])));
    ScanDigits(s[2..], true, DigitValue(s[1]));
    DecimalValue(n);
    assert Accumulate(0, Decimal(n)) == Accumulate(DigitValue(s[1]), s[2..]);
  }

  /** A number too large for 32 bits throws, so the choice stays -1. */
  lemma OverflowIsNoChoice(n: nat)
    requires n > Int32Max
    ensures ParseInt32(Decimal(n)) == None && ParseChoice(Decimal(n)) == -1
  {
    var s := Decimal(n);
    ScanDigits(s[1..], false, DigitValue(s[0]));
    DecimalValue(n);
  }

  /** Before any digit has been read, a line without digits cannot become a number. */
  lemma {:induction false} NoDigitsScan(s: string, phase: Phase)
    requires phase.Leading? || phase.Signed?
    requires forall i :: 0 <= i < |s| ==> !IsDigit(s[i])
    ensures Scan(s, phase) == None
  {
    if s != [] {
      NoDigitsScan(s[1..], if phase.Leading? && s[0] == '-' then Signed(true)
                           else if phase.Leading? && s[0] == '+' then Signed(false) else phase);
    }
  }

  /** A minus sign and a number below the 32-bit minimum throw, so the choice stays -1. */
  lemma NegativeOverflowIsNoChoice(n: nat)
    requires n > -Int32Min
    ensures ParseInt32("-" + Decimal(n)) == None && ParseChoice("-" + Decimal(n)) == -1
  {
    var s := "-" + Decimal(n);
    assert s[1..] == Decimal(n);
    assert s[2..] == Decimal(n)[1..];
    assert Scan(s, Leading) == Scan(s[1..], Signed(true));
    assert Scan(s[1..], Signed(true)) == Scan(s[2..], Digits(true, DigitValue(s[1])));
    ScanDigits(s[2..], true, DigitValue(s[1]));
    DecimalValue(n);
    assert Accumulate(0, Decimal(n)) == Accumulate(DigitValue(s[1]), s[2..]);
  }

  /** A line without any digit (empty, a word, a lone sign) cannot be parsed: the choice stays -1. */
  lemma NoDigitNoChoice(line: string)
    requires forall i :: 0 <= i < |line| ==> !IsDigit(line[i])
    ensures ParseInt32(line) == None && ParseChoice(line) == -1
  {
    NoDigitsScan(line, Leading);
  }
}
