/** The time to live of a snapshot: a quantity and a unit, printed as a duration and parsed again. */
module SnapshotTTL {
  import opened Wrappers
  import opened Decimals

  datatype ParsedTTL = ParsedTTL(quantity: nat, unit: string)

  /** Numbers up to here are exact in the source's arithmetic. */
  const EXACT := 0x20_0000_0000_0000

  /** The hours in a unit that is counted in hours. */
  function HoursIn(unit: string): Option<nat> {
    match unit
    case "hours" => Some(1)
    case "days" => Some(24)
    case "weeks" => Some(168)
    case "months" => Some(720)
    case "years" => Some(8766)
    case _ => None
  }

  /** `quantity` is what `parseInt` makes of the argument; None is NaN. */
  function FormatTTL(quantity: Option<int>, unit: string): Result<string, string> {
    match quantity
    case None => Failure("Invalid snapshot TTL")
    case Some(n) =>
      match unit
      case "seconds" => Success(PrintInt(n) + "s")
      case "minutes" => Success(PrintInt(n) + "m")
      case "hours" => Success(PrintInt(n) + "h")
      case "days" => Success(PrintInt(n * 24) + "h")
      case "weeks" => Success(PrintInt(n * 168) + "h")
      case "months" => Success(PrintInt(n * 720) + "h")
      case "years" => Success(PrintInt(n * 8766) + "h")
      case _ => Failure("Invalid snapshot TTL")
  }

  function PrintInt(n: int): string {
    if n < 0 then "-" + Print(-n) else Print(n)
  }

  /** Digits followed by one of s, m and h. */
  predicate IsDuration(s: string) {
    |s| >= 2 && IsDigits(s[..|s| - 1]) && s[|s| - 1] in {'s', 'm', 'h'}
  }

  function ParseTTL(s: string): Result<ParsedTTL, string> {
    if !IsDuration(s) then Failure("Invalid snapshot TTL")
    else
      var quantity := Read(s[..|s| - 1]);
      match s[|s| - 1]
      case 's' => Success(ParsedTTL(quantity, "seconds"))
      case 'm' => Success(ParsedTTL(quantity, "minutes"))
      case _ => Success(InHours(quantity))
  }

  predicate IsUnit(unit: string) {
    unit in {"seconds", "minutes"} || HoursIn(unit).Some?
  }

  /** The length of a quantity of units in seconds. */
  function Seconds(quantity: nat, unit: string): nat
    requires IsUnit(unit)
  {
    match HoursIn(unit)
    case Some(h) => quantity * h * 3600
    case None => if unit == "minutes" then quantity * 60 else quantity
  }

  /** Whether `unit` divides a positive number of hours exactly. */
  predicate Divides(unit: string, hours: nat)
    requires HoursIn(unit).Some?
  {
    hours > 0 && hours % HoursIn(unit).value == 0
  }

  lemma ParsePrinted(n: nat, c: char)
    requires c in {'s', 'm', 'h'}
    ensures var s := Print(n) + [c]; IsDuration(s) && Read(s[..|s| - 1]) == n && s[|s| - 1] == c
  {
    ReadPrint(n);
    var s := Print(n) + [c];
    assert s[..|s| - 1] == Print(n);
  }

  /** The unit that a number of hours is given in. */
  function UnitFor(hours: nat): (unit: string)
    ensures HoursIn(unit).Some?
  {
    if Divides("years", hours) then "years"
    else if Divides("months", hours) then "months"
    else if Divides("weeks", hours) then "weeks"
    else if Divides("days", hours) then "days"
    else "hours"
  }

  /** The hours of a duration in the largest unit of the chain that divides them. */
  function InHours(quantity: nat): ParsedTTL {
    if quantity >= 8766 && quantity % 8766 == 0 then ParsedTTL(quantity / 8766, "years")
    else if quantity >= 720 && quantity % 720 == 0 then ParsedTTL(quantity / 720, "months")
    else if quantity >= 168 && quantity % 168 == 0 then ParsedTTL(quantity / 168, "weeks")
    else if quantity >= 24 && quantity % 24 == 0 then ParsedTTL(quantity / 24, "days")
    else ParsedTTL(quantity, "hours")
  }

  lemma InHoursIsExact(hours: nat)
    ensures InHours(hours).unit == UnitFor(hours)
    ensures InHours(hours).quantity * HoursIn(InHours(hours).unit).value == hours
  {
  }

  lemma ParseHours(hours: nat)
    ensures var r := ParseTTL(Print(hours) + "h");
            && r.Success? && r.value.unit == UnitFor(hours)
            && r.value.quantity * HoursIn(r.value.unit).value == hours
  {
    ParsePrinted(hours, 'h');
    assert Print(hours) + "h" == Print(hours) + ['h'];
    InHoursIsExact(hours);
    assert ParseTTL(Print(hours) + "h") == Success(InHours(hours));
  }

  lemma FormatHours(n: int, unit: string)
    requires HoursIn(unit).Some?
    ensures FormatTTL(Some(n), unit) == Success(PrintInt(n * HoursIn(unit).value) + "h")
  {
  }

  lemma NegativeIsRefused(n: int, c: char)
    requires n < 0
    ensures ParseTTL(PrintInt(n) + [c]).Failure?
  {
    var s := PrintInt(n) + [c];
    assert s[..|s| - 1][0] == '-';
  }

  /** A formatted TTL parses if and only if its quantity is not negative, and then to the same length of
      time, in the first of years, months, weeks and days that divides it exactly, or else in hours. */
  lemma ParseFormat(n: int, unit: string)
    requires IsUnit(unit) && -EXACT < n < EXACT
    requires HoursIn(unit).Some? ==> -EXACT < n * HoursIn(unit).value < EXACT
    ensures FormatTTL(Some(n), unit).Success?
    ensures ParseTTL(FormatTTL(Some(n), unit).value).Success? <==> n >= 0
    ensures n >= 0 ==>
              var r := ParseTTL(FormatTTL(Some(n), unit).value).value;
              && IsUnit(r.unit) && Seconds(r.quantity, r.unit) == Seconds(n, unit)
              && r.unit == (if HoursIn(unit).Some? then UnitFor(n * HoursIn(unit).value) else unit)
  {
    if HoursIn(unit).Some? {
      FormatHours(n, unit);
      if n >= 0 {
        ParseHours(n * HoursIn(unit).value);
      } else {
        NegativeIsRefused(n * HoursIn(unit).value, 'h');
      }
    } else {
      var c := if unit == "seconds" then 's' else 'm';
      assert FormatTTL(Some(n), unit) == Success(PrintInt(n) + [c]);
      if n >= 0 {
        ParsePrinted(n, c);
      } else {
        NegativeIsRefused(n, c);
      }
    }
  }

  /** A duration comes back from being parsed and formatted exactly when it has no leading zero. */
  lemma FormatParseIff(s: string)
    requires IsDuration(s) && Read(s[..|s| - 1]) < EXACT
    ensures ParseTTL(s).Success?
    ensures var r := ParseTTL(s).value;
            FormatTTL(Some(r.quantity), r.unit) == Success(s) <==> Canonical(s[..|s| - 1])
  {
    var digits := s[..|s| - 1];
    PrintReadIff(digits);
    assert s == digits + [s[|s| - 1]];
    var r := ParseTTL(s).value;
    assert FormatTTL(Some(r.quantity), r.unit) == Success(Print(Read(digits)) + [s[|s| - 1]]);
    if Print(Read(digits)) + [s[|s| - 1]] == s {
      assert (Print(Read(digits)) + [s[|s| - 1]])[..|s| - 1] == Print(Read(digits));
    }
  }

  // What the texts mean

  /** The seconds that a duration text stands for. */
  function Meaning(s: string): nat
    requires IsDuration(s)
  {
    var quantity := Read(s[..|s| - 1]);
    match s[|s| - 1]
    case 's' => quantity
    case 'm' => quantity * 60
    case _ => quantity * 3600
  }

  lemma UnitLengths()
    ensures IsUnit("seconds") && Seconds(1, "seconds") == 1
    ensures IsUnit("minutes") && Seconds(1, "minutes") == 60
    ensures IsUnit("hours") && Seconds(1, "hours") == 3_600
    ensures IsUnit("days") && Seconds(1, "days") == 86_400
    ensures IsUnit("weeks") && Seconds(1, "weeks") == 604_800
    ensures IsUnit("months") && Seconds(1, "months") == 2_592_000
    ensures IsUnit("years") && Seconds(1, "years") == 31_557_600
  {
  }

  lemma PrintedMeans(n: nat, c: char)
    requires c in {'s', 'm', 'h'}
    ensures var s := Print(n) + [c];
            IsDuration(s) && Meaning(s) == if c == 's' then n else if c == 'm' then n * 60 else n * 3600
  {
    ParsePrinted(n, c);
  }

  lemma FormatIsPrinted(n: nat, unit: string)
    requires IsUnit(unit)
    ensures match HoursIn(unit)
            case Some(h) => FormatTTL(Some(n), unit) == Success(Print(n * h) + ['h'])
            case None => FormatTTL(Some(n), unit) == Success(Print(n) + [if unit == "seconds" then 's' else 'm'])
  {
    if HoursIn(unit).Some? {
      FormatHours(n, unit);
      assert Print(n * HoursIn(unit).value) + "h" == Print(n * HoursIn(unit).value) + ['h'];
    }
  }

  /** What is printed stands for the quantity of units, and what is parsed for what the text stands for. */
  lemma FormatMeans(n: nat, unit: string)
    requires IsUnit(unit)
    ensures FormatTTL(Some(n), unit).Success?
    ensures var s := FormatTTL(Some(n), unit).value; IsDuration(s) && Meaning(s) == Seconds(n, unit)
  {
    FormatIsPrinted(n, unit);
    if HoursIn(unit).Some? {
      var hours := n * HoursIn(unit).value;
      PrintedMeans(hours, 'h');
      assert Seconds(n, unit) == hours * 3600;
    } else {
      PrintedMeans(n, if unit == "seconds" then 's' else 'm');
    }
  }

  lemma ParseMeans(s: string)
    requires IsDuration(s)
    ensures ParseTTL(s).Success?
    ensures var r := ParseTTL(s).value; IsUnit(r.unit) && Seconds(r.quantity, r.unit) == Meaning(s)
  {
    InHoursIsExact(Read(s[..|s| - 1]));
  }

  /** Hours come back in the first of years, months, weeks and days that divides them, else in hours. */
  lemma UnitForHours(hours: nat)
    ensures hours > 0 && hours % 8766 == 0 ==> UnitFor(hours) == "years"
    ensures hours > 0 && hours % 8766 != 0 && hours % 720 == 0 ==> UnitFor(hours) == "months"
    ensures hours > 0 && hours % 8766 != 0 && hours % 720 != 0 && hours % 168 == 0 ==> UnitFor(hours) == "weeks"
    ensures hours > 0 && hours % 8766 != 0 && hours % 720 != 0 && hours % 168 != 0 ==>
              UnitFor(hours) == if hours % 24 == 0 then "days" else "hours"
    ensures UnitFor(0) == "hours"
  {
  }

  lemma FormatFailsIff(quantity: Option<int>, unit: string)
    ensures FormatTTL(quantity, unit).Failure? <==>
            quantity.None? || unit !in {"seconds", "minutes", "hours", "days", "weeks", "months", "years"}
  {
  }
}
