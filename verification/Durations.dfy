/** Durations as the user types them and as the program prints them back. */
module Durations {
  import opened Domain

  predicate IsWhitespace(c: char) {
    || '\t' <= c <= '\r'
    || c in {' ', '\U{0085}', '\U{00A0}', '\U{1680}', '\U{2028}', '\U{2029}', '\U{202F}', '\U{205F}', '\U{3000}'}
    || '\U{2000}' <= c <= '\U{200A}'
  }

  function TrimStart(s: string): string {
    if s != "" && IsWhitespace(s[0]) then TrimStart(s[1..]) else s
  }

  function TrimEnd(s: string): string {
    if s != "" && IsWhitespace(s[|s| - 1]) then TrimEnd(s[..|s| - 1]) else s
  }

  function Trim(s: string): string {
    TrimEnd(TrimStart(s))
  }

  predicate IsDigit(c: char) {
    '0' <= c <= '9'
  }

  /** The number a non-empty string of decimal digits spells. */
  function Decimal(s: string): Option<nat>
    requires s != ""
  {
    var last := s[|s| - 1];
    if !IsDigit(last) then None
    else if |s| == 1 then Some(last as nat - '0' as nat)
    else
      match Decimal(s[..|s| - 1])
      case None => None
      case Some(high) => Some(10 * high + last as nat - '0' as nat)
  }

  /** Integer parsing: an optional plus sign, at least one digit, and a value that fits in a u64. */
  function ParseU64(s: string): Option<u64> {
    var digits := if s != "" && s[0] == '+' then s[1..] else s;
    if digits == "" then None
    else
      match Decimal(digits)
      case None => None
      case Some(n) => if n <= U64_MAX then Some(n) else None
  }

  function Multiplier(c: char): Option<nat> {
    match c
    case 's' => Some(1)
    case 'm' => Some(60)
    case 'h' => Some(60 * 60)
    case 'd' => Some(24 * 60 * 60)
    case _ => None
  }

  function ParseDurationSeconds(input: string): Option<u64> {
    var trimmed := Trim(input);
    if trimmed == "" then None
    else
      var unit := Multiplier(trimmed[|trimmed| - 1]);
      var digits := if unit.Some? then trimmed[..|trimmed| - 1] else trimmed;
      var multiplier := if unit.Some? then unit.value else 1;
      Scale(ParseU64(digits), multiplier)
  }

  /** The checked multiplication by the unit. */
  function Scale(number: Option<u64>, multiplier: nat): Option<u64> {
    if number.Some? && number.value * multiplier <= U64_MAX then Some(number.value * multiplier) else None
  }

  function Print(n: nat): (s: string)
    ensures s != "" && forall c | c in s :: IsDigit(c)
  {
    var digit := '0' + (n % 10) as char;
    if n < 10 then [digit] else Print(n / 10) + [digit]
  }

  /** The largest unit that divides the duration. */
  function Unit(seconds: u64): char {
    if seconds >= 86_400 && seconds % 86_400 == 0 then 'd'
    else if seconds >= 3_600 && seconds % 3_600 == 0 then 'h'
    else if seconds >= 60 && seconds % 60 == 0 then 'm'
    else 's'
  }

  function FormatDurationCompact(seconds: u64): string {
    Print(seconds / Multiplier(Unit(seconds)).value) + [Unit(seconds)]
  }

  /** One more digit behind a number. */
  lemma DecimalOfLast(high: string, last: char)
    requires high != "" && IsDigit(last)
    ensures Decimal(high + [last]) ==
            match Decimal(high)
            case None => None
            case Some(n) => Some(10 * n + last as nat - '0' as nat)
  {
    var s := high + [last];
    assert s[..|s| - 1] == high;
  }

  lemma DigitOf(digit: nat)
    requires digit < 10
    ensures var c := '0' + digit as char; IsDigit(c) && c as nat - '0' as nat == digit
  {
  }

  lemma {:induction false} PrintParses(n: nat)
    ensures Decimal(Print(n)) == Some(n)
  {
    DigitOf(n % 10);
    if n < 10 {
    } else {
      PrintParses(n / 10);
      DecimalOfLast(Print(n / 10), '0' + (n % 10) as char);
      assert 10 * (n / 10) + n % 10 == n;
    }
  }

  lemma TrimKeeps(s: string)
    requires s != "" && !IsWhitespace(s[0]) && !IsWhitespace(s[|s| - 1])
    ensures Trim(s) == s
  {
  }

  predicate Digits(s: string) {
    s != "" && forall c | c in s :: IsDigit(c)
  }

  /** An optional plus sign, digits, and an optional unit. */
  function Spelled(plus: bool, digits: string, unit: Option<char>): string {
    (if plus then "+" else "") + digits + (if unit.Some? then [unit.value] else "")
  }

  function Factor(unit: Option<char>): nat {
    if unit.Some? && Multiplier(unit.value).Some? then Multiplier(unit.value).value else 1
  }

  lemma {:induction false} DecimalOfDigits(s: string)
    requires s != ""
    ensures Decimal(s).Some? <==> Digits(s)
  {
    if |s| == 1 {
      assert s == [s[0]];
    } else {
      var front := s[..|s| - 1];
      DecimalOfDigits(front);
      assert s == front + [s[|s| - 1]];
    }
  }

  /**
   Digits with an optional plus sign and an optional unit mean their product, and are refused
   exactly when the number or the product does not fit in a u64.
   */
  lemma ParsesExactly(plus: bool, digits: string, unit: Option<char>)
    requires Digits(digits) && (unit.Some? ==> Multiplier(unit.value).Some?)
    ensures Decimal(digits).Some?
    ensures var seconds := Decimal(digits).value * Factor(unit);
            ParseDurationSeconds(Spelled(plus, digits, unit)) == if seconds <= U64_MAX then Some(seconds) else None
  {
    SpelledNumber(plus, digits);
    TrimmedSpelling(plus, digits, unit);
    ScalesExactly(Decimal(digits).value, Factor(unit));
    hide Decimal, Trim, ParseU64, Scale, Digits, Spelled;
  }

  lemma TrimmedSpelling(plus: bool, digits: string, unit: Option<char>)
    requires Digits(digits) && (unit.Some? ==> Multiplier(unit.value).Some?)
    ensures var text := Spelled(plus, digits, unit);
            && Trim(text) == text && text != ""
            && (unit.Some? ==> text[|text| - 1] == unit.value && text[..|text| - 1] == Spelled(plus, digits, None))
            && (unit.None? ==> Multiplier(text[|text| - 1]).None?)
  {
    var text := Spelled(plus, digits, unit);
    assert digits[0] in digits && digits[|digits| - 1] in digits;
    assert text[0] == if plus then '+' else digits[0];
    assert text[|text| - 1] == if unit.Some? then unit.value else digits[|digits| - 1];
    TrimKeeps(text);
    hide Trim;
    assert unit.Some? ==> text[..|text| - 1] == Spelled(plus, digits, None);
  }

  lemma ScalesExactly(n: nat, factor: nat)
    requires factor > 0
    ensures Scale(if n <= U64_MAX then Some(n) else None, factor) ==
            if n * factor <= U64_MAX then Some(n * factor) else None
  {
    assert n * factor >= n;
  }

  lemma SpelledNumber(plus: bool, digits: string)
    requires Digits(digits)
    ensures Decimal(digits).Some?
    ensures var n := Decimal(digits).value;
            ParseU64(Spelled(plus, digits, None)) == if n <= U64_MAX then Some(n) else None
  {
    DecimalOfDigits(digits);
    var number := Spelled(plus, digits, None);
    assert digits[0] in digits;
    assert plus ==> number[1..] == digits;
    assert !plus ==> number == digits;
  }

  /** Nothing else parses: what does is, but for surrounding white space, such a spelling. */
  lemma OnlySpellingsParse(input: string)
    returns (plus: bool, digits: string, unit: Option<char>)
    requires ParseDurationSeconds(input).Some?
    ensures Trim(input) == Spelled(plus, digits, unit)
    ensures Digits(digits) && (unit.Some? ==> Multiplier(unit.value).Some?)
  {
    var text := Trim(input);
    var last := text[|text| - 1];
    unit := if Multiplier(last).Some? then Some(last) else None;
    var number := if unit.Some? then text[..|text| - 1] else text;
    plus := number != "" && number[0] == '+';
    digits := if plus then number[1..] else number;
    DecimalOfDigits(digits);
    assert number == Spelled(plus, digits, None);
    assert text == Spelled(plus, digits, unit);
  }

  /** What the program prints, it reads back as the same number of seconds, for every u64. */
  lemma FormatParses(seconds: u64)
    ensures ParseDurationSeconds(FormatDurationCompact(seconds)) == Some(seconds)
  {
    var unit := Unit(seconds);
    var size := Multiplier(unit).value;
    assert unit == 'd' ==> seconds / 86_400 * 86_400 == seconds;
    assert unit == 'h' ==> seconds / 3_600 * 3_600 == seconds;
    assert unit == 'm' ==> seconds / 60 * 60 == seconds;
    var digits := Print(seconds / size);
    PrintParses(seconds / size);
    ParsesExactly(false, digits, Some(unit));
    assert Spelled(false, digits, Some(unit)) == digits + [unit];
    hide ParseDurationSeconds, Print, Decimal;
  }

  /** Surrounding white space never matters. */
  lemma {:induction false} WhitespaceIsIgnored(before: string, text: string, after: string)
    requires forall c | c in before + after :: IsWhitespace(c)
    ensures Trim(before + text + after) == Trim(text)
    ensures ParseDurationSeconds(before + text + after) == ParseDurationSeconds(text)
  {
    TrimsBefore(before, text + after);
    assert before + text + after == before + (text + after);
    TrimsAfter(text, after);
  }

  lemma {:induction false} TrimsBefore(before: string, text: string)
    requires forall c | c in before :: IsWhitespace(c)
    ensures TrimStart(before + text) == TrimStart(text)
  {
    if before == "" {
      assert before + text == text;
    } else {
      assert (before + text)[1..] == before[1..] + text;
      TrimsBefore(before[1..], text);
    }
  }

  lemma {:induction false} TrimsEnd(text: string, after: string)
    requires forall c | c in after :: IsWhitespace(c)
    ensures TrimEnd(text + after) == TrimEnd(text)
  {
    if after == "" {
      assert text + after == text;
    } else {
      assert (text + after)[..|text + after| - 1] == text + after[..|after| - 1];
      TrimsEnd(text, after[..|after| - 1]);
    }
  }

  lemma {:induction false} TrimsAfter(text: string, after: string)
    requires forall c | c in after :: IsWhitespace(c)
    ensures Trim(text + after) == Trim(text)
    decreases |text|
  {
    if text == "" {
      TrimsBefore(after, "");
      assert text + after == after && after + "" == after;
    } else if IsWhitespace(text[0]) {
      assert (text + after)[1..] == text[1..] + after;
      TrimsAfter(text[1..], after);
    } else {
      TrimsEnd(text, after);
    }
  }
}
