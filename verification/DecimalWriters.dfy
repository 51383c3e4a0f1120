/** Writing decimal numbers backwards into a buffer, two digits at a time, with separators, and reading them. */
module DecimalWriters {
  import opened Arithmetic
  import opened Rings
  import opened Streams
  import opened Decimals

  /** The table of digit pairs, "00" to "99". */
  const DIGITS: string :=
    seq(200, i requires 0 <= i < 200 => if i % 2 == 0 then Digit(i / 2 / 10) else Digit(i / 2 % 10))

  lemma Pairs(k: nat)
    requires k < 100
    ensures |DIGITS| == 200 && DIGITS[2 * k] == Digit(k / 10) && DIGITS[2 * k + 1] == Digit(k % 10)
  {}

  // What is written

  /** The numeral of `n` if its last digit has index `index`, with a separator before every third digit. */
  function Grouped(n: nat, index: nat, sep: string): (text: string)
    ensures text != []
  {
    if n < 10 then [Digit(n)]
    else Grouped(n / 10, index + 1, sep) + (if (index + 1) % 3 == 0 then sep else []) + [Digit(n % 10)]
  }

  lemma {:induction false} GroupedWithout(n: nat, index: nat)
    ensures Grouped(n, index, []) == Numeral(n)
  {
    if n >= 10 { GroupedWithout(n / 10, index + 1); }
  }

  /** The places of the separators: as many up to the digit with index `index + j` as there are multiples of three. */
  function Place(index: nat, j: nat, width: nat): nat {
    j + width * ((index + j) / 3 - index / 3)
  }

  lemma PlaceStep(index: nat, j: nat, width: nat)
    requires j > 0
    ensures Place(index, j, width) == Place(index + 1, j - 1, width) + 1 + if (index + 1) % 3 == 0 then width else 0
  {
    var k := (index + j) / 3 - (index + 1) / 3;
    Distribute(k, width);
  }

  lemma FirstPlace(index: nat, width: nat)
    ensures Place(index, 0, width) == 0
  {
    assert width * 0 == 0;
  }

  /** The size that is computed beforehand is the length of what is written. */
  lemma {:induction false} GroupedLength(n: nat, index: nat, sep: string)
    ensures |Grouped(n, index, sep)| == |Numeral(n)| + |sep| * ((index + |Numeral(n)| - 1) / 3 - index / 3)
  {
    PlaceLength(n, index, sep);
  }

  lemma {:induction false} PlaceLength(n: nat, index: nat, sep: string)
    ensures |Grouped(n, index, sep)| == Place(index, |Numeral(n)| - 1, |sep|) + 1
  {
    hide Place;
    if n < 10 {
      FirstPlace(index, |sep|);
    } else {
      PlaceLength(n / 10, index + 1, sep);
      PlaceStep(index, |Numeral(n)| - 1, |sep|);
    }
  }

  lemma PlacesFromZero(j: nat, width: nat)
    ensures Place(0, j, width) == j + width * (j / 3)
  {}

  /** What is `before` characters in front of the end of `high` when two more parts follow. */
  lemma InFront(high: string, between: string, last: char, before: nat, n: nat, text: string)
    requires text == high + between + [last] && before < |high|
    ensures before + 1 + |between| < |text|
    ensures text[|text| - 1 - (before + 1 + |between|)] == high[|high| - 1 - before]
    ensures n <= before ==>
              var start := |text| - (before + 1 + |between|);
              text[start..start + n] == high[|high| - before..|high| - before + n]
    ensures text[|text| - 1 - |between|..|text| - 1] == between
  {}

  /** The digit with `j` digits behind it is `place` characters in front of the end of `text`, and directly behind it,
      if it is the last of a group, is a separator. */
  ghost predicate StandsAt(text: string, digits: string, sep: string, j: nat, place: nat, endsGroup: bool) {
    && j < |digits| && place < |text| && text[|text| - 1 - place] == digits[|digits| - 1 - j]
    && (endsGroup ==> |sep| < place && text[|text| - place..|text| - place + |sep|] == sep)
  }

  lemma StandsFurther(high: string, between: string, last: char, text: string, front: string, sep: string, j: nat,
                      before: nat, endsGroup: bool)
    requires StandsAt(high, front, sep, j, before, endsGroup) && text == high + between + [last]
    ensures StandsAt(text, front + [last], sep, j + 1, before + 1 + |between|, endsGroup)
    ensures before == 0 && between == sep ==>
              StandsAt(text, front + [last], sep, j + 1, before + 1 + |between|, true)
  {
    InFront(high, between, last, before, |sep|, text);
  }

  lemma LastStands(text: string, digits: string, sep: string)
    requires text != [] && digits != [] && text[|text| - 1] == digits[|digits| - 1]
    ensures StandsAt(text, digits, sep, 0, 0, false)
  {}

  /** Where things are, counted from the right: each digit has behind it the digits with lower indices and one
      separator for every three of them. */
  lemma {:induction false} GroupedPlaces(n: nat, index: nat, sep: string, j: nat)
    requires j < |Numeral(n)|
    ensures StandsAt(Grouped(n, index, sep), Numeral(n), sep, j, Place(index, j, |sep|), j > 0 && (index + j) % 3 == 0)
  {
    hide Place, StandsAt;
    if j == 0 {
      LastStands(Grouped(n, index, sep), Numeral(n), sep);
      FirstPlace(index, |sep|);
    } else {
      var between := if (index + 1) % 3 == 0 then sep else [];
      PlaceStep(index, j, |sep|);
      GroupedPlaces(n / 10, index + 1, sep, j - 1);
      if j == 1 { FirstPlace(index + 1, |sep|); }
      StandsFurther(Grouped(n / 10, index + 1, sep), between, Digit(n % 10), Grouped(n, index, sep),
                    Numeral(n / 10), sep, j - 1, Place(index + 1, j - 1, |sep|), j > 1 && (index + j) % 3 == 0);
    }
  }

  /** Every digit is where it belongs in a number with separators. */
  ghost predicate InPlace(text: string, digits: string, sep: string) {
    forall j: nat :: j < |digits| ==> StandsAt(text, digits, sep, j, j + |sep| * (j / 3), j > 0 && j % 3 == 0)
  }

  lemma GroupedInPlace(n: nat, sep: string)
    ensures InPlace(Grouped(n, 0, sep), Numeral(n), sep)
  {
    hide StandsAt;
    forall j: nat | j < |Numeral(n)|
      ensures StandsAt(Grouped(n, 0, sep), Numeral(n), sep, j, j + |sep| * (j / 3), j > 0 && j % 3 == 0)
    {
      PlacesFromZero(j, |sep|);
      GroupedPlaces(n, 0, sep, j);
    }
  }

  /** Removing `size` characters before every third digit. */
  function Ungrouped(text: string, index: nat, size: nat): string
    decreases |text|
  {
    if |text| <= 1 then text
    else
      var rest := text[..|text| - 1];
      var skipped := if (index + 1) % 3 == 0 && size <= |rest| then rest[..|rest| - size] else rest;
      Ungrouped(skipped, index + 1, size) + [text[|text| - 1]]
  }

  lemma DropLast(text: string, last: char)
    ensures (text + [last])[..|text|] == text && (text + [last])[|text|] == last
  {}

  /** Without the separators the text is the plain decimal. */
  lemma {:induction false} UngroupedIsNumeral(n: nat, index: nat, sep: string)
    ensures Ungrouped(Grouped(n, index, sep), index, |sep|) == Numeral(n)
  {
    if n >= 10 {
      var text := Grouped(n, index, sep);
      var high := Grouped(n / 10, index + 1, sep);
      var between := if (index + 1) % 3 == 0 then sep else [];
      var last := Digit(n % 10);
      assert text == high + between + [last];
      DropLast(high + between, last);
      assert (high + between)[..|high|] == high;
      assert between == [] ==> high + between == high;
      UngroupedIsNumeral(n / 10, index + 1, sep);
    }
  }

  // Writing

  /** Puts `s` in front of `pos`. */
  method PutBefore(buffer: array<char>, pos: nat, s: string) returns (start: nat)
    requires |s| <= pos <= buffer.Length
    modifies buffer
    ensures start == pos - |s|
    ensures buffer[start..pos] == s
    ensures buffer[..start] == old(buffer[..start]) && buffer[pos..] == old(buffer[pos..])
  {
    start := pos - |s|;
    for i := 0 to |s|
      invariant buffer[start..start + i] == s[..i]
      invariant buffer[..start] == old(buffer[..start]) && buffer[start + i..] == old(buffer[start + i..])
    {
      buffer[start + i] := s[i];
    }
  }

  /** The digit with index `index`, with the separator in front of it if it is the third of its group. */
  function Part(digit: char, index: nat, sep: string): string {
    (if (index + 1) % 3 == 0 then sep else []) + [digit]
  }

  method PutChar(buffer: array<char>, pos: nat, c: char) returns (start: nat)
    requires 0 < pos <= buffer.Length
    modifies buffer
    ensures start == pos - 1
    ensures buffer[start..] == [c] + old(buffer[pos..]) && buffer[..start] == old(buffer[..start])
  {
    start := pos - 1;
    buffer[start] := c;
  }

  /** One digit in front of `pos`, and the separator if the digit is the third of its group. */
  method PutDigit(buffer: array<char>, pos: nat, digit: char, index: nat, sep: string) returns (start: nat)
    requires |Part(digit, index, sep)| <= pos <= buffer.Length
    modifies buffer
    ensures start == pos - |Part(digit, index, sep)|
    ensures buffer[start..] == Part(digit, index, sep) + old(buffer[pos..])
    ensures buffer[..start] == old(buffer[..start])
  {
    ghost var rest := buffer[pos..];
    start := PutChar(buffer, pos, digit);
    if (index + 1) % 3 == 0 {
      ghost var front := buffer[..start];
      start := PutBefore(buffer, start, sep);
      assert buffer[..start] == front[..start];
      Associative(sep, [digit], rest);
    }
  }

  /** Two digits in front of `pos`, looked up as a pair. */
  method PutPair(buffer: array<char>, pos: nat, pair: nat, index: nat, sep: string) returns (start: nat)
    requires pair < 100 && pos <= buffer.Length
    requires |Part(Digit(pair / 10), index + 1, sep)| + |Part(Digit(pair % 10), index, sep)| <= pos
    modifies buffer
    ensures start == pos - |Part(Digit(pair / 10), index + 1, sep)| - |Part(Digit(pair % 10), index, sep)|
    ensures buffer[start..]
         == Part(Digit(pair / 10), index + 1, sep) + Part(Digit(pair % 10), index, sep) + old(buffer[pos..])
    ensures buffer[..start] == old(buffer[..start])
  {
    Pairs(pair);
    var i := pair * 2;
    start := PutDigit(buffer, pos, DIGITS[i + 1], index, sep);
    ghost var middle := buffer[..start];
    start := PutDigit(buffer, start, DIGITS[i], index + 1, sep);
    assert buffer[..start] == middle[..start];
    Associative(Part(Digit(pair / 10), index + 1, sep), Part(Digit(pair % 10), index, sep), old(buffer[pos..]));
  }

  /** `format_decimal`: fills the buffer backwards from `end`; an empty separator is the functor that adds none. */
  method FormatDecimal(buffer: array<char>, end: nat, value: nat, sep: string) returns (start: nat)
    requires |Grouped(value, 0, sep)| <= end == buffer.Length
    modifies buffer
    ensures start == end - |Grouped(value, 0, sep)|
    ensures buffer[start..] == Grouped(value, 0, sep) && buffer[..start] == old(buffer[..start])
  {
    hide Grouped, Part, DIGITS;
    start := end;
    var n, digitIndex := value, 0;
    ghost var target := Grouped(value, 0, sep);
    assert target == Grouped(n, digitIndex, sep) + buffer[start..];
    while n >= 100
      invariant start <= end && |Grouped(n, digitIndex, sep)| <= start
      invariant target == Grouped(n, digitIndex, sep) + buffer[start..]
      invariant buffer[..start] == old(buffer[..start])
    {
      LastTwo(n, digitIndex, sep);
      ghost var second := Part(Digit(n % 100 / 10), digitIndex + 1, sep);
      ghost var last := Part(Digit(n % 100 % 10), digitIndex, sep);
      ghost var high, tail, before := Grouped(n / 100, digitIndex + 2, sep), buffer[start..], buffer[..start];
      start := PutPair(buffer, start, n % 100, digitIndex, sep);
      Associative(high, second + last, tail);
      Associative(high, second, last);
      assert buffer[..start] == before[..start];
      n := n / 100;
      digitIndex := digitIndex + 2;
    }
    ghost var tail, before := buffer[start..], buffer[..start];
    start := PutLast(buffer, start, n, digitIndex, sep);
    assert buffer[..start] == before[..start];
  }

  /** The first one or two digits of the number, which are written last. */
  method PutLast(buffer: array<char>, pos: nat, n: nat, index: nat, sep: string) returns (start: nat)
    requires n < 100 && |Grouped(n, index, sep)| <= pos <= buffer.Length
    modifies buffer
    ensures start == pos - |Grouped(n, index, sep)|
    ensures buffer[start..] == Grouped(n, index, sep) + old(buffer[pos..])
    ensures buffer[..start] == old(buffer[..start])
  {
    hide Grouped, Part, DIGITS;
    LastOnes(n, index, sep);
    if n < 10 {
      start := PutChar(buffer, pos, Digit(n));
      return;
    }
    var i := n * 2;
    Pairs(n);
    ghost var rest := buffer[pos..];
    start := PutDigit(buffer, pos, DIGITS[i + 1], index, sep);
    ghost var middle := buffer[..start];
    start := PutChar(buffer, start, DIGITS[i]);
    Associative([Digit(n / 10)], Part(Digit(n % 10), index, sep), rest);
    assert buffer[..start] == middle[..start];
  }

  /** The last one or two digits to be written. */
  lemma LastOnes(n: nat, index: nat, sep: string)
    requires n < 100
    ensures n < 10 ==> Grouped(n, index, sep) == [Digit(n)]
    ensures n >= 10 ==> Grouped(n, index, sep) == [Digit(n / 10)] + Part(Digit(n % 10), index, sep)
  {}

  /** The last two digits of a number with at least three. */
  lemma LastTwo(n: nat, index: nat, sep: string)
    requires n >= 100
    ensures Grouped(n, index, sep)
         == Grouped(n / 100, index + 2, sep)
            + (Part(Digit(n % 100 / 10), index + 1, sep) + Part(Digit(n % 100 % 10), index, sep))
  {
    assert n / 10 / 10 == n / 100 && n / 10 % 10 == n % 100 / 10 && n % 10 == n % 100 % 10;
  }

  /** `write_int` for 'n': the size computed from the digit count is exactly what the writer fills, and what is
      written is the number with its separators. */
  method WriteWithSeparators(value: nat, sep: string) returns (text: string)
    requires value < WORD64
    ensures text == Grouped(value, 0, sep) && Ungrouped(text, 0, |sep|) == Numeral(value)
    ensures |text| == |Numeral(value)| + |sep| * ((|Numeral(value)| - 1) / 3)
    ensures InPlace(text, Numeral(value), sep)
  {
    hide InPlace;
    CountIsExact(value);
    var numDigits := CountDigits(value, POWERS_OF_10_64);
    GroupedLength(value, 0, sep);
    var size := numDigits + |sep| * ((numDigits - 1) / 3);
    var buffer := new char[size];
    var start := FormatDecimal(buffer, size, value, sep);
    UngroupedIsNumeral(value, 0, sep);
    text := buffer[..];
    assert start == 0 && buffer[..] == buffer[0..];
    GroupedInPlace(value, sep);
  }

  /** `format_decimal` without separators fills exactly the counted digits. */
  method WriteDecimal(value: nat) returns (text: string)
    requires value < WORD64
    ensures text == Numeral(value) && forall i :: 0 <= i < |text| ==> '0' <= text[i] <= '9'
  {
    GroupedWithout(value, 0);
    text := WriteWithSeparators(value, []);
  }

  /** `FormatInt`: a signed 64-bit number, written at the end of a buffer that is large enough for all of them. */
  method FormatInt(value: int) returns (text: string)
    requires -0x8000_0000_0000_0000 <= value < 0x8000_0000_0000_0000
    ensures text == (if value < 0 then ['-'] + Numeral(-value) else Numeral(value))
    ensures (value < 0 <==> text[0] == '-') && forall i :: 0 < i < |text| ==> '0' <= text[i] <= '9'
  {
    var absValue: nat := if value < 0 then value + WORD64 else value;
    var negative := value < 0;
    if negative {
      absValue := WORD64 - absValue;
    }
    GroupedWithout(absValue, 0);
    AtMostTwenty(absValue);
    var buffer := new char[21];
    var start := FormatDecimal(buffer, 21, absValue, []);
    if negative {
      ghost var digits := buffer[start..];
      start := start - 1;
      buffer[start] := '-';
      assert buffer[start..] == ['-'] + digits;
    }
    text := buffer[start..];
  }

  lemma AtMostTwenty(n: nat)
    requires n < WORD64
    ensures |Numeral(n)| <= 20
  {
    hide Pow, Numeral;
    PowersOfTen();
    NumeralLength(n);
    if |Numeral(n)| > 20 { PowMonotone(10, 20, |Numeral(n)| - 1); }
  }

  /** Counting digits without a count of leading zeros: four at a time. */
  method CountDigitsByDivision(value: nat) returns (count: nat)
    ensures count == |Numeral(value)|
  {
    count := 1;
    var n := value;
    while true
      invariant count + |Numeral(n)| == |Numeral(value)| + 1
      decreases n
    {
      if n < 10 { return; }
      Shorter(n);
      if n < 100 { return count + 1; }
      Shorter(n / 10);
      if n < 1000 { return count + 2; }
      Shorter(n / 100);
      if n < 10000 { return count + 3; }
      Shorter(n / 1000);
      FourDigits(n);
      n := n / 10000;
      count := count + 4;
    }
  }

  lemma Shorter(n: nat)
    requires n >= 10
    ensures |Numeral(n)| == |Numeral(n / 10)| + 1
    ensures n < 100 ==> |Numeral(n / 10)| == 1
  {}

  lemma FourDigits(n: nat)
    ensures n / 10 / 10 == n / 100 && n / 100 / 10 == n / 1000 && n / 1000 / 10 == n / 10000
  {}

  // Reading

  const MAX_INT: nat := 0x7FFF_FFFF

  /** How many digits there are from `start` on. */
  function DigitRun(s: string, start: nat): (count: nat)
    requires start <= |s|
    ensures start + count <= |s| && forall i :: start <= i < start + count ==> IsDigit(s[i])
    ensures start + count < |s| ==> !IsDigit(s[start + count])
    decreases |s| - start
  {
    if start < |s| && IsDigit(s[start]) then 1 + DigitRun(s, start + 1) else 0
  }

  /** The value of a run only grows with more digits. */
  lemma {:induction false} ValueGrows(digits: string, k: nat)
    requires k <= |digits| && forall i :: 0 <= i < |digits| ==> IsDigit(digits[i])
    ensures Value(digits[..k]) <= Value(digits)
    decreases |digits|
  {
    if k < |digits| {
      var shorter := digits[..|digits| - 1];
      assert shorter[..k] == digits[..k];
      ValueGrows(shorter, k);
    } else {
      assert digits[..k] == digits;
    }
  }

  /** `parse_nonnegative_int`: reads a run of digits. It answers its value up to the largest int, and refuses every
      larger one; the 32-bit arithmetic never overflows (`U32`). Behind the end of `s` lies the final null. */
  method ParseNonnegativeInt(s: string, start: nat) returns (value: Option<nat>, end: nat)
    requires start < |s| && IsDigit(s[start])
    ensures var run := s[start..start + DigitRun(s, start)];
            if Value(run) <= 0x7FFF_FFFF then value == Some(Value(run)) && end == start + DigitRun(s, start)
            else value == None
  {
    var run := DigitRun(s, start);
    ghost var digits := s[start..start + run];
    var number: U32 := 0;
    var big: nat := MAX_INT / 10;
    end := start;
    while true
      invariant start <= end < start + run
      invariant number == Value(digits[..end - start])
      decreases |s| - end
    {
      ghost var k := end - start;
      assert digits[..k + 1] == digits[..k] + [s[end]];
      assert digits[..k + 1][..k] == digits[..k];
      ValueGrows(digits, k + 1);
      if number > big {
        number := MAX_INT + 1;
        break;
      }
      number := number * 10 + DigitValue(s[end]);
      end := end + 1;
      if !(end < |s| && IsDigit(s[end])) {
        assert end == start + run;
        assert digits[..end - start] == digits;
        break;
      }
    }
    if number > MAX_INT {
      return None, end;
    }
    return Some(number), end;
  }

  /** What the printer writes the parser reads back, up to the largest int, and refuses beyond it. */
  method PrintAndParse(n: nat) returns (value: Option<nat>)
    requires n < WORD64
    ensures value == if n <= 0x7FFF_FFFF then Some(n) else None
  {
    var text := WriteDecimal(n);
    ValueOfNumeral(n);
    AllDigits(text, 0);
    assert text[0..|text|] == text;
    var end;
    value, end := ParseNonnegativeInt(text, 0);
  }

  lemma {:induction false} AllDigits(text: string, start: nat)
    requires start <= |text| && forall i :: 0 <= i < |text| ==> IsDigit(text[i])
    ensures DigitRun(text, start) == |text| - start
    decreases |text| - start
  {
    if start < |text| { AllDigits(text, start + 1); }
  }
}
