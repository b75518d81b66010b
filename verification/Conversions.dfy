/** What the field of one conversion looks like: the argument in its plain form, and the
    padding that the width and the flags add to it. */
module Conversions {
  import opened Prelude
  import opened IntegerText
  import opened Directives

  /** The conversion without width and padding flags. */
  function Bare(d: Directive): Directive
    requires d.Conversion?
  {
    Conversion(false, d.plus, 0, "", d.long, d.conv)
  }

  lemma BareFits(d: Directive, a: Arg)
    requires WellFormed(d) && TakesArg(d) && Fits(d, a)
    ensures WellFormed(Bare(d)) && TakesArg(Bare(d)) && Fits(Bare(d), a)
  {
    assert Rep('0', 0) == "";
  }

  /** The argument in its plain form. */
  function Text(d: Directive, a: Arg): string
    requires WellFormed(d) && TakesArg(d) && Fits(d, a)
  {
    BareFits(d, a);
    Field(Bare(d), a)
  }

  /** The conversions that take an argument are these. */
  lemma KnownConversions(d: Directive)
    ensures TakesArg(d) <==> d.Conversion? && d.conv in {'s', 'c', 'd', 'x', 'X', 'u'}
  {
  }

  /** A string as it is, null by name, and a character unless it is NUL. */
  lemma TextOfStrings(d: Directive, a: Arg)
    requires WellFormed(d) && TakesArg(d) && Fits(d, a) && !IsInteger(d.conv)
    ensures Text(d, a) == match a
                          case Str(Some(s)) => s
                          case Str(None) => "(null)"
                          case Chr(c) => if c as int == 0 then "" else [c]
  {
    assert Rep(' ', 0) == "";
  }

  /** What an integer conversion is asked to show: `d` the argument itself, the others
      the unsigned number with the same bits. */
  function Value(d: Directive, a: Arg): int
    requires TakesArg(d) && IsInteger(d.conv) && Fits(d, a)
  {
    var v := if d.long.Some? then a.l else a.i;
    if d.conv == 'd' then v
    else v % if d.long.Some? then 0x1_0000_0000_0000_0000 else 0x1_0000_0000
  }

  function Base(d: Directive): int
    requires d.Conversion?
  {
    if d.conv in {'x', 'X'} then 16 else 10
  }

  /** An optional sign, then digits of the base in the case of the letter, the first of which is
      zero for zero only. */
  ghost predicate IsPlain(text: string, base: int, plus: bool, upper: bool, v: int) {
    var n := if v < 0 || (plus && v > 0) then 1 else 0;
    && n < |text| && (n == 1 ==> text[0] == if v < 0 then '-' else '+')
    && (text[n] == '0' <==> v == 0) && (v == 0 ==> text == "0")
    && forall i :: n <= i < |text| ==> IsDigitOf(text[i], base, upper)
  }

  predicate IsDigitOf(c: char, base: int, upper: bool) {
    || '0' <= c <= '9'
    || (base == 16 && if upper then 'A' <= c <= 'F' else 'a' <= c <= 'f')
  }

  lemma {:induction false} DigitsInCase(u: nat, base: int, letter: char)
    requires base in {10, 16} && letter in {'a', 'A'}
    ensures forall i :: 0 <= i < |Digits(u, base, letter)| ==>
              IsDigitOf(Digits(u, base, letter)[i], base, letter == 'A')
  {
    if u == 0 {
    } else {
      DigitsInCase(u / base, base, letter);
    }
  }

  /** What printi() puts out without a width: sign and digits. */
  function PlainText(v: int, base: int, plus: bool, letter: char): string
    requires IsBase(base) && IsLetterBase(letter)
  {
    if v == 0 then "0"
    else (if v < 0 then "-" else if plus then "+" else "") + Digits(Magnitude(v), base, letter)
  }

  lemma PlainTextReads(v: int, base: int, plus: bool, letter: char)
    requires IsBase(base) && IsLetterBase(letter)
    ensures ReadTrimmed(PlainText(v, base, plus, letter), base) == Some(v)
  {
    if v == 0 {
      var none := "";
      ReadSnoc(none, '0', base);
      assert none + ['0'] == "0";
    } else {
      PlainReadsBack(v, base, Pad(false, false, plus, false), letter);
    }
  }

  lemma PlainTextIsPlain(v: int, base: int, plus: bool, upper: bool)
    requires base in {10, 16}
    ensures IsPlain(PlainText(v, base, plus, if upper then 'A' else 'a'), base, plus, upper, v)
  {
    if v != 0 {
      var letter := if upper then 'A' else 'a';
      DigitsAreDigits(Magnitude(v), base, letter);
      DigitsInCase(Magnitude(v), base, letter);
    }
  }

  /** Where printi() puts the padding. */
  function Placed(text: string, width: nat, pad: Pad, negative: bool): string
    requires text != ""
  {
    var fill := Rep(if pad.zero then '0' else ' ', FillCount(|text|, width));
    if pad.right then text + fill
    else if pad.zero && negative then "-" + (fill + text[1..])
    else fill + text
  }

  lemma NumberIsPlaced(v: int, base: int, width: nat, pad: Pad, letter: char)
    requires IsBase(base) && IsLetterBase(letter) && v != 0
    ensures NumberText(v, base, width, pad, letter)
         == Placed(PlainText(v, base, pad.plus, letter), width, pad, v < 0)
  {
    hide Digits;
    var digits := Digits(Magnitude(v), base, letter);
    if v < 0 && pad.zero {
      assert ("-" + digits)[1..] == digits;
      if width == 0 {
        assert Rep('0', 0) == "";
      } else {
        Regroup("-", digits, Rep('0', FillCount(|digits|, width - 1)));
      }
    }
  }

  lemma Unpadded(text: string, pad: Pad)
    requires text != "" && !pad.zero
    ensures Placed(text, 0, pad, false) == text && Placed(text, 0, pad, true) == text
  {
    assert Rep(' ', 0) == "";
  }

  /** What the field of an integer conversion is made of. */
  lemma IntegerField(d: Directive, a: Arg)
    requires WellFormed(d) && TakesArg(d) && IsInteger(d.conv) && Fits(d, a)
    ensures var v, text := Value(d, a), PlainText(Value(d, a), Base(d), d.plus, if d.conv == 'X' then 'A' else 'a');
            text != "" && Field(d, a) == Placed(text, WidthOf(d.digits), PadOf(d), v < 0)
  {
    hide NumberText, WidthOf, Digits;
    var i := if d.long.Some? then a.l else a.i;
    if a.Int? {
      Signed32Is(a.i);
    }
    var v := Value(d, a);
    assert v == Denoted(i, Base(d), d.conv == 'd', d.long.Some?);
    DenotedIsZeroOnlyForZero(i, Base(d), d.conv == 'd', d.long.Some?);
    if i != 0 {
      NumberIsPlaced(v, Base(d), WidthOf(d.digits), PadOf(d), LetterOf(d.conv));
      PlainTextReads(v, Base(d), d.plus, LetterOf(d.conv));
    }
  }

  lemma TextIsPlain(d: Directive, a: Arg)
    requires WellFormed(d) && TakesArg(d) && IsInteger(d.conv) && Fits(d, a)
    ensures Text(d, a) == PlainText(Value(d, a), Base(d), d.plus, if d.conv == 'X' then 'A' else 'a')
  {
    hide PlainText, Placed, Field, WellFormed, Fits;
    BareFits(d, a);
    IntegerField(Bare(d), a);
    Unpadded(PlainText(Value(d, a), Base(d), d.plus, if d.conv == 'X' then 'A' else 'a'), PadOf(Bare(d)));
  }

  /** The plain form of an integer is the number, in base ten for `d` and `u` and in base 16 for
      `x` and `X`. */
  lemma TextOfIntegers(d: Directive, a: Arg)
    requires WellFormed(d) && TakesArg(d) && IsInteger(d.conv) && Fits(d, a)
    ensures IsPlain(Text(d, a), Base(d), d.plus, d.conv == 'X', Value(d, a))
    ensures ReadTrimmed(Text(d, a), Base(d)) == Some(Value(d, a))
  {
    hide PlainText, Text, IsPlain, ReadTrimmed;
    TextIsPlain(d, a);
    PlainTextReads(Value(d, a), Base(d), d.plus, if d.conv == 'X' then 'A' else 'a');
    PlainTextIsPlain(Value(d, a), Base(d), d.plus, d.conv == 'X');
  }

  /** The padding: blanks or zeros, behind the text or in front of it, but zeros behind a minus sign. */
  lemma FieldIs(d: Directive, a: Arg)
    requires WellFormed(d) && TakesArg(d) && Fits(d, a)
    ensures var text, width := Text(d, a), WidthOf(d.digits);
            var fill := Rep(if d.zeros > 0 then '0' else ' ', if width > |text| then width - |text| else 0);
            Field(d, a) == if d.left then text + fill
                           else if d.zeros > 0 && IsInteger(d.conv) && Value(d, a) < 0 then
                             "-" + (fill + text[1..])
                           else fill + text
  {
    if IsInteger(d.conv) {
      hide PlainText, Text, WellFormed, Fits, Value, Field;
      TextIsPlain(d, a);
      IntegerField(d, a);
    } else {
      TextOfStrings(d, a);
    }
  }

  /** The whole field reads as the number, unless the flags put zeros behind the digits or in
      front of a plus sign. */
  lemma FieldReadsIff(d: Directive, a: Arg)
    requires WellFormed(d) && TakesArg(d) && IsInteger(d.conv) && Fits(d, a)
    ensures ReadNumber(Field(d, a), Base(d)) == Some(Value(d, a)) <==>
      !(Value(d, a) != 0 && d.zeros > 0 && WidthOf(d.digits) > |Text(d, a)| && (d.left || (d.plus && Value(d, a) > 0)))
  {
    hide IntText, ReadNumber, Digits, WidthOf;
    var i := if d.long.Some? then a.l else a.i;
    if a.Int? {
      Signed32Is(a.i);
    }
    TextIsPlain(d, a);
    ReadsBackIff(i, Base(d), d.conv == 'd', WidthOf(d.digits), PadOf(d), LetterOf(d.conv));
  }

  /** `%d` shows every int but for padding, and `%ld` every 64-bit number but the least. */
  lemma EveryNumberShows(left: bool, plus: bool, digits: string, i: int)
    requires forall k :: 0 <= k < |digits| ==> IsDigit(digits[k])
    requires digits != "" ==> digits[0] != '0'
    ensures var d := Conversion(left, plus, 0, digits, None, 'd');
            WellFormed(d) && TakesArg(d)
            && (-0x8000_0000 <= i < 0x8000_0000 ==>
                  Fits(d, Int(i)) && ReadNumber(Field(d, Int(i)), 10) == Some(i))
    ensures var d := Conversion(left, plus, 0, digits, Some('l'), 'd');
            WellFormed(d) && TakesArg(d)
            && (-0x8000_0000_0000_0000 < i < 0x8000_0000_0000_0000 ==>
                  Fits(d, Long(i)) && ReadNumber(Field(d, Long(i)), 10) == Some(i))
  {
    hide ReadNumber, Field, WidthOf;
    var d, l := Conversion(left, plus, 0, digits, None, 'd'), Conversion(left, plus, 0, digits, Some('l'), 'd');
    if -0x8000_0000 <= i < 0x8000_0000 {
      FieldReadsIff(d, Int(i));
    }
    if -0x8000_0000_0000_0000 < i < 0x8000_0000_0000_0000 {
      FieldReadsIff(l, Long(i));
    }
  }

  /** Directives that take no argument stand for themselves, two percent signs for one. */
  lemma PlainDirectives(d: Directive)
    requires WellFormed(d) && !TakesArg(d)
    ensures Output([d], []) == match d
                               case Literal(c) => [c]
                               case Percent => "%"
                               case Conversion(_, _, _, _, _, conv) => "%" + [conv]
  {
    assert [d][1..] == [];
  }

  /** A conversion puts out its field, and takes its argument. */
  lemma OneConversion(d: Directive, a: Arg)
    requires WellFormed(d) && TakesArg(d) && Fits(d, a)
    ensures Matches([d], [a]) && Output([d], [a]) == Field(d, a)
    ensures !Matches([d], []) && !Matches([d], [a, a])
  {
    assert [d][1..] == [] && [a][1..] == [] && [a, a][1..] == [a];
  }

  /** How directives are written. */
  lemma Written(d: Directive)
    ensures Render([d]) ==
            match d
            case Literal(c) => [c]
            case Percent => "%%"
            case Conversion(left, plus, zeros, digits, long, conv) =>
              var flags := (if left then "-" else "") + (if plus then "+" else "");
              var length := if long.Some? then [long.value] else "";
              "%" + ((flags + (Rep('0', zeros) + (digits + length))) + [conv])
  {
    assert [d][1..] == [];
  }

  /** Some fields: negative ones, and both cases of hexadecimal digits. */
  lemma SomeDecimals()
    ensures Field(Conversion(false, false, 0, "", None, 'd'), Int(-5)) == "-5"
    ensures Field(Conversion(false, false, 1, "4", None, 'd'), Int(-5)) == "-005"
  {
    assert Digits(0, 10, 'a') == "" && Digits(5, 10, 'a') == "5";
    assert Rep(' ', 0) == "" && Rep('0', 2) == "00";
    WidthIsNumber("4");
  }

  lemma SomeHexadecimals()
    ensures Field(Conversion(true, false, 0, "3", None, 'x'), Int(10)) == "a  "
    ensures Field(Conversion(false, true, 0, "3", None, 'X'), Int(10)) == " +A"
  {
    assert Digits(0, 16, 'a') == "" && Digits(0, 16, 'A') == "";
    assert Rep(' ', 0) == "" && Rep(' ', 1) == " " && Rep(' ', 2) == "  ";
    WidthIsNumber("3");
  }
}
