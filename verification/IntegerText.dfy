/** Integers as text: the digits that printi() produces, and a reader that undoes them. */
module IntegerText {
  import opened Prelude

  const TWO31: int := 0x8000_0000
  const TWO32: int := 0x1_0000_0000
  const TWO63: int := 0x8000_0000_0000_0000
  const TWO64: int := 0x1_0000_0000_0000_0000

  /** `(int) i` and `(intptr_t) i`: the two's complement reading of the low bits. */
  function Signed32(i: int): int {
    if i % 0x1_0000_0000 < TWO31 then i % 0x1_0000_0000 else i % 0x1_0000_0000 - TWO32
  }

  function Signed64(i: int): int {
    if i % 0x1_0000_0000_0000_0000 < TWO63 then i % 0x1_0000_0000_0000_0000 else i % 0x1_0000_0000_0000_0000 - TWO64
  }

  /** The only int with the same low 32 bits; an int is itself. */
  lemma Signed32Is(i: int)
    ensures -0x8000_0000 <= Signed32(i) < 0x8000_0000
    ensures Signed32(i) % 0x1_0000_0000 == i % 0x1_0000_0000
    ensures -0x8000_0000 <= i < 0x8000_0000 ==> Signed32(i) == i
  {
  }

  lemma Signed64Is(i: int)
    ensures -0x8000_0000_0000_0000 <= Signed64(i) < 0x8000_0000_0000_0000
    ensures Signed64(i) % 0x1_0000_0000_0000_0000 == i % 0x1_0000_0000_0000_0000
    ensures -0x8000_0000_0000_0000 <= i < 0x8000_0000_0000_0000 ==> Signed64(i) == i
  {
  }

  predicate IsBase(base: int) { 10 <= base <= 36 }

  predicate IsLetterBase(letter: char) { letter == 'a' || letter == 'A' }

  /* ---- digits ---- */

  function DigitChar(t: nat, letter: char): (c: char)
    requires t < 36 && IsLetterBase(letter)
  {
    (if t < 10 then t + '0' as int else t - 10 + letter as int) as char
  }

  function DigitValue(c: char): int {
    if '0' <= c <= '9' then c as int - '0' as int
    else if 'a' <= c <= 'z' then c as int - 'a' as int + 10
    else if 'A' <= c <= 'Z' then c as int - 'A' as int + 10
    else 36
  }

  function Digits(u: nat, base: int, letter: char): string
    requires IsBase(base) && IsLetterBase(letter)
  {
    if u == 0 then "" else Digits(u / base, base, letter) + [DigitChar(u % base, letter)]
  }

  /** The number that a string of digits denotes; none, if some character is no digit. */
  function ReadDigits(s: string, base: int): Option<nat>
    requires IsBase(base)
  {
    if s == "" then Some(0)
    else
      match ReadDigits(s[..|s| - 1], base)
      case None => None
      case Some(n) =>
        var d := DigitValue(s[|s| - 1]);
        if d < base then Some(n * base + d) else None
  }

  lemma DigitCharReads(t: nat, letter: char)
    requires t < 36 && IsLetterBase(letter)
    ensures DigitValue(DigitChar(t, letter)) == t && DigitChar(t, letter) != '\0'
    ensures DigitChar(t, letter) !in {' ', '-', '+', '.', '\n', ':'}
  {
  }

  lemma DivMod(u: nat, base: int)
    requires base > 0
    ensures (u / base) * base + u % base == u && 0 <= u % base < base && 0 <= u / base
  {
  }

  lemma QuotientLess(q: nat, t: nat, base: int)
    requires base > 1 && q * base + t > 0
    ensures q < q * base + t
  {
    assert q * base == q + q * (base - 1);
    assert q > 0 ==> q * (base - 1) >= 1 * q;
  }

  /** The digits of a number read as that number. */
  lemma {:induction false} DigitsReadBack(u: nat, base: int, letter: char)
    requires IsBase(base) && IsLetterBase(letter)
    ensures ReadDigits(Digits(u, base, letter), base) == Some(u)
  {
    if u == 0 {
    } else {
      hide ReadDigits, DigitValue, DigitChar;
      var q, t := u / base, u % base;
      DivMod(u, base);
      QuotientLess(q, t, base);
      DigitsReadBack(q, base, letter);
      DigitCharReads(t, letter);
      LastDigit(Digits(q, base, letter), q, t, base, letter);
    }
  }

  lemma LastDigit(s: string, q: nat, t: nat, base: int, letter: char)
    requires IsBase(base) && IsLetterBase(letter) && t < base && ReadDigits(s, base) == Some(q)
    ensures ReadDigits(s + [DigitChar(t, letter)], base) == Some(q * base + t)
  {
    DigitCharReads(t, letter);
    ReadSnoc(s, DigitChar(t, letter), base);
  }

  predicate IsDigits(s: string) {
    forall i :: 0 <= i < |s| ==> DigitValue(s[i]) < 36
  }

  lemma {:induction false} DigitsAreDigits(u: nat, base: int, letter: char)
    requires IsBase(base) && IsLetterBase(letter)
    ensures IsDigits(Digits(u, base, letter))
    ensures u > 0 ==> Digits(u, base, letter) != "" && Digits(u, base, letter)[0] != '0'
  {
    if u == 0 {
    } else {
      var t := u % base;
      DivMod(u, base);
      DigitsAreDigits(u / base, base, letter);
      DigitCharReads(t, letter);
      if u / base == 0 {
        assert t > 0;
      }
    }
  }

  /* ---- how many digits ---- */

  function Pow10(k: nat): nat {
    if k == 0 then 1 else 10 * Pow10(k - 1)
  }

  lemma TenTimesLess(q: nat, base: int)
    requires base >= 10
    ensures 10 * q <= q * base
  {
  }

  lemma {:induction false} DigitsFit(u: nat, base: int, letter: char, k: nat)
    requires IsBase(base) && IsLetterBase(letter) && u < Pow10(k)
    ensures |Digits(u, base, letter)| <= k
  {
    if u == 0 {
    } else {
      DivMod(u, base);
      TenTimesLess(u / base, base);
      DigitsFit(u / base, base, letter, k - 1);
    }
  }

  lemma PowersOfTen()
    ensures Pow10(19) == 10_000_000_000_000_000_000 && Pow10(20) == 100_000_000_000_000_000_000
  {
    assert Pow10(5) == 100_000;
    assert Pow10(10) == 10_000_000_000;
    assert Pow10(15) == 1_000_000_000_000_000;
    assert Pow10(19) == 10_000_000_000_000_000_000;
  }

  /** Twenty digits are enough for 64 bits in base ten and above. */
  lemma TwentyDigits(u: nat, base: int, letter: char)
    requires IsBase(base) && IsLetterBase(letter) && u < TWO64
    ensures |Digits(u, base, letter)| <= 20
  {
    PowersOfTen();
    DigitsFit(u, base, letter, 20);
  }

  /** Twenty are needed: the largest 64-bit number has that many. */
  lemma TwentyDigitsNeeded()
    ensures |Digits(TWO64 - 1, 10, 'a')| == 20
  {
    TwentyDigits(TWO64 - 1, 10, 'a');
    if |Digits(TWO64 - 1, 10, 'a')| <= 19 {
      DigitsReadBack(TWO64 - 1, 10, 'a');
      ShortIsSmall(Digits(TWO64 - 1, 10, 'a'), 19);
      PowersOfTen();
    }
  }

  lemma {:induction false} ShortIsSmall(s: string, k: nat)
    requires |s| <= k && ReadDigits(s, 10).Some?
    ensures ReadDigits(s, 10).value < Pow10(k)
  {
    if s != "" {
      ShortIsSmall(s[..|s| - 1], k - 1);
    } else {
      PowPositive(k);
    }
  }

  lemma {:induction false} PowPositive(k: nat)
    ensures Pow10(k) >= 1
  {
    if k == 0 {
    } else {
      PowPositive(k - 1);
    }
  }

  /* ---- repetition and padding ---- */

  function Rep(c: char, n: nat): (s: string)
    ensures |s| == n
    ensures forall i :: 0 <= i < n ==> s[i] == c
  {
    if n == 0 then "" else Rep(c, n - 1) + [c]
  }

  datatype Pad = Pad(right: bool, zero: bool, plus: bool, long: bool)

  function FillCount(len: nat, width: nat): nat {
    if width > len then width - len else 0
  }

  /** `text` in a field of at least `width` characters. */
  function Padded(text: string, width: nat, pad: Pad): (s: string)
    ensures |s| == if width > |text| then width else |text|
  {
    var fill := Rep(if pad.zero then '0' else ' ', FillCount(|text|, width));
    if pad.right then text + fill else fill + text
  }

  /* ---- printi() as a function ---- */

  /** The number printi() is asked to show: `i` as int, unsigned, long or unsigned long. */
  function Denoted(i: int, base: int, sign: bool, long: bool): int {
    if sign && base == 10 then if long then i else Signed32(i)
    else if long then i % 0x1_0000_0000_0000_0000 else i % 0x1_0000_0000
  }

  function Magnitude(v: int): nat {
    if v < 0 then -v else v
  }

  function SignText(v: int, pad: Pad): string {
    if v < 0 then "-" else if pad.plus then "+" else ""
  }

  /** The text printi() puts out. */
  function IntText(i: int, base: int, sign: bool, width: nat, pad: Pad, letter: char): string
    requires IsBase(base) && IsLetterBase(letter)
  {
    if i == 0 then Padded("0", width, pad)
    else NumberText(Denoted(i, base, sign, pad.long), base, width, pad, letter)
  }

  function NumberText(v: int, base: int, width: nat, pad: Pad, letter: char): string
    requires IsBase(base) && IsLetterBase(letter)
  {
    var digits := Digits(Magnitude(v), base, letter);
    if v < 0 && width > 0 && pad.zero then "-" + Padded(digits, width - 1, pad)
    else Padded(SignText(v, pad) + digits, width, pad)
  }

  /** What a caller may pass: an int or unsigned, or with `long` any 64 bits. */
  predicate Passable(i: int, base: int, sign: bool, long: bool) {
    && (if long then -TWO63 <= i < TWO63 else -TWO31 <= i < TWO32)
    && !(sign && base == 10 && i == -TWO63)
  }

  lemma DenotedIsZeroOnlyForZero(i: int, base: int, sign: bool, long: bool)
    requires Passable(i, base, sign, long)
    ensures Denoted(i, base, sign, long) == 0 <==> i == 0
    ensures Magnitude(Denoted(i, base, sign, long)) < TWO64
    ensures Denoted(i, base, sign, long) < 0 ==> sign && base == 10
  {
  }

  /* ---- reading a field back ---- */

  function TrimLeft(s: string): string {
    if s != "" && s[0] == ' ' then TrimLeft(s[1..]) else s
  }

  function TrimRight(s: string): string {
    if s != "" && s[|s| - 1] == ' ' then TrimRight(s[..|s| - 1]) else s
  }

  function ReadUnsigned(s: string, base: int): Option<nat>
    requires IsBase(base)
  {
    if s == "" then None else ReadDigits(s, base)
  }

  function Signed(negative: bool, n: nat): int {
    if negative then 0 - n else n
  }

  function ReadTrimmed(s: string, base: int): Option<int>
    requires IsBase(base)
  {
    if s != "" && (s[0] == '-' || s[0] == '+') then
      match ReadUnsigned(s[1..], base) case None => None case Some(n) => Some(Signed(s[0] == '-', n))
    else
      match ReadUnsigned(s, base) case None => None case Some(n) => Some(n)
  }

  /** An integer with an optional sign, surrounded by spaces. */
  function ReadNumber(field: string, base: int): Option<int>
    requires IsBase(base)
  {
    ReadTrimmed(TrimRight(TrimLeft(field)), base)
  }

  lemma {:induction false} TrimLeftSpaces(n: nat, s: string)
    requires s == "" || s[0] != ' '
    ensures TrimLeft(Rep(' ', n) + s) == s
  {
    if n == 0 {
      assert Rep(' ', 0) + s == s;
    } else {
      TrimLeftSpaces(n - 1, s);
      RepFront(' ', n);
      assert (Rep(' ', n) + s)[1..] == Rep(' ', n - 1) + s;
    }
  }

  lemma {:induction false} TrimRightSpaces(s: string, n: nat)
    requires s == "" || s[|s| - 1] != ' '
    ensures TrimRight(s + Rep(' ', n)) == s
  {
    if n == 0 {
      assert s + Rep(' ', 0) == s;
    } else {
      TrimRightSpaces(s, n - 1);
      assert (s + Rep(' ', n))[..|s| + n - 1] == s + Rep(' ', n - 1);
    }
  }

  lemma RepFront(c: char, n: nat)
    requires n > 0
    ensures Rep(c, n) == [c] + Rep(c, n - 1)
  {
    assert forall i :: 0 <= i < n ==> Rep(c, n)[i] == ([c] + Rep(c, n - 1))[i];
  }

  /** Text without outer spaces survives a field padded with spaces. */
  lemma SpacePaddingTrims(text: string, width: nat, pad: Pad)
    requires text != "" && text[0] != ' ' && text[|text| - 1] != ' ' && !pad.zero
    ensures TrimRight(TrimLeft(Padded(text, width, pad))) == text
  {
    var n := FillCount(|text|, width);
    if pad.right {
      var s := text + Rep(' ', n);
      assert s[0] == text[0];
      assert TrimLeft(s) == s;
      TrimRightSpaces(text, n);
    } else {
      TrimLeftSpaces(n, text);
      assert TrimRight(text) == text;
    }
  }

  lemma ReadSnoc(s: string, c: char, base: int)
    requires IsBase(base)
    ensures ReadDigits(s + [c], base) ==
            match ReadDigits(s, base)
            case None => None
            case Some(n) => if DigitValue(c) < base then Some(n * base + DigitValue(c)) else None
  {
    assert (s + [c])[..|s|] == s;
  }

  lemma {:induction false} ReadZeros(n: nat, base: int)
    requires IsBase(base)
    ensures ReadDigits(Rep('0', n), base) == Some(0)
  {
    if n == 0 {
    } else {
      ReadZeros(n - 1, base);
      ReadSnoc(Rep('0', n - 1), '0', base);
    }
  }

  lemma {:induction false} ReadLeadingZeros(n: nat, s: string, base: int)
    requires IsBase(base)
    ensures ReadDigits(Rep('0', n) + s, base) == ReadDigits(s, base)
  {
    if s == "" {
      ReadZeros(n, base);
      assert Rep('0', n) + s == Rep('0', n);
    } else {
      hide ReadDigits;
      var front, c := s[..|s| - 1], s[|s| - 1];
      ReadLeadingZeros(n, front, base);
      ReadSnoc(Rep('0', n) + front, c, base);
      ReadSnoc(front, c, base);
      assert front + [c] == s;
      assert (Rep('0', n) + front) + [c] == Rep('0', n) + s;
    }
  }

  lemma TimesGrows(m: nat, base: int)
    requires m > 0 && base >= 10
    ensures m * base > m
  {
  }

  /** Zeros appended to the digits of a positive number change what they say. */
  lemma {:induction false} ReadTrailingZeros(s: string, n: nat, base: int)
    requires IsBase(base) && ReadDigits(s, base).Some? && ReadDigits(s, base).value > 0
    ensures ReadDigits(s + Rep('0', n), base).Some?
    ensures n > 0 ==> ReadDigits(s + Rep('0', n), base).value > ReadDigits(s, base).value
    ensures ReadDigits(s + Rep('0', n), base).value >= ReadDigits(s, base).value
  {
    if n == 0 {
      assert s + Rep('0', 0) == s;
    } else {
      ReadTrailingZeros(s, n - 1, base);
      ReadSnoc(s + Rep('0', n - 1), '0', base);
      assert (s + Rep('0', n - 1)) + ['0'] == s + Rep('0', n);
      TimesGrows(ReadDigits(s + Rep('0', n - 1), base).value, base);
    }
  }

  /** A character that is no digit anywhere spoils the whole string. */
  lemma {:induction false} ReadFailsAt(s: string, i: nat, base: int)
    requires IsBase(base) && i < |s| && DigitValue(s[i]) == 36
    ensures ReadDigits(s, base) == None
  {
    if i < |s| - 1 {
      ReadFailsAt(s[..|s| - 1], i, base);
    }
  }

  /* ---- what printi() says ---- */

  /** The length of the text before padding. */
  function PlainLength(v: int, base: int, pad: Pad, letter: char): nat
    requires IsBase(base) && IsLetterBase(letter)
  {
    if v == 0 then 1 else |SignText(v, pad)| + |Digits(Magnitude(v), base, letter)|
  }

  /** The output is as long as the width, or as the text if that is longer. */
  lemma FieldLength(i: int, base: int, sign: bool, width: nat, pad: Pad, letter: char)
    requires IsBase(base) && IsLetterBase(letter) && Passable(i, base, sign, pad.long)
    ensures var n := PlainLength(Denoted(i, base, sign, pad.long), base, pad, letter);
            |IntText(i, base, sign, width, pad, letter)| == if width > n then width else n
  {
    DenotedIsZeroOnlyForZero(i, base, sign, pad.long);
  }

  /** Zeros are put where they change the number (behind it) or break it (before a plus). */
  predicate Garbled(v: int, base: int, width: nat, pad: Pad, letter: char)
    requires IsBase(base) && IsLetterBase(letter)
  {
    && v != 0 && pad.zero && width > PlainLength(v, base, pad, letter)
    && (pad.right || (pad.plus && v > 0))
  }

  lemma SignedReads(sgn: string, digits: string, n: nat, base: int)
    requires IsBase(base) && IsDigits(digits) && digits != "" && ReadDigits(digits, base) == Some(n)
    requires sgn in {"", "-", "+"}
    ensures ReadTrimmed(sgn + digits, base) == Some(if sgn == "-" then Signed(true, n) else n)
    ensures (sgn + digits)[0] != ' ' && (sgn + digits)[|sgn + digits| - 1] != ' '
  {
    hide ReadDigits;
    var text := sgn + digits;
    assert text[|text| - 1] == digits[|digits| - 1];
    if sgn == "" {
      assert text == digits;
      assert DigitValue(digits[0]) < 36;
    } else {
      assert text[0] == sgn[0] && text[1..] == digits;
    }
  }

  lemma PlainReadsBack(v: int, base: int, pad: Pad, letter: char)
    requires IsBase(base) && IsLetterBase(letter) && v != 0
    ensures var text := SignText(v, pad) + Digits(Magnitude(v), base, letter);
            && text != "" && text[0] != ' ' && text[|text| - 1] != ' '
            && ReadTrimmed(text, base) == Some(v)
  {
    DigitsReadBack(Magnitude(v), base, letter);
    DigitsAreDigits(Magnitude(v), base, letter);
    SignedReads(SignText(v, pad), Digits(Magnitude(v), base, letter), Magnitude(v), base);
  }

  lemma TrimNothing(s: string)
    requires s != "" && s[0] != ' ' && s[|s| - 1] != ' '
    ensures TrimRight(TrimLeft(s)) == s
  {
  }

  /** A number in a field of zeros in front reads as the number. */
  lemma ZerosInFront(sgn: string, digits: string, n: nat, k: nat, base: int)
    requires IsBase(base) && IsDigits(digits) && digits != "" && ReadDigits(digits, base) == Some(n)
    requires sgn in {"", "-", "+"}
    ensures ReadNumber(sgn + (Rep('0', k) + digits), base) == Some(if sgn == "-" then Signed(true, n) else n)
  {
    ReadLeadingZeros(k, digits, base);
    SignedReads(sgn, Rep('0', k) + digits, n, base);
    TrimNothing(sgn + (Rep('0', k) + digits));
  }

  /** With zeros behind, it reads as a larger one. */
  lemma ZerosBehind(sgn: string, digits: string, n: nat, k: nat, base: int)
    requires IsBase(base) && IsDigits(digits) && digits != "" && ReadDigits(digits, base) == Some(n) && n > 0
    requires sgn in {"", "-", "+"}
    ensures ReadNumber(sgn + (digits + Rep('0', k)), base).Some?
    ensures k > 0 ==>
      ReadNumber(sgn + (digits + Rep('0', k)), base).value != if sgn == "-" then Signed(true, n) else n
  {
    ReadTrailingZeros(digits, k, base);
    var z := digits + Rep('0', k);
    SignedReads(sgn, z, ReadDigits(z, base).value, base);
    TrimNothing(sgn + z);
  }

  /** A plus sign behind zeros cannot be read. */
  lemma PlusBehindZeros(digits: string, k: nat, base: int)
    requires IsBase(base) && IsDigits(digits) && digits != "" && k > 0
    ensures ReadNumber(Rep('0', k) + ("+" + digits), base) == None
  {
    var s := Rep('0', k) + ("+" + digits);
    assert s[0] == '0' && s[k] == '+' && s[|s| - 1] == digits[|digits| - 1];
    TrimNothing(s);
    ReadFailsAt(s, k, base);
  }

  lemma ZeroReadsBack(base: int, width: nat, pad: Pad)
    requires IsBase(base)
    ensures ReadNumber(Padded("0", width, pad), base) == Some(0)
  {
    var none := "";
    ReadSnoc(none, '0', base);
    assert none + ['0'] == "0";
    if pad.zero {
      var k := FillCount(1, width);
      ZerosInFront("", "0", 0, k, base);
      assert "0" + Rep('0', k) == Rep('0', k) + "0";
      assert "" + (Rep('0', k) + "0") == Rep('0', k) + "0";
    } else {
      SpacePaddingTrims("0", width, pad);
    }
  }

  lemma NegativeReadsBackIff(v: int, base: int, width: nat, pad: Pad, letter: char)
    requires IsBase(base) && IsLetterBase(letter) && v < 0 && pad.zero
    ensures ReadNumber(NumberText(v, base, width, pad, letter), base) == Some(v)
       <==> !Garbled(v, base, width, pad, letter)
  {
    hide ReadNumber, ReadDigits, Digits, IsDigits, Rep;
    var digits := Digits(-v, base, letter);
    DigitsReadBack(-v, base, letter);
    DigitsAreDigits(-v, base, letter);
    if width == 0 {
      ZerosInFront("-", digits, -v, 0, base);
      assert Rep('0', 0) + digits == digits;
      assert Padded("-" + digits, 0, pad) == "-" + digits;
    } else {
      var k := FillCount(|digits|, width - 1);
      if pad.right && k > 0 {
        ZerosBehind("-", digits, -v, k, base);
      } else {
        ZerosInFront("-", digits, -v, k, base);
        assert Padded(digits, width - 1, pad) == Rep('0', k) + digits;
      }
    }
  }

  lemma PositiveReadsBackIff(v: int, base: int, width: nat, pad: Pad, letter: char)
    requires IsBase(base) && IsLetterBase(letter) && v > 0 && pad.zero
    ensures ReadNumber(NumberText(v, base, width, pad, letter), base) == Some(v)
       <==> !Garbled(v, base, width, pad, letter)
  {
    hide ReadNumber, ReadDigits, Digits, IsDigits, Rep;
    var digits, sgn := Digits(v, base, letter), SignText(v, pad);
    DigitsReadBack(v, base, letter);
    DigitsAreDigits(v, base, letter);
    var k := FillCount(|sgn + digits|, width);
    if k == 0 {
      ZerosInFront(sgn, digits, v, 0, base);
      assert sgn + (Rep('0', 0) + digits) == sgn + digits;
      assert Padded(sgn + digits, width, pad) == sgn + digits;
    } else if pad.right {
      ZerosBehind(sgn, digits, v, k, base);
      assert sgn + (digits + Rep('0', k)) == (sgn + digits) + Rep('0', k);
    } else if pad.plus {
      PlusBehindZeros(digits, k, base);
    } else {
      ZerosInFront(sgn, digits, v, k, base);
      assert sgn + (Rep('0', k) + digits) == Rep('0', k) + (sgn + digits);
    }
  }

  /** What printi() puts out reads as the number it was given, except exactly when the
      flags make it put zeros behind the digits or in front of a plus sign. */
  lemma ReadsBackIff(i: int, base: int, sign: bool, width: nat, pad: Pad, letter: char)
    requires IsBase(base) && IsLetterBase(letter) && Passable(i, base, sign, pad.long)
    ensures var v := Denoted(i, base, sign, pad.long);
            ReadNumber(IntText(i, base, sign, width, pad, letter), base) == Some(v)
            <==> !Garbled(v, base, width, pad, letter)
  {
    var v := Denoted(i, base, sign, pad.long);
    DenotedIsZeroOnlyForZero(i, base, sign, pad.long);
    if i == 0 {
      ZeroReadsBack(base, width, pad);
    } else if !pad.zero {
      PlainReadsBack(v, base, pad, letter);
      SpacePaddingTrims(SignText(v, pad) + Digits(Magnitude(v), base, letter), width, pad);
    } else if v < 0 {
      NegativeReadsBackIff(v, base, width, pad, letter);
    } else {
      PositiveReadsBackIff(v, base, width, pad, letter);
    }
  }

  lemma FiveInDecimal()
    ensures Digits(5, 10, 'a') == "5" && ReadDigits("5", 10) == Some(5)
  {
    assert Digits(0, 10, 'a') == "";
    DigitsReadBack(5, 10, 'a');
  }

  /** Such flags exist: `%-03d` shows 5 as `500`. */
  lemma ZerosBehindFive()
    ensures Garbled(5, 10, 3, Pad(true, true, false, false), 'a')
    ensures IntText(5, 10, true, 3, Pad(true, true, false, false), 'a') == "500" && ReadNumber("500", 10) != Some(5)
  {
    var pad := Pad(true, true, false, false);
    FiveInDecimal();
    assert "" + "5" == "5";
    assert Rep('0', 1) == "0" && Rep('0', 2) == "00";
    assert IntText(5, 10, true, 3, pad, 'a') == "5" + "00";
    ReadsBackIff(5, 10, true, 3, pad, 'a');
  }

  /** And `%+03d` shows it as `0+5`. */
  lemma PlusBehindZero()
    ensures Garbled(5, 10, 3, Pad(false, true, true, false), 'a')
    ensures IntText(5, 10, true, 3, Pad(false, true, true, false), 'a') == "0+5" && ReadNumber("0+5", 10) == None
  {
    var pad := Pad(false, true, true, false);
    FiveInDecimal();
    assert "+" + "5" == "+5";
    assert Rep('0', 1) == "0";
    assert IntText(5, 10, true, 3, pad, 'a') == "0" + "+5";
    PlusBehindZeros("5", 1, 10);
  }
}
