/** The formatter: put strings and integers into fields, and interpret format strings. */
module PrintfToStream {
  import opened Prelude
  import opened IntegerText
  import opened Directives

  const PRINT_BUF_LEN: nat := 22   // sizeof(intptr_t) == 8

  /** The C string that starts at position `s` of a memory area. */
  function CString(mem: seq<char>, s: nat): string
    requires s <= |mem|
    decreases |mem| - s
  {
    if s == |mem| || mem[s] == '\0' then "" else [mem[s]] + CString(mem, s + 1)
  }

  lemma {:induction false} CStringIs(mem: seq<char>, s: nat, text: string)
    requires s + |text| < |mem| && mem[s..s + |text|] == text && mem[s + |text|] == '\0' && '\0' !in text
    ensures CString(mem, s) == text
    decreases |text|
  {
    if text == "" {
    } else {
      assert mem[s] == text[0] && text[0] in text;
      var rest := text[1..];
      assert forall c :: c in rest ==> c in text;
      assert mem[s + 1..s + 1 + |rest|] == mem[s..s + |text|][1..];
      CStringIs(mem, s + 1, rest);
    }
  }

  lemma {:induction false} DigitsHaveNoNul(u: nat, base: int, letter: char)
    requires IsBase(base) && IsLetterBase(letter)
    ensures '\0' !in Digits(u, base, letter)
  {
    DigitsAreDigits(u, base, letter);
  }

  class PrintfToStream {
    var out: string            // everything written to the stream

    constructor ()
      ensures out == ""
    {
      out := "";
    }

    method PutChar(c: char)
      modifies this
      ensures out == old(out) + [c]
    {
      out := out + [c];
    }

    /** The loops of lines 115-119 and 126-130. */
    method PutPadding(c: char, count: nat) returns (pc: nat)
      modifies this
      ensures out == old(out) + Rep(c, count) && pc == count
    {
      pc := 0;
      var width: int := count;
      while width > 0
        invariant 0 <= width <= count && pc == count - width
        invariant out == old(out) + Rep(c, pc)
      {
        PutChar(c);
        pc := pc + 1;
        width := width - 1;
      }
    }

    /** The loop of lines 121-125. */
    method PutString(text: string) returns (pc: nat)
      modifies this
      ensures out == old(out) + text && pc == |text|
    {
      pc := 0;
      while pc < |text|
        invariant pc <= |text|
        invariant out == old(out) + text[..pc]
      {
        PutChar(text[pc]);
        pc := pc + 1;
      }
      assert text[..pc] == text;
    }

    method Prints(text: string, fieldWidth: nat, pad: Pad) returns (pc: nat)
      modifies this
      ensures out == old(out) + Padded(text, fieldWidth, pad)
      ensures pc == |Padded(text, fieldWidth, pad)|
    {
      hide Rep, Padded;
      pc := 0;
      var padchar := ' ';
      var width: nat := fieldWidth;
      if width > 0 {
        var len := 0;
        while len < |text|
          invariant len <= |text|
        {
          len := len + 1;
        }
        if len >= width {
          width := 0;
        } else {
          width := width - len;
        }
        if pad.zero {
          padchar := '0';
        }
      }
      PaddedIs(text, fieldWidth, pad, padchar, width, out);
      if !pad.right {
        var n := PutPadding(padchar, width);
        pc := pc + n;
        width := 0;
      }
      var n := PutString(text);
      pc := pc + n;
      n := PutPadding(padchar, width);
      pc := pc + n;
    }

    /** Lines 175-186: the digits of `u`, backwards from the NUL at the end of the buffer.
        The write position leaves room for one more character, the sign. */
    method ConvertDigits(print_buf: array<char>, u0: nat, base: int, letterBase: char) returns (s: nat)
      requires IsBase(base) && IsLetterBase(letterBase) && print_buf.Length == PRINT_BUF_LEN && u0 < TWO64
      modifies print_buf
      ensures 1 <= s <= PRINT_BUF_LEN - 1
      ensures print_buf[s..PRINT_BUF_LEN - 1] == Digits(u0, base, letterBase)
      ensures print_buf[PRINT_BUF_LEN - 1] == '\0'
    {
      var u: nat := u0;
      ghost var digits := Digits(u0, base, letterBase);
      TwentyDigits(u0, base, letterBase);
      s := PRINT_BUF_LEN - 1;
      print_buf[s] := '\0';
      while u != 0
        invariant s <= PRINT_BUF_LEN - 1
        invariant print_buf[PRINT_BUF_LEN - 1] == '\0'
        invariant digits == Digits(u, base, letterBase) + print_buf[s..PRINT_BUF_LEN - 1]
        decreases |Digits(u, base, letterBase)|
      {
        ghost var tail := print_buf[s..PRINT_BUF_LEN - 1];
        var t, q := u % base, u / base;
        assert 0 <= t < 36 && q >= 0 by { DivMod(u, base); }
        assert Digits(u, base, letterBase) == Digits(q, base, letterBase) + [DigitChar(t, letterBase)];
        s := s - 1;
        print_buf[s] := DigitChar(t, letterBase);
        assert print_buf[s..PRINT_BUF_LEN - 1] == [DigitChar(t, letterBase)] + tail;
        u := q;
      }
    }

    method Printi(value: int, base: int, sign: bool, fieldWidth: nat, pad: Pad, letterBase: char) returns (pc: nat)
      requires IsBase(base) && IsLetterBase(letterBase)
      requires -TWO63 <= value < TWO63 && !(sign && base == 10 && pad.long && value == -TWO63)
      modifies this
      ensures out == old(out) + IntText(value, base, sign, fieldWidth, pad, letterBase)
      ensures pc == |IntText(value, base, sign, fieldWidth, pad, letterBase)|
    {
      var print_buf := new char[PRINT_BUF_LEN];
      pc := 0;
      var width := fieldWidth;
      var i := value;
      var u := value % 0x1_0000_0000_0000_0000;
      if i == 0 {
        print_buf[0] := '0';
        print_buf[1] := '\0';
        CStringIs(print_buf[..], 0, "0");
        pc := Prints(CString(print_buf[..], 0), width, pad);
        return;
      }
      if !pad.long {
        i := Signed32(i);
        u := u % 0x1_0000_0000;
      }
      var neg := false;
      if sign && base == 10 && i < 0 {
        neg := true;
        u := -i;
      }
      ghost var v := Denoted(value, base, sign, pad.long);
      UnsignedPart(value, base, sign, pad.long);
      assert u == Magnitude(v) && (neg <==> v < 0);

      pc := PutNumber(neg, u, base, width, pad, letterBase);
    }

    /** Lines 175-209. */
    method PutNumber(neg: bool, u: nat, base: int, fieldWidth: nat, pad: Pad, letterBase: char) returns (pc: nat)
      requires IsBase(base) && IsLetterBase(letterBase) && u < TWO64 && (neg ==> u > 0)
      modifies this
      ensures out == old(out) + NumberText(Signed(neg, u), base, fieldWidth, pad, letterBase)
      ensures pc == |NumberText(Signed(neg, u), base, fieldWidth, pad, letterBase)|
    {
      hide Padded, Digits, NumberText;
      pc := 0;
      var width := fieldWidth;
      var print_buf := new char[PRINT_BUF_LEN];
      var s := ConvertDigits(print_buf, u, base, letterBase);
      ghost var digits := Digits(u, base, letterBase);
      if neg {
        if width != 0 && pad.zero {
          PutChar('-');
          pc := pc + 1;
          width := width - 1;
        } else {
          s := PutBefore(print_buf, s, '-', digits);
          digits := "-" + digits;
        }
      } else {
        if pad.plus {
          s := PutBefore(print_buf, s, '+', digits);
          digits := "+" + digits;
        }
      }
      NumberTextCases(neg, u, base, fieldWidth, pad, letterBase);
      DigitsHaveNoNul(u, base, letterBase);
      var str := BufferText(print_buf, s, digits);
      var n := Prints(str, width, pad);
      pc := pc + n;
    }

    /** `*--s = c`. */
    method PutBefore(print_buf: array<char>, s0: nat, c: char, ghost text: string) returns (s: nat)
      requires print_buf.Length == PRINT_BUF_LEN && 1 <= s0 <= PRINT_BUF_LEN - 1
      requires print_buf[s0..PRINT_BUF_LEN - 1] == text && print_buf[PRINT_BUF_LEN - 1] == '\0'
      modifies print_buf
      ensures s == s0 - 1 && print_buf[s..PRINT_BUF_LEN - 1] == [c] + text && print_buf[PRINT_BUF_LEN - 1] == '\0'
    {
      s := s0 - 1;
      print_buf[s] := c;
    }

    /** The string that prints() is given. */
    method BufferText(print_buf: array<char>, s: nat, ghost text: string) returns (str: string)
      requires print_buf.Length == PRINT_BUF_LEN && s <= PRINT_BUF_LEN - 1 && '\0' !in text
      requires print_buf[s..PRINT_BUF_LEN - 1] == text && print_buf[PRINT_BUF_LEN - 1] == '\0'
      ensures str == text
    {
      CStringIs(print_buf[..], s, text);
      str := CString(print_buf[..], s);
    }

    /** Lines 316-325. A format is a C string: the characters still to be read. */
    method SkipFlags(fmt: string, ghost d: Directive, ghost rest: string)
      returns (left: bool, plus: bool, format: string)
      requires d.Conversion? && fmt == Flags(d) + rest && rest != ""
      requires (!d.plus ==> rest[0] != '+') && (!d.plus && !d.left ==> rest[0] != '-')
      ensures left == d.left && plus == d.plus && format == rest
    {
      format := fmt;
      left, plus := false, false;
      if format[0] == '-' {
        format := format[1..];
        left := true;
      }
      if format[0] == '+' {
        format := format[1..];
        plus := true;
      }
    }

    /** Lines 326-330. */
    method SkipZeros(fmt: string, ghost zeros: nat, ghost rest: string) returns (zero: bool, format: string)
      requires fmt == Rep('0', zeros) + rest && rest != "" && rest[0] != '0'
      ensures zero == (zeros > 0) && format == rest
    {
      format := fmt;
      zero := false;
      ghost var n: nat := zeros;
      while format != "" && format[0] == '0'
        invariant n <= zeros && format == Rep('0', n) + rest && zero == (n < zeros)
        decreases n
      {
        RepFront('0', n);
        format := format[1..];
        zero := true;
        n := n - 1;
      }
    }

    /** Lines 331-361; the digits behind a point are for `%f` only. */
    method ScanWidth(fmt: string, ghost digits: string, ghost rest: string) returns (width: nat, format: string)
      requires forall i :: 0 <= i < |digits| ==> IsDigit(digits[i]) || digits[i] == '.'
      requires fmt == digits + rest && rest != "" && rest[0] != '.' && !IsDigit(rest[0])
      ensures width == WidthOf(digits) && format == rest
    {
      format := fmt;
      width := 0;
      var post_decimal := false;
      ghost var k := 0;
      while format != "" && (format[0] == '.' || IsDigit(format[0]))
        invariant k <= |digits| && format == digits[k..] + rest
        invariant post_decimal == ('.' in digits[..k])
        invariant width == WidthOf(digits[..k])
        decreases |digits| - k
      {
        assert digits[..k + 1][..k] == digits[..k];
        if format[0] == '.' {
          post_decimal := true;
        } else if !post_decimal {
          width := width * 10;
          width := width + (format[0] as int - '0' as int);
        }
        format := format[1..];
        k := k + 1;
      }
      assert digits[..k] == digits;
    }

    /** Lines 362-368. */
    method SkipLength(fmt: string, ghost d: Directive, ghost rest: string) returns (isLong: bool, format: string)
      requires d.Conversion? && (d.long.Some? ==> d.long.value == 't' || d.long.value == 'l')
      requires fmt == Length(d) + rest && rest != "" && (d.long.None? ==> rest[0] != 't' && rest[0] != 'l')
      ensures isLong == d.long.Some? && format == rest
    {
      format := fmt;
      isLong := false;
      if format[0] == 't' || format[0] == 'l' {
        format := format[1..];
        isLong := true;
      }
    }

    /** The switch, lines 369-420. */
    method Convert(conv: char, width: nat, flags: Pad, arg: Option<Arg>, ghost d: Directive) returns (pc: nat)
      requires WellFormed(d) && d.Conversion? && conv == d.conv && width == WidthOf(d.digits) && flags == PadOf(d)
      requires if TakesArg(d) then arg.Some? && Fits(d, arg.value) else arg.None?
      modifies this
      ensures TakesArg(d) ==> out == old(out) + Field(d, arg.value) && pc == |Field(d, arg.value)|
      ensures !TakesArg(d) ==> out == old(out) + Plain(d) && pc == 0
    {
      pc := 0;
      if conv == 's' {
        var s := arg.value.s;
        pc := Prints(if s.Some? then s.value else "(null)", width, flags);
      } else if conv == 'c' {
        var scr := [arg.value.c, '\0'];
        assert CString(scr, 1) == "";
        pc := Prints(CString(scr, 0), width, flags);
      } else if IsInteger(conv) {
        var value := if flags.long then arg.value.l else arg.value.i;
        pc := Printi(value, BaseOf(conv), conv == 'd', width, flags, LetterOf(conv));
      } else {
        PutChar('%');
        PutChar(conv);
      }
    }

    /** One directive behind its percent sign, lines 307-368 and the switch. */
    method Directive(fmt: string, args: seq<Arg>, ghost d: Directive, ghost tail: string)
      returns (pc: nat, rest: string, argsLeft: seq<Arg>)
      requires WellFormed(d) && d.Conversion? && fmt == Modifiers(d) + ([d.conv] + tail)
      requires TakesArg(d) ==> args != [] && Fits(d, args[0])
      modifies this
      ensures rest == [d.conv] + tail
      ensures argsLeft == if TakesArg(d) then args[1..] else args
      ensures TakesArg(d) ==> out == old(out) + Field(d, args[0]) && pc == |Field(d, args[0])|
      ensures !TakesArg(d) ==> out == old(out) + Plain(d) && pc == 0
    {
      ghost var afterLength := [d.conv] + tail;
      ghost var afterDigits := Length(d) + afterLength;
      ghost var afterZeros := d.digits + afterDigits;
      ghost var afterFlags := Rep('0', d.zeros) + afterZeros;
      ModifiersSplit(d, tail);
      var left, plus, format := SkipFlags(fmt, d, afterFlags);
      var zero;
      zero, format := SkipZeros(format, d.zeros, afterZeros);
      var width;
      width, format := ScanWidth(format, d.digits, afterDigits);
      var isLong;
      isLong, format := SkipLength(format, d, afterLength);
      rest := format;
      argsLeft := args;
      var arg := None;
      if IsKnown(format[0]) {
        arg := Some(args[0]);
        argsLeft := args[1..];
      }
      pc := Convert(format[0], width, Pad(left, zero, plus, isLong), arg, d);
    }

    /** One turn of the loop of vprintf(), lines 304-426. */
    method Turn(fmt: string, args: seq<Arg>, ghost d: Directive, ghost tail: string)
      returns (pc: nat, format: string, argsLeft: seq<Arg>)
      requires WellFormed(d) && fmt == RenderOne(d) + tail
      requires TakesArg(d) ==> args != [] && Fits(d, args[0])
      modifies this
      ensures format == tail && argsLeft == if TakesArg(d) then args[1..] else args
      ensures out == old(out) + Piece(d, args)
      ensures pc == |Piece(d, args)| - Missed(d)
    {
      format := fmt;
      argsLeft := args;
      if format[0] == '%' {
        format := format[1..];
        StartsLiteral(d, tail);
        if format[0] == '%' {
          PutChar(format[0]);
          pc := 1;
        } else {
          pc, format, argsLeft := Directive(format, args, d, tail);
        }
      } else {
        StartsLiteral(d, tail);
        PutChar(format[0]);
        pc := 1;
      }
      format := format[1..];
    }

    /** For every list of directives and matching arguments, the output is what the
        directives put out, one after the other; the result is its length, but for the
        characters put out for unknown conversions. A percent sign at the end, if the format
        is `cut` there, puts out nothing. */
    method Vprintf(fmt: string, va: seq<Arg>, ghost ds: seq<Directive>, ghost cut: bool := false) returns (pc: int)
      requires fmt == Render(ds) + Ending(cut) && AllWellFormed(ds) && Matches(ds, va)
      modifies this
      ensures out == old(out) + Output(ds, va)
      ensures pc == |Output(ds, va)| - Uncounted(ds)
    {
      pc := 0;
      var format := fmt;
      var args := va;
      ghost var todo := ds;
      while format != ""
        invariant format == Render(todo) + Ending(cut) && AllWellFormed(todo) && Matches(todo, args)
        invariant out + Output(todo, args) == old(out) + Output(ds, va)
        invariant pc + |Output(todo, args)| - Uncounted(todo) == |Output(ds, va)| - Uncounted(ds)
        decreases |todo|
      {
        NothingLeft(todo, cut);
        if format == "%" {
          break;
        }
        Unfold(todo, args);
        Regroup(out, Piece(todo[0], args), Output(todo[1..], RestArgs(todo[0], args)));
        Regroup(RenderOne(todo[0]), Render(todo[1..]), Ending(cut));
        var n;
        n, format, args := Turn(format, args, todo[0], Render(todo[1..]) + Ending(cut));
        pc := pc + n;
        todo := todo[1..];
      }
      NothingLeft(todo, cut);
      assert out + "" == out;
    }
  }

  /** Lines 308-309. */
  function Ending(cut: bool): string {
    if cut then "%" else ""
  }

  /** The field around a text, piece by piece. */
  lemma PaddedIs(text: string, width: nat, pad: Pad, padchar: char, fill: nat, before: string)
    requires fill == FillCount(|text|, width) && (fill > 0 ==> padchar == if pad.zero then '0' else ' ')
    ensures pad.right ==> (before + text) + Rep(padchar, fill) == before + Padded(text, width, pad)
    ensures !pad.right ==> ((before + Rep(padchar, fill)) + text) + Rep(padchar, 0) == before + Padded(text, width, pad)
  {
    assert fill == 0 ==> Rep(padchar, fill) == Rep(if pad.zero then '0' else ' ', fill);
  }

  /** What one directive puts out. */
  function Piece(d: Directive, args: seq<Arg>): string
    requires WellFormed(d) && (TakesArg(d) ==> args != [] && Fits(d, args[0]))
  {
    if TakesArg(d) then Field(d, args[0]) else Plain(d)
  }

  function RestArgs(d: Directive, args: seq<Arg>): seq<Arg>
    requires TakesArg(d) ==> args != []
  {
    if TakesArg(d) then args[1..] else args
  }

  function Missed(d: Directive): nat {
    if d.Conversion? && !IsKnown(d.conv) then 2 else 0
  }

  lemma Unfold(ds: seq<Directive>, args: seq<Arg>)
    requires ds != [] && AllWellFormed(ds) && Matches(ds, args)
    ensures var d, rest := ds[0], ds[1..];
            && WellFormed(d) && AllWellFormed(rest)
            && (TakesArg(d) ==> args != [] && Fits(d, args[0]))
            && Matches(rest, RestArgs(d, args))
            && Render(ds) == RenderOne(d) + Render(rest)
            && Output(ds, args) == Piece(d, args) + Output(rest, RestArgs(d, args))
            && Uncounted(ds) == Missed(d) + Uncounted(rest)
  {
  }

  /** What the first characters of a directive tell about it. */
  lemma StartsLiteral(d: Directive, tail: string)
    requires WellFormed(d)
    ensures var s := RenderOne(d) + tail;
            && (s[0] == '%' <==> !d.Literal?)
            && (d.Literal? ==> s[0] == d.c && s[1..] == tail)
            && (d.Percent? ==> s[1] == '%' && s[2..] == tail && s[1..][0] == '%' && s[1..][1..] == tail)
            && (d.Conversion? ==> |s| > 1 && s[1..] == Modifiers(d) + ([d.conv] + tail) && s[1..][0] != '%')
  {
    var s := RenderOne(d) + tail;
    match d
    case Literal(c) =>
      assert s == [c] + tail;
    case Percent =>
      assert s == "%%" + tail;
    case Conversion(_, _, _, _, _, _) =>
      ModifiersStart(d, tail);
  }

  lemma ModifiersRegroup(d: Directive, tail: string)
    requires d.Conversion?
    ensures Modifiers(d) + ([d.conv] + tail)
         == Flags(d) + (Rep('0', d.zeros) + (d.digits + (Length(d) + ([d.conv] + tail))))
  {
    Regroup(d.digits, Length(d), [d.conv] + tail);
    Regroup(Rep('0', d.zeros), d.digits + Length(d), [d.conv] + tail);
    Regroup(Flags(d), Rep('0', d.zeros) + (d.digits + Length(d)), [d.conv] + tail);
  }

  lemma ModifiersSplit(d: Directive, tail: string)
    requires WellFormed(d) && d.Conversion?
    ensures var afterLength := [d.conv] + tail;
            var afterDigits := Length(d) + afterLength;
            var afterZeros := d.digits + afterDigits;
            var afterFlags := Rep('0', d.zeros) + afterZeros;
            && Modifiers(d) + afterLength == Flags(d) + afterFlags
            && (d.long.None? ==> afterLength[0] != 't' && afterLength[0] != 'l')
            && afterDigits != "" && afterDigits[0] != '.' && !IsDigit(afterDigits[0])
            && afterZeros != "" && afterZeros[0] != '0'
            && afterFlags != "" && (!d.plus ==> afterFlags[0] != '+')
            && (!d.plus && !d.left ==> afterFlags[0] != '-')
  {
    ModifiersRegroup(d, tail);
    var afterLength := [d.conv] + tail;
    var afterDigits := Length(d) + afterLength;
    var afterZeros := d.digits + afterDigits;
    assert d.digits == "" ==> afterZeros == afterDigits;
    assert Length(d) == "" ==> afterDigits == afterLength;
  }

  /** A conversion does not start with a second percent sign. */
  lemma ModifiersStart(d: Directive, tail: string)
    requires WellFormed(d) && d.Conversion?
    ensures (Modifiers(d) + ([d.conv] + tail))[0] != '%'
    ensures RenderOne(d) + tail == "%" + (Modifiers(d) + ([d.conv] + tail))
  {
    var s := Modifiers(d) + ([d.conv] + tail);
    if Modifiers(d) == "" {
      assert s[0] == d.conv;
    } else {
      assert s[0] == Modifiers(d)[0];
    }
  }

  /** A format ends, or is one percent sign, only behind its last directive. */
  lemma NothingLeft(todo: seq<Directive>, cut: bool)
    requires AllWellFormed(todo)
    ensures Render(todo) + Ending(cut) in {"", "%"} <==> todo == []
  {
    if todo == [] {
      assert "" + Ending(cut) == Ending(cut);
    } else {
      var d, rest := todo[0], Render(todo[1..]) + Ending(cut);
      Regroup(RenderOne(d), Render(todo[1..]), Ending(cut));
      StartsLiteral(d, rest);
      assert |RenderOne(d) + rest| > 1 || (RenderOne(d) + rest)[0] != '%';
    }
  }

  lemma NumberTextCases(neg: bool, u: nat, base: int, width: nat, pad: Pad, letter: char)
    requires IsBase(base) && IsLetterBase(letter) && (neg ==> u > 0)
    ensures var digits := Digits(u, base, letter);
            NumberText(Signed(neg, u), base, width, pad, letter) ==
              if neg && width > 0 && pad.zero then "-" + Padded(digits, width - 1, pad)
              else if neg then Padded("-" + digits, width, pad)
              else if pad.plus then Padded("+" + digits, width, pad)
              else Padded(digits, width, pad)
  {
    assert "" + Digits(u, base, letter) == Digits(u, base, letter);
  }

  /** `u` after lines 154-173. */
  lemma UnsignedPart(value: int, base: int, sign: bool, long: bool)
    requires -TWO63 <= value < TWO63
    ensures var i := if long then value else Signed32(value);
            var u := if long then value % 0x1_0000_0000_0000_0000 else value % 0x1_0000_0000_0000_0000 % 0x1_0000_0000;
            Magnitude(Denoted(value, base, sign, long)) == (if sign && base == 10 && i < 0 then -i else u)
    ensures Magnitude(Denoted(value, base, sign, long)) < TWO64
  {
    assert value % 0x1_0000_0000_0000_0000 % 0x1_0000_0000 == value % 0x1_0000_0000;
  }
}
