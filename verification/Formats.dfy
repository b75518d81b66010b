/** Which format strings are lists of directives: a reader of formats that undoes their rendering. */
module Formats {
  import opened Prelude
  import opened IntegerText
  import opened Directives
  import opened PrintfToStream

  function LeadingZeros(s: string): (n: nat)
    ensures n <= |s| && (n < |s| ==> s[n] != '0')
    ensures s[..n] == Rep('0', n)
  {
    if s == "" || s[0] != '0' then 0
    else
      var n := LeadingZeros(s[1..]) + 1;
      assert s[..n] == ['0'] + s[1..][..n - 1];
      RepFront('0', n);
      n
  }

  predicate InWidth(c: char) {
    IsDigit(c) || c == '.'
  }

  function LeadingDigits(s: string): (n: nat)
    ensures n <= |s| && (n < |s| ==> !InWidth(s[n]))
    ensures forall i :: 0 <= i < n ==> InWidth(s[i])
  {
    if s == "" || !InWidth(s[0]) then 0 else LeadingDigits(s[1..]) + 1
  }

  function DropFlag(s: string, c: char): string {
    if s != "" && s[0] == c then s[1..] else s
  }

  function AfterFlags(s: string): string {
    DropFlag(DropFlag(s, '-'), '+')
  }

  function AfterZeros(s: string): string {
    var a := AfterFlags(s);
    a[LeadingZeros(a)..]
  }

  function AfterDigits(s: string): string {
    var a := AfterZeros(s);
    a[LeadingDigits(a)..]
  }

  predicate StartsLength(s: string) {
    s != "" && (s[0] == 't' || s[0] == 'l')
  }

  /** What is left of a directive behind its modifiers: the conversion letter and the rest. */
  function AfterLength(s: string): string {
    var a := AfterDigits(s);
    if StartsLength(a) then a[1..] else a
  }

  /** The modifiers in front of a conversion letter. */
  function ReadModifiers(s: string, conv: char): Directive {
    var noLeft := DropFlag(s, '-');
    var digits := AfterZeros(s);
    var length := AfterDigits(s);
    Conversion(noLeft != s, AfterFlags(s) != noLeft, LeadingZeros(AfterFlags(s)),
               digits[..LeadingDigits(digits)], if StartsLength(length) then Some(length[0]) else None, conv)
  }

  /** The directives of a format; none if it ends inside a directive or holds `%f` or NUL. */
  function ReadFormat(fmt: string): Option<seq<Directive>> {
    if fmt == "" then Some([])
    else if fmt[0] == '\0' then None
    else if fmt[0] != '%' then Cons(Literal(fmt[0]), ReadFormat(fmt[1..]))
    else if |fmt| == 1 then None
    else if fmt[1] == '%' then Cons(Percent, ReadFormat(fmt[2..]))
    else
      var s := AfterLength(fmt[1..]);
      ShrinksToLetter(fmt[1..]);
      if s == "" || s[0] == '\0' || s[0] == 'f' then None
      else Cons(ReadModifiers(fmt[1..], s[0]), ReadFormat(s[1..]))
  }

  function Cons(d: Directive, ds: Option<seq<Directive>>): Option<seq<Directive>> {
    match ds case None => None case Some(rest) => Some([d] + rest)
  }

  lemma ShrinksToLetter(s: string)
    ensures |AfterLength(s)| <= |s|
  {
  }

  /* ---- what is read renders as the format ---- */

  lemma FlagRead(s: string, c: char)
    ensures s == (if DropFlag(s, c) != s then [c] else "") + DropFlag(s, c)
    ensures DropFlag(s, c) == s && s != "" ==> s[0] != c
  {
  }

  lemma FlagsRead(s: string)
    ensures s == Flags(ReadModifiers(s, 'd')) + AfterFlags(s)
    ensures var d := ReadModifiers(s, 'd'); AfterFlags(s) != "" ==>
      (!d.plus ==> AfterFlags(s)[0] != '+') && (!d.plus && !d.left ==> AfterFlags(s)[0] != '-')
  {
    hide DropFlag, AfterZeros, AfterDigits, LeadingZeros, LeadingDigits;
    var noLeft := DropFlag(s, '-');
    FlagRead(s, '-');
    FlagRead(noLeft, '+');
    Regroup(if noLeft != s then "-" else "", if AfterFlags(s) != noLeft then "+" else "", AfterFlags(s));
  }

  lemma CutAt(s: string, n: nat)
    requires n <= |s|
    ensures s == s[..n] + s[n..]
  {
  }

  lemma StagesRead(s: string, conv: char)
    ensures var d := ReadModifiers(s, conv);
            && AfterFlags(s) == Rep('0', d.zeros) + AfterZeros(s)
            && AfterZeros(s) == d.digits + AfterDigits(s)
            && AfterDigits(s) == Length(d) + AfterLength(s)
  {
    hide DropFlag, AfterFlags, LeadingZeros, LeadingDigits;
    CutAt(AfterFlags(s), LeadingZeros(AfterFlags(s)));
    CutAt(AfterZeros(s), LeadingDigits(AfterZeros(s)));
    LengthRead(AfterDigits(s));
  }

  lemma LengthRead(s: string)
    ensures s == if StartsLength(s) then [s[0]] + s[1..] else "" + s
  {
  }

  lemma ModifiersRead(s: string, conv: char)
    ensures var d := ReadModifiers(s, conv);
            && s == Flags(d) + (Rep('0', d.zeros) + (d.digits + (Length(d) + AfterLength(s))))
            && s == Modifiers(d) + AfterLength(s)
  {
    FlagsRead(s);
    StagesRead(s, conv);
    assert Flags(ReadModifiers(s, conv)) == Flags(ReadModifiers(s, 'd'));
    var d, rest := ReadModifiers(s, conv), AfterLength(s);
    hide ReadModifiers, AfterLength, AfterDigits, AfterZeros, AfterFlags, Rep, Flags, Length;
    Regroup(d.digits, Length(d), rest);
    Regroup(Rep('0', d.zeros), d.digits + Length(d), rest);
    Regroup(Flags(d), Rep('0', d.zeros) + (d.digits + Length(d)), rest);
  }

  lemma NextStops(s: string, conv: char)
    requires s != "" && s[0] != '%' && AfterLength(s) != ""
    ensures StopsAt(ReadModifiers(s, conv), AfterLength(s)[0])
  {
    var d, c := ReadModifiers(s, conv), AfterLength(s)[0];
    FlagsRead(s);
    ModifiersRead(s, conv);
    if Modifiers(d) == "" {
      assert AfterLength(s) == s;
      assert Flags(d) == "" && Rep('0', d.zeros) == "";
    }
    if d.zeros == 0 && d.digits == "" && d.long.None? {
      assert AfterLength(s) == AfterFlags(s);
    }
    assert d.long.None? ==> AfterLength(s) == AfterDigits(s);
  }

  lemma ReadIsWellFormed(s: string)
    requires s != "" && s[0] != '%' && AfterLength(s) != "" && AfterLength(s)[0] !in {'\0', 'f'}
    ensures WellFormed(ReadModifiers(s, AfterLength(s)[0]))
  {
    hide LeadingZeros, LeadingDigits, DropFlag, AfterFlags, StopsAt, AfterLength;
    var c := AfterLength(s)[0];
    var d := ReadModifiers(s, c);
    NextStops(s, c);
    assert forall i :: 0 <= i < |d.digits| ==> d.digits[i] == AfterZeros(s)[i];
  }

  lemma DirectiveReads(s: string)
    requires s != "" && s[0] != '%' && AfterLength(s) != "" && AfterLength(s)[0] !in {'\0', 'f'}
    ensures var d := ReadModifiers(s, AfterLength(s)[0]);
            WellFormed(d) && "%" + s == RenderOne(d) + AfterLength(s)[1..]
  {
    hide AfterLength, Modifiers, WellFormed, LeadingZeros, LeadingDigits, AfterZeros, AfterDigits, AfterFlags, DropFlag;
    var rest := AfterLength(s);
    var d := ReadModifiers(s, rest[0]);
    ModifiersRead(s, rest[0]);
    ReadIsWellFormed(s);
    CutAt(rest, 1);
    assert rest[..1] == [d.conv];
    Regroup(Modifiers(d), [d.conv], rest[1..]);
    Regroup("%", Modifiers(d) + [d.conv], rest[1..]);
  }

  lemma RenderCons(d: Directive, ds: seq<Directive>)
    requires WellFormed(d) && AllWellFormed(ds)
    ensures AllWellFormed([d] + ds) && Render([d] + ds) == RenderOne(d) + Render(ds)
  {
    assert ([d] + ds)[1..] == ds;
  }

  /** A format that can be read is the rendering of what is read. */
  lemma {:induction false} ReadRenders(fmt: string)
    requires ReadFormat(fmt).Some?
    ensures AllWellFormed(ReadFormat(fmt).value) && Render(ReadFormat(fmt).value) == fmt
    decreases |fmt|
  {
    if fmt == "" {
    } else if fmt[0] != '%' {
      ReadRenders(fmt[1..]);
      RenderCons(Literal(fmt[0]), ReadFormat(fmt[1..]).value);
    } else if fmt[1] == '%' {
      ReadRenders(fmt[2..]);
      RenderCons(Percent, ReadFormat(fmt[2..]).value);
      assert fmt == "%%" + fmt[2..];
    } else {
      var s := fmt[1..];
      var rest := AfterLength(s);
      ShrinksToLetter(s);
      DirectiveReads(s);
      ReadRenders(rest[1..]);
      RenderCons(ReadModifiers(s, rest[0]), ReadFormat(rest[1..]).value);
      assert fmt == "%" + s;
    }
  }

  /* ---- what is rendered is read ---- */

  lemma {:induction false} ZerosAre(n: nat, rest: string)
    requires rest == "" || rest[0] != '0'
    ensures LeadingZeros(Rep('0', n) + rest) == n && (Rep('0', n) + rest)[n..] == rest
  {
    var s := Rep('0', n) + rest;
    if n == 0 {
      assert s == rest;
    } else {
      RepFront('0', n);
      assert s[1..] == Rep('0', n - 1) + rest;
      ZerosAre(n - 1, rest);
    }
  }

  lemma {:induction false} DigitsAre(digits: string, rest: string)
    requires (forall i :: 0 <= i < |digits| ==> InWidth(digits[i])) && (rest == "" || !InWidth(rest[0]))
    ensures LeadingDigits(digits + rest) == |digits| && (digits + rest)[|digits|..] == rest
    ensures (digits + rest)[..|digits|] == digits
  {
    if digits == "" {
      assert digits + rest == rest;
    } else {
      assert (digits + rest)[1..] == digits[1..] + rest;
      DigitsAre(digits[1..], rest);
    }
  }

  lemma FlagsAre(d: Directive, rest: string)
    requires d.Conversion? && rest != "" && (!d.plus ==> rest[0] != '+') && (!d.plus && !d.left ==> rest[0] != '-')
    ensures var s := Flags(d) + rest;
            && AfterFlags(s) == rest
            && (DropFlag(s, '-') != s <==> d.left) && (AfterFlags(s) != DropFlag(s, '-') <==> d.plus)
  {
    var s := Flags(d) + rest;
    if d.left {
      assert s == "-" + ((if d.plus then "+" else "") + rest);
      assert s[1..] == (if d.plus then "+" else "") + rest;
    }
    assert d.plus ==> ("+" + rest)[1..] == rest;
    assert !d.left && !d.plus ==> s == rest;
    assert !d.left && d.plus ==> s == "+" + rest;
    assert d.left && !d.plus ==> s[1..] == rest;
  }

  /** Reading takes the modifiers of a directive apart again. */
  lemma DirectiveIsRead(d: Directive, tail: string)
    requires WellFormed(d) && d.Conversion?
    ensures var s := Modifiers(d) + ([d.conv] + tail);
            ReadModifiers(s, d.conv) == d && AfterLength(s) == [d.conv] + tail
  {
    var s := Modifiers(d) + ([d.conv] + tail);
    var afterLength := [d.conv] + tail;
    var afterDigits := Length(d) + afterLength;
    var afterZeros := d.digits + afterDigits;
    ModifiersSplit(d, tail);
    FlagsAre(d, Rep('0', d.zeros) + afterZeros);
    ZerosAre(d.zeros, afterZeros);
    DigitsAre(d.digits, afterDigits);
    hide LeadingZeros, LeadingDigits, Modifiers, DropFlag, AfterFlags, Rep, Flags, WellFormed, Length;
    assert AfterZeros(s) == afterZeros;
    assert AfterDigits(s) == afterDigits;
    LengthIs(d, afterLength);
  }

  lemma LengthIs(d: Directive, rest: string)
    requires d.Conversion? && rest != ""
    ensures d.long.Some? ==> (Length(d) + rest)[0] == d.long.value && (Length(d) + rest)[1..] == rest
    ensures d.long.None? ==> Length(d) + rest == rest
  {
  }

  /** The rendering of a list of directives is read as that list. */
  lemma {:induction false} RenderIsRead(ds: seq<Directive>)
    requires AllWellFormed(ds)
    ensures ReadFormat(Render(ds)) == Some(ds)
  {
    hide AfterLength, ReadModifiers, Modifiers;
    if ds == [] {
    } else {
      var d, tail := ds[0], Render(ds[1..]);
      RenderIsRead(ds[1..]);
      StartsLiteral(d, tail);
      assert [d] + ds[1..] == ds;
      if d.Conversion? {
        DirectiveIsRead(d, tail);
        assert ([d.conv] + tail)[1..] == tail;
      }
    }
  }

  /** The formats covered are exactly those that do not end inside a directive and hold no
      `%f`, and each is the rendering of just one list of directives. */
  lemma CoveredIff(fmt: string)
    ensures (exists ds :: AllWellFormed(ds) && Render(ds) == fmt) <==> ReadFormat(fmt).Some?
    ensures forall ds :: AllWellFormed(ds) && Render(ds) == fmt ==> ReadFormat(fmt) == Some(ds)
  {
    forall ds | AllWellFormed(ds) && Render(ds) == fmt
      ensures ReadFormat(fmt) == Some(ds)
    {
      RenderIsRead(ds);
    }
    if ReadFormat(fmt).Some? {
      ReadRenders(fmt);
    }
  }
}
