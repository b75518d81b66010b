/** Format strings as lists of directives, and what each directive puts out. */
module Directives {
  import opened Prelude
  import opened IntegerText

  datatype Directive =
    | Literal(c: char)
    | Percent
    | Conversion(left: bool, plus: bool, zeros: nat, digits: string, long: Option<char>, conv: char)

  /** An argument: a C string or null, an int or unsigned, a long or unsigned long
      (as the signed number with the same bits), a character. */
  datatype Arg = Str(s: Option<string>) | Int(i: int) | Long(l: int) | Chr(c: char)

  predicate IsDigit(c: char) { '0' <= c <= '9' }

  predicate IsInteger(conv: char) { conv == 'd' || conv == 'x' || conv == 'X' || conv == 'u' }

  predicate IsKnown(conv: char) { conv == 's' || conv == 'c' || IsInteger(conv) }

  /** What is read as such a directive: no `%f`, and a conversion letter that is not itself
      read as a second percent sign, a flag, a digit or a length where it stands. */
  predicate WellFormed(d: Directive) {
    match d
    case Literal(c) => c != '%' && c != '\0'
    case Percent => true
    case Conversion(_, _, _, digits, long, conv) =>
      && (forall i :: 0 <= i < |digits| ==> IsDigit(digits[i]) || digits[i] == '.')
      && (digits != "" ==> digits[0] != '0')
      && (long.Some? ==> long.value == 't' || long.value == 'l')
      && conv != '\0' && conv != 'f'
      && StopsAt(d, conv)
  }

  /** Character `c` behind the modifiers of `d` is not read as one more of them. */
  predicate StopsAt(d: Directive, c: char)
    requires d.Conversion?
  {
    && (Modifiers(d) == "" ==> c != '%' && c != '-')
    && (!d.plus && d.zeros == 0 && d.digits == "" && d.long.None? ==> c != '+')
    && (d.long.None? ==> !IsDigit(c) && c !in {'.', 't', 'l'})
  }

  predicate AllWellFormed(ds: seq<Directive>) {
    forall i :: 0 <= i < |ds| ==> WellFormed(ds[i])
  }

  /** The characters of a directive behind its percent sign, without the letter. */
  function Modifiers(d: Directive): string
    requires d.Conversion?
  {
    Flags(d) + (Rep('0', d.zeros) + (d.digits + Length(d)))
  }

  function Flags(d: Directive): string
    requires d.Conversion?
  {
    (if d.left then "-" else "") + (if d.plus then "+" else "")
  }

  function Length(d: Directive): string
    requires d.Conversion?
  {
    if d.long.Some? then [d.long.value] else ""
  }

  function RenderOne(d: Directive): string {
    match d
    case Literal(c) => [c]
    case Percent => "%%"
    case Conversion(_, _, _, _, _, conv) => "%" + (Modifiers(d) + [conv])
  }

  function Render(ds: seq<Directive>): string {
    if ds == [] then "" else RenderOne(ds[0]) + Render(ds[1..])
  }

  predicate TakesArg(d: Directive) {
    d.Conversion? && IsKnown(d.conv)
  }

  predicate Fits(d: Directive, a: Arg)
    requires TakesArg(d)
  {
    if d.conv == 's' then a.Str? && (a.s.Some? ==> '\0' !in a.s.value)
    else if d.conv == 'c' then a.Chr?
    else if d.long.Some? then a.Long? && -TWO63 <= a.l < TWO63 && !(d.conv == 'd' && a.l == -TWO63)
    else a.Int? && if d.conv == 'u' then 0 <= a.i < TWO32 else -TWO31 <= a.i < TWO31
  }

  /** Exactly the arguments that the directives ask for, in order. */
  predicate Matches(ds: seq<Directive>, args: seq<Arg>) {
    if ds == [] then args == []
    else if TakesArg(ds[0]) then args != [] && Fits(ds[0], args[0]) && Matches(ds[1..], args[1..])
    else Matches(ds[1..], args)
  }

  function DigitOf(c: char): nat
    requires IsDigit(c)
  {
    c as int - '0' as int
  }

  /** The number in front of the first point. */
  function WidthOf(digits: string): nat
    requires forall i :: 0 <= i < |digits| ==> IsDigit(digits[i]) || digits[i] == '.'
  {
    if digits == "" then 0
    else
      var front := digits[..|digits| - 1];
      assert forall i :: 0 <= i < |front| ==> front[i] == digits[i];
      if '.' in digits then WidthOf(front)
      else
        var c := digits[|digits| - 1];
        assert c in digits && IsDigit(c);
        WidthOf(front) * 10 + DigitOf(c)
  }

  /** Without a point it is the number that the digits read as; a point and what
      follows it do not change it. */
  lemma {:induction false} WidthIsNumber(digits: string)
    requires forall i :: 0 <= i < |digits| ==> IsDigit(digits[i])
    ensures ReadDigits(digits, 10) == Some(WidthOf(digits))
  {
    if digits == "" {
    } else {
      var front := digits[..|digits| - 1];
      assert forall i :: 0 <= i < |front| ==> front[i] == digits[i];
      WidthIsNumber(front);
      assert '.' !in digits;
    }
  }

  lemma {:induction false} WidthStopsAtPoint(digits: string, rest: string)
    requires forall i :: 0 <= i < |digits| ==> IsDigit(digits[i])
    requires forall i :: 0 <= i < |rest| ==> IsDigit(rest[i]) || rest[i] == '.'
    ensures var all := digits + "." + rest; forall i :: 0 <= i < |all| ==> IsDigit(all[i]) || all[i] == '.'
    ensures WidthOf(digits + "." + rest) == WidthOf(digits)
  {
    var all := digits + "." + rest;
    assert all[|digits|] == '.';
    if rest == "" {
      assert all[..|all| - 1] == digits;
    } else {
      WidthStopsAtPoint(digits, rest[..|rest| - 1]);
      assert all[..|all| - 1] == digits + "." + rest[..|rest| - 1];
    }
  }

  function PadOf(d: Directive): Pad
    requires d.Conversion?
  {
    Pad(d.left, d.zeros > 0, d.plus, d.long.Some?)
  }

  function BaseOf(conv: char): int { if conv == 'x' || conv == 'X' then 16 else 10 }

  function LetterOf(conv: char): char { if conv == 'X' then 'A' else 'a' }

  /** What one conversion puts out for its argument. */
  function Field(d: Directive, a: Arg): string
    requires WellFormed(d) && TakesArg(d) && Fits(d, a)
  {
    var width, pad := WidthOf(d.digits), PadOf(d);
    match a
    case Str(s) => Padded(if s.Some? then s.value else "(null)", width, pad)
    case Chr(c) => Padded(if c == '\0' then "" else [c], width, pad)
    case Int(i) => IntText(i, BaseOf(d.conv), d.conv == 'd', width, pad, LetterOf(d.conv))
    case Long(i) => IntText(i, BaseOf(d.conv), d.conv == 'd', width, pad, LetterOf(d.conv))
  }

  /** What a directive without argument puts out. */
  function Plain(d: Directive): string
    requires !TakesArg(d)
  {
    match d
    case Literal(c) => [c]
    case Percent => "%"
    case Conversion(_, _, _, _, _, conv) => ['%', conv]
  }

  function Output(ds: seq<Directive>, args: seq<Arg>): string
    requires AllWellFormed(ds) && Matches(ds, args)
  {
    if ds == [] then ""
    else if TakesArg(ds[0]) then Field(ds[0], args[0]) + Output(ds[1..], args[1..])
    else Plain(ds[0]) + Output(ds[1..], args)
  }

  /** Characters put out for conversions that are not known; vprintf() does not count them. */
  function Uncounted(ds: seq<Directive>): nat {
    if ds == [] then 0
    else (if ds[0].Conversion? && !IsKnown(ds[0].conv) then 2 else 0) + Uncounted(ds[1..])
  }

  /** So the result of vprintf() is the length of its output exactly when every
      conversion is known. */
  lemma {:induction false} CountsAllIff(ds: seq<Directive>)
    ensures Uncounted(ds) == 0 <==> forall i :: 0 <= i < |ds| && ds[i].Conversion? ==> IsKnown(ds[i].conv)
  {
    if ds == [] {
    } else {
      var rest := ds[1..];
      CountsAllIff(rest);
      assert forall i :: 0 < i < |ds| ==> ds[i] == rest[i - 1];
      assert forall i :: 0 <= i < |rest| ==> rest[i] == ds[i + 1];
    }
  }

  lemma {:induction false} RenderConcat(ds1: seq<Directive>, ds2: seq<Directive>)
    ensures Render(ds1 + ds2) == Render(ds1) + Render(ds2)
    ensures Uncounted(ds1 + ds2) == Uncounted(ds1) + Uncounted(ds2)
  {
    if ds1 == [] {
      assert ds1 + ds2 == ds2;
    } else {
      assert (ds1 + ds2)[1..] == ds1[1..] + ds2;
      RenderConcat(ds1[1..], ds2);
    }
  }

  lemma {:induction false} MatchesConcat(ds1: seq<Directive>, args1: seq<Arg>, ds2: seq<Directive>, args2: seq<Arg>)
    requires Matches(ds1, args1) && Matches(ds2, args2)
    ensures Matches(ds1 + ds2, args1 + args2)
  {
    if ds1 == [] {
      assert ds1 + ds2 == ds2 && args1 + args2 == args2;
    } else {
      assert (ds1 + ds2)[1..] == ds1[1..] + ds2;
      if TakesArg(ds1[0]) {
        assert (args1 + args2)[1..] == args1[1..] + args2;
        MatchesConcat(ds1[1..], args1[1..], ds2, args2);
      } else {
        MatchesConcat(ds1[1..], args1, ds2, args2);
      }
    }
  }

  lemma {:induction false} OutputConcat(ds1: seq<Directive>, args1: seq<Arg>, ds2: seq<Directive>, args2: seq<Arg>)
    requires AllWellFormed(ds1) && AllWellFormed(ds2) && Matches(ds1, args1) && Matches(ds2, args2)
    requires AllWellFormed(ds1 + ds2) && Matches(ds1 + ds2, args1 + args2)
    ensures Output(ds1 + ds2, args1 + args2) == Output(ds1, args1) + Output(ds2, args2)
  {
    if ds1 == [] {
      assert ds1 + ds2 == ds2 && args1 + args2 == args2;
    } else {
      assert (ds1 + ds2)[1..] == ds1[1..] + ds2;
      assert (ds1 + ds2)[0] == ds1[0];
      if TakesArg(ds1[0]) {
        assert (args1 + args2)[1..] == args1[1..] + args2;
        assert (args1 + args2)[0] == args1[0];
        OutputConcat(ds1[1..], args1[1..], ds2, args2);
      } else {
        OutputConcat(ds1[1..], args1, ds2, args2);
      }
    }
  }

  /** Formats and argument lists can be formatted piece by piece. */
  lemma Compositional(ds1: seq<Directive>, args1: seq<Arg>, ds2: seq<Directive>, args2: seq<Arg>)
    requires AllWellFormed(ds1) && AllWellFormed(ds2) && Matches(ds1, args1) && Matches(ds2, args2)
    ensures AllWellFormed(ds1 + ds2) && Matches(ds1 + ds2, args1 + args2)
    ensures Render(ds1 + ds2) == Render(ds1) + Render(ds2)
    ensures Output(ds1 + ds2, args1 + args2) == Output(ds1, args1) + Output(ds2, args2)
    ensures Uncounted(ds1 + ds2) == Uncounted(ds1) + Uncounted(ds2)
  {
    RenderConcat(ds1, ds2);
    MatchesConcat(ds1, args1, ds2, args2);
    assert forall i :: 0 <= i < |ds1 + ds2| ==>
      (ds1 + ds2)[i] == if i < |ds1| then ds1[i] else ds2[i - |ds1|];
    OutputConcat(ds1, args1, ds2, args2);
  }

  /** Such conversions exist: `%q` puts out two characters and counts none. */
  lemma UnknownIsNotCounted()
    ensures var ds := [Conversion(false, false, 0, "", None, 'q')];
            && AllWellFormed(ds) && Render(ds) == "%q" && Matches(ds, [])
            && Output(ds, []) == "%q" && Uncounted(ds) == 2
  {
    var ds := [Conversion(false, false, 0, "", None, 'q')];
    assert ds[1..] == [];
  }
}
