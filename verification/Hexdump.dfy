/** The hexadecimal dump, and a decoder that reads the dumped bytes back. */
module Hexdump {
  import opened Prelude
  import opened IntegerText
  import opened Directives
  import PS = PrintfToStream

  const MAX_DUMP: nat := 0xFFFF_FFF0

  /* ---- the text of a dump ---- */

  const ADDRESS: Directive := Conversion(false, false, 1, "8", Some('l'), 'x')
  const OCTET: Directive := Conversion(false, false, 1, "2", None, 'x')
  const CHARACTER: Directive := Conversion(false, false, 0, "", None, 'c')

  function Shown(b: Byte): (c: char)
    ensures c != '\0' && c != '\n'
  {
    if 0x20 <= b <= 0x7e then b as char else '.'
  }

  function AddressText(addr: int): string {
    IntText(Signed64(addr), 16, false, 8, Pad(false, true, false, true), 'a')
  }

  function ByteText(b: Byte): string {
    IntText(b, 16, false, 2, Pad(false, true, false, false), 'a')
  }

  function Cell(bytes: seq<Byte>, k: nat): string {
    if k < |bytes| then ByteText(bytes[k]) + " " else "   "
  }

  /** The hex columns for the offsets from `k` up to `end`. */
  function Cells(bytes: seq<Byte>, k: nat, end: nat): string
    requires k <= end
    decreases end - k
  {
    if k == end then "" else Cell(bytes, k) + Cells(bytes, k + 1, end)
  }

  function Character(bytes: seq<Byte>, k: nat): string {
    if k < |bytes| then [Shown(bytes[k])] else ""
  }

  function Characters(bytes: seq<Byte>, k: nat, end: nat): string
    requires k <= end
    decreases end - k
  {
    if k == end then ""
    else Character(bytes, k) + Characters(bytes, k + 1, end)
  }

  function RowLine(bytes: seq<Byte>, i: nat, addr: int): string {
    (AddressText(addr) + ": ") + (Cells(bytes, i, i + 16) + (" " + Characters(bytes, i, i + 16)))
  }

  /** The lines of the rows from offset `i` on. */
  function DumpLines(bytes: seq<Byte>, baseAddr: int, i: nat): seq<string>
    decreases |bytes| - i
  {
    if i >= |bytes| then [] else [RowLine(bytes, i, baseAddr + i)] + DumpLines(bytes, baseAddr, i + 16)
  }

  function Joined(lines: seq<string>): string {
    if lines == [] then "" else (lines[0] + "\n") + Joined(lines[1..])
  }

  function DumpText(bytes: seq<Byte>, baseAddr: int): string {
    Joined(DumpLines(bytes, baseAddr, 0))
  }

  /* ---- the method ---- */

  /** `i += 16` in 32 bits gets past `dumplen`, and the loop ends, only for these lengths. */
  lemma CounterPassesIff(dumplen: nat)
    requires dumplen < TWO32
    ensures (exists turns: nat :: Counter(turns) >= dumplen) <==> dumplen <= MAX_DUMP
  {
    if dumplen <= MAX_DUMP {
      assert Counter(0xFFF_FFFF) == MAX_DUMP;
    } else {
      forall turns: nat
        ensures Counter(turns) < dumplen
      {
        CounterIsMultiple(turns);
      }
    }
  }

  /** `i` after so many turns. */
  function Counter(turns: nat): nat {
    16 * turns % 0x1_0000_0000
  }

  lemma CounterIsMultiple(turns: nat)
    ensures Counter(turns) <= MAX_DUMP
  {
    var q := 16 * turns / 0x1_0000_0000;
    assert Counter(turns) == 16 * (turns - 0x1000_0000 * q);
  }

  lemma AddModulo(a: nat, b: nat)
    ensures (a % 0x1_0000_0000 + b) % 0x1_0000_0000 == (a + b) % 0x1_0000_0000
  {
    assert a == a / 0x1_0000_0000 * TWO32 + a % 0x1_0000_0000;
  }

  ghost predicate Aligned(i: nat) {
    exists turn: nat :: i == 16 * turn
  }

  /** `i += 16`. */
  method NextRow(i: nat, dumplen: nat) returns (next: nat)
    requires Aligned(i) && i < dumplen <= MAX_DUMP
    ensures Aligned(next) && next == i + 16 < TWO32
  {
    ghost var turn: nat :| i == 16 * turn;
    assert i + 16 == 16 * (turn + 1);
    next := (i + 16) % 0x1_0000_0000;
  }

  lemma NoWrap(n: nat)
    requires n < TWO32
    ensures n % 0x1_0000_0000 == n
  {
  }

  method HexdumpToByteStream(fio: PS.PrintfToStream, buf: seq<Byte>, baseAddr: nat, dumplen: nat) returns (count: nat)
    requires dumplen <= |buf| && dumplen <= MAX_DUMP && baseAddr < TWO64
    modifies fio
    ensures fio.out == old(fio.out) + DumpText(buf[..dumplen], baseAddr)
    ensures count == |DumpText(buf[..dumplen], baseAddr)| % 0x1_0000_0000
  {
    hide RowLine;
    count := 0;
    ghost var bytes := buf[..dumplen];
    ghost var todo := DumpLines(bytes, baseAddr, 0);
    ghost var written: nat := 0;
    var i := 0;
    assert Aligned(0) by { assert 0 == 16 * 0; }
    while i < dumplen
      invariant Aligned(i)
      invariant todo == DumpLines(bytes, baseAddr, i)
      invariant fio.out + Joined(todo) == old(fio.out) + DumpText(bytes, baseAddr)
      invariant |fio.out| == |old(fio.out)| + written && count == written % 0x1_0000_0000
      decreases dumplen - i
    {
      ghost var before := fio.out;
      ghost var line := RowLine(bytes, i, baseAddr + i);
      ghost var rest := DumpLines(bytes, baseAddr, i + 16);
      UnfoldLines(bytes, baseAddr, i);
      var n := DumpRow(fio, buf, i, baseAddr, dumplen);
      LineDone(before, line, rest, todo, fio.out, old(fio.out), DumpText(bytes, baseAddr));
      count := CountOn(count, n, written);
      written := written + n;
      i := NextRow(i, dumplen);
      todo := rest;
    }
    assert fio.out + "" == fio.out;
  }

  lemma UnfoldLines(bytes: seq<Byte>, baseAddr: int, i: nat)
    requires i < |bytes|
    ensures DumpLines(bytes, baseAddr, i) == [RowLine(bytes, i, baseAddr + i)] + DumpLines(bytes, baseAddr, i + 16)
  {
  }

  /** `count += n`, when `count` is `written` in 32 bits. */
  method CountOn(count: nat, n: nat, ghost written: nat) returns (sum: nat)
    requires count == written % 0x1_0000_0000
    ensures sum == (written + n) % 0x1_0000_0000
  {
    AddModulo(written, n);
    sum := (count + n) % 0x1_0000_0000;
  }

  lemma LineDone(before: string, line: string, rest: seq<string>, todo: seq<string>, after: string,
                 start: string, all: string)
    requires todo == [line] + rest && after == before + (line + "\n")
    requires before + Joined(todo) == start + all
    ensures after + Joined(rest) == start + all
  {
    assert todo[1..] == rest;
    Regroup(before, line + "\n", Joined(rest));
  }

  /** One turn of the outer loop, lines 21-31. */
  method DumpRow(fio: PS.PrintfToStream, buf: seq<Byte>, i: nat, baseAddr: nat, dumplen: nat) returns (count: nat)
    requires i < dumplen <= |buf| && i + 16 <= TWO32
    modifies fio
    ensures fio.out == old(fio.out) + (RowLine(buf[..dumplen], i, baseAddr + i) + "\n")
    ensures count == |fio.out| - |old(fio.out)|
  {
    hide AddressText, Cells, Characters;
    count := PrintAddress(fio, baseAddr + i);
    var n := DumpCells(fio, buf, i, dumplen);
    count := count + n;
    n := PrintLiteral(fio, ' ');
    count := count + n;
    n := DumpCharacters(fio, buf, i, dumplen);
    count := count + n;
    n := PrintLiteral(fio, '\n');
    count := count + n;
    ghost var bytes := buf[..dumplen];
    RegroupRow(old(fio.out), AddressText(baseAddr + i) + ": ", Cells(bytes, i, i + 16), " ",
               Characters(bytes, i, i + 16), "\n");
  }

  lemma RegroupRow(s: string, a: string, b: string, c: string, d: string, e: string)
    ensures (((s + a) + b) + c) + d + e == s + ((a + (b + (c + d))) + e)
  {
  }

  /** Lines 22-26. */
  method DumpCells(fio: PS.PrintfToStream, buf: seq<Byte>, i: nat, dumplen: nat) returns (count: nat)
    requires i < dumplen <= |buf| && i + 16 <= TWO32
    modifies fio
    ensures fio.out == old(fio.out) + Cells(buf[..dumplen], i, i + 16)
    ensures count == |fio.out| - |old(fio.out)|
  {
    hide Cell, Cells;
    ghost var bytes := buf[..dumplen];
    ghost var todo := Cells(bytes, i, i + 16);
    count := 0;
    var j := 0;
    while j < 16
      invariant j <= 16 && todo == Cells(bytes, i + j, i + 16)
      invariant fio.out + todo == old(fio.out) + Cells(bytes, i, i + 16)
      invariant count == |fio.out| - |old(fio.out)|
    {
      CellsFrom(bytes, i + j, i + 16, fio.out);
      var n := DumpCell(fio, buf, i + j, dumplen);
      count := count + n;
      j := j + 1;
      todo := Cells(bytes, i + j, i + 16);
    }
    CellsFrom(bytes, i + j, i + 16, fio.out);
  }

  lemma CellsFrom(bytes: seq<Byte>, k: nat, end: nat, s: string)
    requires k <= end
    ensures k < end ==> s + Cells(bytes, k, end) == (s + Cell(bytes, k)) + Cells(bytes, k + 1, end)
    ensures k == end ==> s + Cells(bytes, k, end) == s
  {
    if k < end {
      Regroup(s, Cell(bytes, k), Cells(bytes, k + 1, end));
    }
  }

  method DumpCell(fio: PS.PrintfToStream, buf: seq<Byte>, k: nat, dumplen: nat) returns (n: nat)
    requires dumplen <= |buf| && k < TWO32
    modifies fio
    ensures fio.out == old(fio.out) + Cell(buf[..dumplen], k)
    ensures n == |fio.out| - |old(fio.out)|
  {
    NoWrap(k);
    if k % 0x1_0000_0000 < dumplen {
      n := PrintByte(fio, buf[k]);
    } else {
      n := PrintBlank(fio);
    }
  }

  /** Lines 28-30. */
  method DumpCharacters(fio: PS.PrintfToStream, buf: seq<Byte>, i: nat, dumplen: nat) returns (count: nat)
    requires i < dumplen <= |buf| && i + 16 <= TWO32
    modifies fio
    ensures fio.out == old(fio.out) + Characters(buf[..dumplen], i, i + 16)
    ensures count == |fio.out| - |old(fio.out)|
  {
    hide Character, Characters;
    ghost var bytes := buf[..dumplen];
    ghost var todo := Characters(bytes, i, i + 16);
    count := 0;
    var j := 0;
    while j < 16
      invariant j <= 16 && todo == Characters(bytes, i + j, i + 16)
      invariant fio.out + todo == old(fio.out) + Characters(bytes, i, i + 16)
      invariant count == |fio.out| - |old(fio.out)|
    {
      CharactersFrom(bytes, i + j, i + 16, fio.out);
      var n := DumpCharacter(fio, buf, i + j, dumplen);
      count := count + n;
      j := j + 1;
      todo := Characters(bytes, i + j, i + 16);
    }
    CharactersFrom(bytes, i + j, i + 16, fio.out);
  }

  lemma CharactersFrom(bytes: seq<Byte>, k: nat, end: nat, s: string)
    requires k <= end
    ensures k < end ==> s + Characters(bytes, k, end) == (s + Character(bytes, k)) + Characters(bytes, k + 1, end)
    ensures k == end ==> s + Characters(bytes, k, end) == s
  {
    if k < end {
      Regroup(s, Character(bytes, k), Characters(bytes, k + 1, end));
    }
  }

  method DumpCharacter(fio: PS.PrintfToStream, buf: seq<Byte>, k: nat, dumplen: nat) returns (n: nat)
    requires dumplen <= |buf| && k < TWO32
    modifies fio
    ensures fio.out == old(fio.out) + Character(buf[..dumplen], k)
    ensures n == |fio.out| - |old(fio.out)|
  {
    NoWrap(k);
    n := 0;
    if k % 0x1_0000_0000 < dumplen {
      n := PrintCharacter(fio, Shown(buf[k]));
    } else {
      assert fio.out + "" == fio.out;
    }
  }

  /* ---- the formats in use ---- */

  /** `fmt` is the format of the directives `ds`, which put out `out` for `args`. */
  ghost predicate Formats(ds: seq<Directive>, args: seq<Arg>, fmt: string, out: string) {
    && AllWellFormed(ds) && Matches(ds, args)
    && Render(ds) == fmt && Output(ds, args) == out && Uncounted(ds) == 0
  }

  lemma ConsLiteral(c: char, ds: seq<Directive>, fmt: string, out: string)
    requires WellFormed(Literal(c)) && Formats(ds, [], fmt, out)
    ensures Formats([Literal(c)] + ds, [], [c] + fmt, [c] + out)
  {
    var all := [Literal(c)] + ds;
    assert all[0] == Literal(c) && all[1..] == ds;
  }

  lemma ConsConversion(d: Directive, a: Arg, ds: seq<Directive>, fmt: string, out: string)
    requires WellFormed(d) && TakesArg(d) && Fits(d, a) && Formats(ds, [], fmt, out)
    ensures Formats([d] + ds, [a], RenderOne(d) + fmt, Field(d, a) + out)
  {
    var all := [d] + ds;
    assert all[0] == d && all[1..] == ds && [a][1..] == [];
  }

  lemma OneLiteral(c: char)
    requires WellFormed(Literal(c))
    ensures Formats([Literal(c)], [], [c], [c])
  {
    ConsLiteral(c, [], "", "");
    assert [Literal(c)] + [] == [Literal(c)] && [c] + "" == [c];
  }

  method PrintLiteral(fio: PS.PrintfToStream, c: char) returns (n: nat)
    requires WellFormed(Literal(c))
    modifies fio
    ensures fio.out == old(fio.out) + [c] && n == 1
  {
    OneLiteral(c);
    n := fio.Vprintf([c], [], [Literal(c)]);
  }

  /** `"   "`. */
  method PrintBlank(fio: PS.PrintfToStream) returns (n: nat)
    modifies fio
    ensures fio.out == old(fio.out) + "   " && n == 3
  {
    OneLiteral(' ');
    ConsLiteral(' ', [Literal(' ')], " ", " ");
    ConsLiteral(' ', [Literal(' ')] + [Literal(' ')], "  ", "  ");
    n := fio.Vprintf("   ", [], [Literal(' ')] + ([Literal(' ')] + [Literal(' ')]));
  }

  lemma AddressFormat(a: Arg)
    requires Fits(ADDRESS, a)
    ensures Formats([ADDRESS] + ([Literal(':')] + [Literal(' ')]), [a], "%08lx: ", Field(ADDRESS, a) + ": ")
  {
    hide Field;
    OneLiteral(' ');
    ConsLiteral(':', [Literal(' ')], " ", " ");
    ConsConversion(ADDRESS, a, [Literal(':')] + [Literal(' ')], ": ", ": ");
    assert Rep('0', 1) == "0";
    assert RenderOne(ADDRESS) + ": " == "%08lx: ";
  }

  /** `"%08lx: "`. */
  method PrintAddress(fio: PS.PrintfToStream, addr: nat) returns (n: nat)
    modifies fio
    ensures fio.out == old(fio.out) + (AddressText(addr) + ": ") && n == |fio.out| - |old(fio.out)|
  {
    AddressFormat(Long(Signed64(addr)));
    assert WidthOf("8") == 8 by { WidthIsNumber("8"); }
    n := fio.Vprintf("%08lx: ", [Long(Signed64(addr))], [ADDRESS] + ([Literal(':')] + [Literal(' ')]));
  }

  lemma OctetFormat(a: Arg)
    requires Fits(OCTET, a)
    ensures Formats([OCTET] + [Literal(' ')], [a], "%02x ", Field(OCTET, a) + " ")
  {
    hide Field;
    OneLiteral(' ');
    ConsConversion(OCTET, a, [Literal(' ')], " ", " ");
    assert Rep('0', 1) == "0";
    assert RenderOne(OCTET) + " " == "%02x ";
  }

  /** `"%02x "`. */
  method PrintByte(fio: PS.PrintfToStream, b: Byte) returns (n: nat)
    modifies fio
    ensures fio.out == old(fio.out) + (ByteText(b) + " ") && n == |fio.out| - |old(fio.out)|
  {
    OctetFormat(Int(b));
    assert WidthOf("2") == 2 by { WidthIsNumber("2"); }
    n := fio.Vprintf("%02x ", [Int(b)], [OCTET] + [Literal(' ')]);
  }

  /** `"%c"`. */
  method PrintCharacter(fio: PS.PrintfToStream, c: char) returns (n: nat)
    requires c != '\0'
    modifies fio
    ensures fio.out == old(fio.out) + [c] && n == 1
  {
    assert Render([CHARACTER]) == "%c";
    assert WidthOf("") == 0;
    n := fio.Vprintf("%c", [Chr(c)], [CHARACTER]);
  }

  /* ---- the character column ---- */

  /** Printable ASCII shows as itself, all else as a point. */
  predicate Shows(c: char, b: Byte) {
    if 0x20 <= b <= 0x7e then c as int == b else c == '.'
  }

  ghost predicate ShowAll(column: string, bytes: seq<Byte>) {
    |column| == |bytes| && forall j :: 0 <= j < |column| ==> Shows(column[j], bytes[j])
  }

  /** One character for each byte of the row, and none for the missing ones. */
  lemma {:induction false} ColumnIs(bytes: seq<Byte>, k: nat, end: nat)
    requires k <= end
    ensures ShowAll(Characters(bytes, k, end), RowBytes(bytes, k, end))
    decreases end - k
  {
    if k >= end {
    } else {
      ColumnIs(bytes, k + 1, end);
      if k < |bytes| {
        RowBytesCons(bytes, k, end);
        ColumnCons(bytes, k, end);
      } else {
        NoRowBytes(bytes, k, end);
        NoRowBytes(bytes, k + 1, end);
      }
    }
  }

  lemma ColumnCons(bytes: seq<Byte>, k: nat, end: nat)
    requires k < end && k < |bytes|
    ensures Characters(bytes, k, end) == [Shown(bytes[k])] + Characters(bytes, k + 1, end)
  {
  }

  /** In a row it stands behind the separator blank, to the end of the line. */
  lemma RowShows(bytes: seq<Byte>, i: nat, addr: int)
    ensures var line := RowLine(bytes, i, addr);
            var p := Find(line, ':');
            && |line| >= p + 51 && line[p + 50] == ' '
            && ShowAll(line[p + 51..], RowBytes(bytes, i, i + 16))
  {
    hide AddressText, Cells, Characters, RowBytes, Find, ShowAll;
    var a, cells, chars := AddressText(addr), Cells(bytes, i, i + 16), Characters(bytes, i, i + 16);
    AddressReads(addr);
    CellsSize(bytes, i, i + 16);
    ColumnIs(bytes, i, i + 16);
    LineParts(a, cells, chars);
    LineTail(a, cells, chars);
  }

  lemma LineTail(a: string, cells: string, chars: string)
    requires |cells| == 48
    ensures var line := (a + ": ") + (cells + (" " + chars));
            |line| == |a| + 51 + |chars| && line[|a| + 51..] == chars
  {
  }

  /** The cells are in lower case. */
  lemma SampleCell()
    ensures ByteText(0x4a) == "4a" && ByteText(10) == "0a" && AddressText(0x4a) == "0000004a"
  {
    assert Digits(0, 16, 'a') == "" && Digits(4, 16, 'a') == "4" && Rep('0', 0) == "" && Rep('0', 1) == "0";
    assert Rep('0', 6) == "000000" && Signed64(0x4a) == 0x4a;
  }

  /* ---- reading a dump back ---- */

  datatype Row = Row(addr: nat, bytes: seq<Byte>)

  /** Cells of three characters up to a blank one. */
  function ReadCells(s: string): Option<seq<Byte>> {
    if |s| < 3 || s[..3] == "   " then Some([])
    else
      match (ReadDigits(s[..2], 16), ReadCells(s[3..]))
      case (Some(b), Some(rest)) => if b < 256 && s[2] == ' ' then Some([b] + rest) else None
      case _ => None
  }

  /** Address, colon, space, 16 cells, space; the characters behind them are ignored. */
  function ReadRow(line: string): Option<Row> {
    var p := Find(line, ':');
    if |line| < p + 51 || line[p + 1] != ' ' || line[p + 50] != ' ' then None
    else
      match (ReadDigits(line[..p], 16), ReadCells(line[p + 2..p + 50]))
      case (Some(addr), Some(bytes)) => Some(Row(addr, bytes))
      case _ => None
  }

  /** A row on every line. */
  function ReadDump(text: string): Option<seq<Row>> {
    if text == "" then Some([])
    else
      var n := Find(text, '\n');
      if n == |text| then None
      else
        match (ReadRow(text[..n]), ReadDump(text[n + 1..]))
        case (Some(row), Some(rows)) => Some([row] + rows)
        case _ => None
  }

  function AllBytes(rows: seq<Row>): seq<Byte> {
    if rows == [] then [] else rows[0].bytes + AllBytes(rows[1..])
  }

  /** What reads as a number holds digits only. */
  lemma {:induction false} ReadableIsDigits(s: string, c: char)
    requires ReadDigits(s, 16).Some? && c in s
    ensures DigitValue(c) < 16
  {
    var front := s[..|s| - 1];
    assert s == front + [s[|s| - 1]];
    if c in front {
      ReadableIsDigits(front, c);
    }
  }

  /** The digits of a number behind zeros, in hexadecimal. */
  lemma ZeroPaddedReads(u: nat, width: nat, pad: Pad)
    requires pad.zero && !pad.right && !pad.plus
    ensures ReadDigits(NumberText(u, 16, width, pad, 'a'), 16) == Some(u)
    ensures ReadDigits(Padded("0", width, pad), 16) == Some(0)
  {
    var digits := Digits(u, 16, 'a');
    DigitsReadBack(u, 16, 'a');
    assert "" + digits == digits;
    ReadLeadingZeros(FillCount(|digits|, width), digits, 16);
    ReadLeadingZeros(FillCount(1, width), "0", 16);
    ReadZeros(1, 16);
    assert Rep('0', 1) == "0";
  }

  lemma AddressReads(addr: int)
    ensures ReadDigits(AddressText(addr), 16) == Some(addr % 0x1_0000_0000_0000_0000)
    ensures ':' !in AddressText(addr) && '\n' !in AddressText(addr)
  {
    var pad := Pad(false, true, false, true);
    assert Signed64(addr) % 0x1_0000_0000_0000_0000 == addr % 0x1_0000_0000_0000_0000;
    ZeroPaddedReads(addr % 0x1_0000_0000_0000_0000, 8, pad);
    if ':' in AddressText(addr) {
      ReadableIsDigits(AddressText(addr), ':');
    }
    if '\n' in AddressText(addr) {
      ReadableIsDigits(AddressText(addr), '\n');
    }
  }

  lemma TwoHexDigits(b: Byte)
    ensures |Digits(b, 16, 'a')| <= 2
  {
    assert b / 16 < 16 && b / 16 / 16 == 0;
    assert Digits(b / 16 / 16, 16, 'a') == "";
    assert |Digits(b / 16, 16, 'a')| <= 1;
  }

  lemma ByteTextReads(b: Byte)
    ensures |ByteText(b)| == 2 && ReadDigits(ByteText(b), 16) == Some(b)
  {
    TwoHexDigits(b);
    ZeroPaddedReads(b, 2, Pad(false, true, false, false));
    NoWrap(b);
    assert "" + Digits(b, 16, 'a') == Digits(b, 16, 'a');
  }

  lemma ByteReads(b: Byte)
    ensures |ByteText(b)| == 2 && ReadDigits(ByteText(b), 16) == Some(b)
    ensures ByteText(b)[0] != ' ' && '\n' !in ByteText(b)
  {
    hide ByteText;
    ByteTextReads(b);
    var text := ByteText(b);
    assert text[0] in text;
    ReadableIsDigits(text, text[0]);
    if '\n' in text {
      ReadableIsDigits(text, '\n');
    }
  }

  function Least(a: nat, b: nat): nat { if a < b then a else b }

  /** The bytes at the offsets from `k` up to `end`. */
  function RowBytes(bytes: seq<Byte>, k: nat, end: nat): seq<Byte>
    requires k <= end
  {
    bytes[Least(k, |bytes|)..Least(end, |bytes|)]
  }

  lemma CellReads(cell: string, b: Byte, rest: string, more: seq<Byte>)
    requires |cell| == 2 && cell[0] != ' ' && ReadDigits(cell, 16) == Some(b) && ReadCells(rest) == Some(more)
    ensures ReadCells((cell + " ") + rest) == Some([b] + more)
  {
    var s := (cell + " ") + rest;
    assert s[..2] == cell && s[2] == ' ' && s[3..] == rest && s[0] == cell[0];
    assert s[..3][0] != ' ';
  }

  lemma RowBytesCons(bytes: seq<Byte>, k: nat, end: nat)
    requires k < end && k < |bytes|
    ensures RowBytes(bytes, k, end) == [bytes[k]] + RowBytes(bytes, k + 1, end)
  {
  }

  lemma NoRowBytes(bytes: seq<Byte>, k: nat, end: nat)
    requires k <= end && (k == end || k >= |bytes|)
    ensures RowBytes(bytes, k, end) == []
  {
  }

  lemma BlankReads(bytes: seq<Byte>, k: nat, end: nat)
    requires k <= end && (k == end || k >= |bytes|)
    ensures ReadCells(Cells(bytes, k, end)) == Some([])
  {
    if k < end {
      assert Cells(bytes, k, end)[..3] == "   ";
    }
  }

  lemma {:induction false} CellsSize(bytes: seq<Byte>, k: nat, end: nat)
    requires k <= end
    ensures |Cells(bytes, k, end)| == 3 * (end - k) && '\n' !in Cells(bytes, k, end)
    decreases end - k
  {
    hide ByteText;
    if k >= end {
    } else {
      CellsSize(bytes, k + 1, end);
      if k < |bytes| {
        ByteReads(bytes[k]);
      }
    }
  }

  lemma {:induction false} CellsRead(bytes: seq<Byte>, k: nat, end: nat)
    requires k <= end
    ensures ReadCells(Cells(bytes, k, end)) == Some(RowBytes(bytes, k, end))
    decreases end - k
  {
    hide ByteText, ReadCells, RowBytes;
    if k == end || k >= |bytes| {
      NoRowBytes(bytes, k, end);
      BlankReads(bytes, k, end);
    } else {
      CellsRead(bytes, k + 1, end);
      ByteReads(bytes[k]);
      CellReads(ByteText(bytes[k]), bytes[k], Cells(bytes, k + 1, end), RowBytes(bytes, k + 1, end));
      RowBytesCons(bytes, k, end);
    }
  }

  lemma {:induction false} CharactersShow(bytes: seq<Byte>, k: nat, end: nat)
    requires k <= end
    ensures '\n' !in Characters(bytes, k, end)
    decreases end - k
  {
    if k >= end {
    } else {
      CharactersShow(bytes, k + 1, end);
    }
  }

  lemma Middle(x: string, m: string, y: string)
    ensures (x + (m + y))[|x|..|x| + |m|] == m
  {
  }

  lemma LineParts(a: string, cells: string, chars: string)
    requires ':' !in a && |cells| == 48
    ensures var line, p := (a + ": ") + (cells + (" " + chars)), |a|;
            && Find(line, ':') == p && |line| >= p + 51 && line[..p] == a
            && line[p + 1] == ' ' && line[p + 50] == ' ' && line[p + 2..p + 50] == cells
  {
    var line := (a + ": ") + (cells + (" " + chars));
    FindAt(a, ':', " " + (cells + (" " + chars)));
    Middle(a + ": ", cells, " " + chars);
    hide Find;
    assert line == a + ([':'] + (" " + (cells + (" " + chars))));
  }

  lemma LineReads(a: string, addr: nat, cells: string, bytes: seq<Byte>, chars: string)
    requires ReadDigits(a, 16) == Some(addr) && ':' !in a
    requires |cells| == 48 && ReadCells(cells) == Some(bytes)
    ensures ReadRow((a + ": ") + (cells + (" " + chars))) == Some(Row(addr, bytes))
  {
    LineParts(a, cells, chars);
    hide ReadDigits, ReadCells, Find;
  }

  lemma RowReads(bytes: seq<Byte>, i: nat, addr: int)
    ensures ReadRow(RowLine(bytes, i, addr)) == Some(Row(addr % 0x1_0000_0000_0000_0000, RowBytes(bytes, i, i + 16)))
    ensures '\n' !in RowLine(bytes, i, addr)
  {
    hide ReadRow, AddressText;
    AddressReads(addr);
    CellsSize(bytes, i, i + 16);
    CellsRead(bytes, i, i + 16);
    CharactersShow(bytes, i, i + 16);
    LineReads(AddressText(addr), addr % 0x1_0000_0000_0000_0000, Cells(bytes, i, i + 16),
              RowBytes(bytes, i, i + 16), Characters(bytes, i, i + 16));
  }

  lemma ReadDumpCons(line: string, text: string, row: Row, rows: seq<Row>)
    requires '\n' !in line && ReadRow(line) == Some(row) && ReadDump(text) == Some(rows)
    ensures ReadDump((line + "\n") + text) == Some([row] + rows)
  {
    var all := (line + "\n") + text;
    assert all == line + (['\n'] + text);
    FindAt(line, '\n', text);
    assert all[..|line|] == line && all[|line| + 1..] == text;
  }

  lemma LinesReadCons(line: string, row: Row, lines: seq<string>, rows: seq<Row>)
    requires '\n' !in line && ReadRow(line) == Some(row) && ReadDump(Joined(lines)) == Some(rows)
    ensures ReadDump(Joined([line] + lines)) == Some([row] + rows)
  {
    assert ([line] + lines)[1..] == lines;
    ReadDumpCons(line, Joined(lines), row, rows);
  }

  /** The rows of a dump from offset `i` on. */
  function DumpRows(bytes: seq<Byte>, baseAddr: int, i: nat): seq<Row>
    decreases |bytes| - i
  {
    if i >= |bytes| then []
    else [Row((baseAddr + i) % 0x1_0000_0000_0000_0000, RowBytes(bytes, i, i + 16))] + DumpRows(bytes, baseAddr, i + 16)
  }

  lemma {:induction false} DumpReads(bytes: seq<Byte>, baseAddr: int, i: nat)
    ensures ReadDump(Joined(DumpLines(bytes, baseAddr, i))) == Some(DumpRows(bytes, baseAddr, i))
    decreases |bytes| - i
  {
    hide RowLine, RowBytes, ReadRow;
    if i >= |bytes| {
    } else {
      var lines, rows := DumpLines(bytes, baseAddr, i + 16), DumpRows(bytes, baseAddr, i + 16);
      DumpReads(bytes, baseAddr, i + 16);
      RowReads(bytes, i, baseAddr + i);
      LinesReadCons(RowLine(bytes, i, baseAddr + i),
                    Row((baseAddr + i) % 0x1_0000_0000_0000_0000, RowBytes(bytes, i, i + 16)), lines, rows);
    }
  }

  lemma RowThenRest(bytes: seq<Byte>, i: nat)
    requires i < |bytes|
    ensures RowBytes(bytes, i, i + 16) + bytes[Least(i + 16, |bytes|)..] == bytes[i..]
  {
  }

  lemma {:induction false} RowsHoldBytes(bytes: seq<Byte>, baseAddr: int, i: nat)
    ensures i <= |bytes| ==> AllBytes(DumpRows(bytes, baseAddr, i)) == bytes[i..]
    ensures i >= |bytes| ==> DumpRows(bytes, baseAddr, i) == []
    decreases |bytes| - i
  {
    if i >= |bytes| {
    } else {
      RowsHoldBytes(bytes, baseAddr, i + 16);
      assert DumpRows(bytes, baseAddr, i)[1..] == DumpRows(bytes, baseAddr, i + 16);
      RowThenRest(bytes, i);
    }
  }

  /** Row `k` starts at offset `i + 16 * k`, and all rows but the last hold 16 bytes. */
  lemma {:induction false} RowAt(bytes: seq<Byte>, baseAddr: int, i: nat, k: nat)
    requires k < |DumpRows(bytes, baseAddr, i)|
    ensures DumpRows(bytes, baseAddr, i)[k].addr == (baseAddr + i + 16 * k) % 0x1_0000_0000_0000_0000
    ensures k < |DumpRows(bytes, baseAddr, i)| - 1 ==> |DumpRows(bytes, baseAddr, i)[k].bytes| == 16
    decreases k
  {
    if k == 0 {
    } else {
      RowAt(bytes, baseAddr, i + 16, k - 1);
      assert baseAddr + (i + 16) + 16 * (k - 1) == baseAddr + i + 16 * k;
    }
  }

  lemma RowsLaidOut(bytes: seq<Byte>, baseAddr: int)
    ensures var rows := DumpRows(bytes, baseAddr, 0);
            forall k :: 0 <= k < |rows| ==>
              && rows[k].addr == (baseAddr + 16 * k) % 0x1_0000_0000_0000_0000
              && (k < |rows| - 1 ==> |rows[k].bytes| == 16)
  {
    var rows := DumpRows(bytes, baseAddr, 0);
    forall k | 0 <= k < |rows|
      ensures rows[k].addr == (baseAddr + 16 * k) % 0x1_0000_0000_0000_0000
      ensures k < |rows| - 1 ==> |rows[k].bytes| == 16
    {
      RowAt(bytes, baseAddr, 0, k);
    }
  }

  /** Decoding what was dumped gives the buffer back, and the addresses of its rows. */
  lemma DumpRoundTrip(bytes: seq<Byte>, baseAddr: nat)
    ensures var rows := ReadDump(DumpText(bytes, baseAddr));
            && rows.Some? && AllBytes(rows.value) == bytes
            && forall k :: 0 <= k < |rows.value| ==>
                 && rows.value[k].addr == (baseAddr + 16 * k) % 0x1_0000_0000_0000_0000
                 && (k < |rows.value| - 1 ==> |rows.value[k].bytes| == 16)
  {
    DumpReads(bytes, baseAddr, 0);
    RowsHoldBytes(bytes, baseAddr, 0);
    RowsLaidOut(bytes, baseAddr);
  }
}
