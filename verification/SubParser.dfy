/** Options inside the value of an option: fields with a separator between them. */
module SubParser {
  import opened Prelude
  import opened ArgOptions

  datatype Field = Field(name: string, value: Option<string>)

  /* ---- what the scanner reads ---- */

  /** The first position from `k` on that ends a field: the last one of the string, or one
      in front of a separator. */
  function FieldEnd(str: string, k: nat, sep: char): (m: nat)
    requires k < |str|
    ensures k <= m < |str| && (m + 1 == |str| || str[m + 1] == sep)
    ensures forall i :: k < i <= m ==> str[i] != sep
    decreases |str| - k
  {
    if k + 1 == |str| || str[k + 1] == sep then k else FieldEnd(str, k + 1, sep)
  }

  /** The position of the last equals sign, or the length of the text. */
  function LastEquals(text: string): (n: nat)
    ensures n <= |text|
    ensures n < |text| ==> text[n] == '='
    ensures forall i :: n < i < |text| ==> text[i] != '='
    ensures n == |text| ==> '=' !in text
  {
    if text == "" then 0
    else if text[|text| - 1] == '=' then |text| - 1
    else
      var n := LastEquals(text[..|text| - 1]);
      if n == |text| - 1 then |text| else n
  }

  function FieldOf(text: string): Field {
    var n := LastEquals(text);
    if n < |text| then Field(text[..n], Some(text[n + 1..])) else Field(text, None)
  }

  /** The fields from position `s` on. */
  function ScanFrom(str: string, s: nat, sep: char): seq<Field>
    decreases |str| - s
  {
    if s >= |str| then []
    else
      var m := FieldEnd(str, s, sep);
      [FieldOf(str[s..m + 1])] + ScanFrom(str, m + 2, sep)
  }

  function FieldCommand(opts: seq<OptionSpec>, f: Field): Command {
    match First(opts, ByName(f.name), 0)
    case None => Unknown(f.name)
    case Some(j) => Process(opts[j], f.value)
  }

  function FieldCommands(opts: seq<OptionSpec>, fields: seq<Field>): seq<Command> {
    if fields == [] then [] else [FieldCommand(opts, fields[0])] + FieldCommands(opts, fields[1..])
  }

  /* ---- writing fields ---- */

  function Text(f: Field): string {
    if f.value.Some? then f.name + ("=" + f.value.value) else f.name
  }

  function Joined(fields: seq<Field>, sep: char): string {
    if fields == [] then ""
    else if |fields| == 1 then Text(fields[0])
    else Text(fields[0]) + ([sep] + Joined(fields[1..], sep))
  }

  /** The scanner does not look at the first character of a field for a separator, and
      cuts a field at its last equals sign. */
  predicate WellFormed(f: Field, sep: char) {
    && Text(f) != ""
    && (forall i :: 1 <= i < |Text(f)| ==> Text(f)[i] != sep)
    && (if f.value.Some? then '=' !in f.value.value else '=' !in f.name)
  }

  lemma LastEqualsIs(text: string, n: nat)
    requires n < |text| && text[n] == '=' && forall i :: n < i < |text| ==> text[i] != '='
    ensures LastEquals(text) == n
  {
    assert '=' in text;
  }

  lemma LastEqualsNone(text: string)
    requires '=' !in text
    ensures LastEquals(text) == |text|
  {
  }

  /** A field reads as itself exactly when no equals sign is in the wrong place. */
  lemma FieldReadsIff(f: Field)
    ensures FieldOf(Text(f)) == f <==> if f.value.Some? then '=' !in f.value.value else '=' !in f.name
  {
    var t := Text(f);
    if f.value.Some? {
      var n := |f.name|;
      assert t[n] == '=' && t[..n] == f.name && t[n + 1..] == f.value.value;
      if '=' in f.value.value {
        var i :| 0 <= i < |f.value.value| && f.value.value[i] == '=';
        assert t[n + 1 + i] == '=';
      } else {
        assert forall i :: n < i < |t| ==> t[i] == f.value.value[i - n - 1];
        LastEqualsIs(t, n);
      }
    } else if '=' !in f.name {
      LastEqualsNone(t);
    }
  }

  /** What is read is written as the text that was read. */
  lemma TextOfField(text: string)
    ensures Text(FieldOf(text)) == text
  {
  }

  lemma ReadFieldsAreWellFormed(text: string, sep: char)
    requires text != "" && forall i :: 1 <= i < |text| ==> text[i] != sep
    ensures WellFormed(FieldOf(text), sep)
  {
    TextOfField(text);
    FieldReadsIff(FieldOf(text));
  }

  lemma FieldAtIsWellFormed(str: string, s: nat, sep: char)
    requires s < |str|
    ensures WellFormed(FieldOf(str[s..FieldEnd(str, s, sep) + 1]), sep)
  {
    var text := str[s..FieldEnd(str, s, sep) + 1];
    assert forall i :: 0 <= i < |text| ==> text[i] == str[s + i];
    ReadFieldsAreWellFormed(text, sep);
  }

  lemma {:induction false} ScannedAreWellFormed(str: string, s: nat, sep: char)
    ensures forall k :: 0 <= k < |ScanFrom(str, s, sep)| ==> WellFormed(ScanFrom(str, s, sep)[k], sep)
    decreases |str| - s
  {
    hide FieldOf, FieldEnd, WellFormed;
    if s >= |str| {
    } else {
      FieldAtIsWellFormed(str, s, sep);
      ScannedAreWellFormed(str, FieldEnd(str, s, sep) + 2, sep);
    }
  }

  /** Where a field ends, if its text is known. */
  lemma {:induction false} FieldEndIs(str: string, k: nat, m: nat, sep: char)
    requires k <= m < |str| && (m + 1 == |str| || str[m + 1] == sep)
    requires forall i :: k < i <= m ==> str[i] != sep
    ensures FieldEnd(str, k, sep) == m
    decreases m - k
  {
    if k >= m {
    } else {
      FieldEndIs(str, k + 1, m, sep);
    }
  }

  lemma SliceShift(pre: string, str: string, a: nat, b: nat)
    requires a <= b <= |str|
    ensures (pre + str)[|pre| + a..|pre| + b] == str[a..b]
  {
  }

  lemma EndShift(pre: string, str: string, s: nat, sep: char)
    requires s < |str|
    ensures FieldEnd(pre + str, |pre| + s, sep) == |pre| + FieldEnd(str, s, sep)
  {
    var m, all := FieldEnd(str, s, sep), pre + str;
    forall i | |pre| + s < i <= |pre| + m
      ensures all[i] != sep
    {
      assert all[i] == str[i - |pre|];
    }
    FieldEndIs(all, |pre| + s, |pre| + m, sep);
  }

  lemma ScanUnfold(str: string, s: nat, sep: char)
    requires s < |str|
    ensures var m := FieldEnd(str, s, sep);
            ScanFrom(str, s, sep) == [FieldOf(str[s..m + 1])] + ScanFrom(str, m + 2, sep)
  {
  }

  /** Scanning starts afresh behind a separator. */
  lemma {:induction false} ScanShift(pre: string, str: string, s: nat, sep: char)
    ensures ScanFrom(pre + str, |pre| + s, sep) == ScanFrom(str, s, sep)
    decreases |str| - s
  {
    hide FieldOf, FieldEnd;
    if s >= |str| {
    } else {
      hide ScanFrom;
      var m := FieldEnd(str, s, sep);
      EndShift(pre, str, s, sep);
      SliceShift(pre, str, s, m + 1);
      ScanShift(pre, str, m + 2, sep);
      ScanUnfold(str, s, sep);
      ScanUnfold(pre + str, |pre| + s, sep);
    }
  }

  lemma FirstEnd(text: string, more: string, sep: char)
    requires text != "" && (more == "" || more[0] == sep)
    requires forall i :: 1 <= i < |text| ==> text[i] != sep
    ensures FieldEnd(text + more, 0, sep) == |text| - 1 && (text + more)[..|text|] == text
  {
    var str := text + more;
    assert forall i :: 0 <= i < |text| ==> str[i] == text[i];
    FieldEndIs(str, 0, |text| - 1, sep);
  }

  lemma WellFormedReads(f: Field, sep: char)
    requires WellFormed(f, sep)
    ensures FieldOf(Text(f)) == f && Text(f) != ""
    ensures forall i :: 1 <= i < |Text(f)| ==> Text(f)[i] != sep
  {
    FieldReadsIff(f);
  }

  lemma ScanLast(f: Field, sep: char)
    requires WellFormed(f, sep)
    ensures ScanFrom(Text(f), 0, sep) == [f]
  {
    hide FieldOf, FieldEnd, Text, WellFormed;
    WellFormedReads(f, sep);
    FirstEnd(Text(f), "", sep);
    assert Text(f) + "" == Text(f);
  }

  lemma ScanFirst(f: Field, rest: string, sep: char)
    requires WellFormed(f, sep)
    ensures ScanFrom(Text(f) + ([sep] + rest), 0, sep) == [f] + ScanFrom(rest, 0, sep)
  {
    hide FieldOf, FieldEnd, Text, WellFormed, ScanFrom;
    var text := Text(f);
    WellFormedReads(f, sep);
    FirstEnd(text, [sep] + rest, sep);
    ScanUnfold(text + ([sep] + rest), 0, sep);
    ScanShift(text + [sep], rest, 0, sep);
    Regroup(text, [sep], rest);
  }

  lemma {:induction false} JoinedScans(fields: seq<Field>, sep: char)
    requires forall k :: 0 <= k < |fields| ==> WellFormed(fields[k], sep)
    ensures ScanFrom(Joined(fields, sep), 0, sep) == fields
  {
    if fields == [] {
    } else {
      JoinedScans(fields[1..], sep);
      if |fields| == 1 {
        ScanLast(fields[0], sep);
      } else {
        ScanFirst(fields[0], Joined(fields[1..], sep), sep);
      }
      assert fields == [fields[0]] + fields[1..];
    }
  }

  /** Fields put together with separators are read back exactly when every one of them is
      well formed. */
  lemma JoinRoundTripIff(fields: seq<Field>, sep: char)
    ensures ScanFrom(Joined(fields, sep), 0, sep) == fields
       <==> forall k :: 0 <= k < |fields| ==> WellFormed(fields[k], sep)
  {
    ScannedAreWellFormed(Joined(fields, sep), 0, sep);
    if forall k :: 0 <= k < |fields| ==> WellFormed(fields[k], sep) {
      JoinedScans(fields, sep);
    }
  }

  lemma SplitBehind(str: string, s: nat, m: nat, sep: char)
    requires s <= m < |str| && (m + 1 == |str| || str[m + 1] == sep)
    ensures m + 1 == |str| ==> str[s..] == str[s..m + 1]
    ensures m + 1 < |str| ==> str[s..] == str[s..m + 1] + ([sep] + str[m + 2..])
  {
  }

  lemma JoinedCons(f: Field, fields: seq<Field>, sep: char)
    ensures Joined([f] + fields, sep) == if fields == [] then Text(f) else Text(f) + ([sep] + Joined(fields, sep))
  {
    assert ([f] + fields)[1..] == fields;
  }

  lemma LostAtEnd(text: string, tail: string, back: string, sep: char)
    requires tail == back || tail == back + [sep]
    ensures var whole, again := text + ([sep] + tail), text + ([sep] + back);
            whole == again || whole == again + [sep]
  {
    if tail == back + [sep] {
      assert text + ([sep] + (back + [sep])) == (text + ([sep] + back)) + [sep];
    }
  }

  lemma NothingScanned(str: string, s: nat, sep: char)
    requires s >= |str|
    ensures ScanFrom(str, s, sep) == []
  {
  }

  /** In the other direction a string is lost only in a separator at its end. */
  lemma {:induction false} ScanRoundTrip(str: string, s: nat, sep: char)
    requires s < |str|
    ensures var back := Joined(ScanFrom(str, s, sep), sep);
            str[s..] == back || str[s..] == back + [sep]
    decreases |str| - s
  {
    hide FieldOf, FieldEnd, Joined, Text, ScanFrom;
    var m := FieldEnd(str, s, sep);
    var f, rest := FieldOf(str[s..m + 1]), ScanFrom(str, m + 2, sep);
    ScanUnfold(str, s, sep);
    TextOfField(str[s..m + 1]);
    SplitBehind(str, s, m, sep);
    JoinedCons(f, rest, sep);
    if m + 2 < |str| {
      ScanRoundTrip(str, m + 2, sep);
      ScanUnfold(str, m + 2, sep);
      LostAtEnd(Text(f), str[m + 2..], Joined(rest, sep), sep);
    } else {
      NothingScanned(str, m + 2, sep);
      assert str[s..] == Text(f) || str[s..] == Text(f) + [sep];
    }
  }

  /* ---- the parser ---- */

  /** `n` is the last equals sign at positions `s` to `k - 1`, or none if there is none. */
  ghost predicate LastSeen(str: string, s: nat, n: Option<nat>, k: nat) {
    && s <= k <= |str|
    && (n.Some? ==> s <= n.value < k && str[n.value] == '=')
    && forall i :: (if n.Some? then n.value + 1 else s) <= i < k ==> str[i] != '='
  }

  class SubParser {
    const optList: seq<OptionSpec>
    const targets: Targets
    var sep: char

    constructor (opts: seq<OptionSpec>, t: Targets)
      ensures optList == opts && targets == t && sep == ','
    {
      optList, targets, sep := opts, t, ',';
    }

    method SetSep(s: char)
      modifies this
      ensures sep == s
    {
      sep := s;
    }

    /** Setting the value processes its fields in order. */
    method Set(str: string, p: Program) returns (error: Option<Error>)
      modifies targets
      ensures Ending(State(targets.View(), []), error)
           == Run(FieldCommands(optList, ScanFrom(str, 0, sep)), State(old(targets.View()), []), p)
    {
      hide *;
      ghost var todo := ScanFrom(str, 0, sep);
      ghost var whole := Run(FieldCommands(optList, todo), State(targets.View(), []), p);
      var s := 0;
      var n: Option<nat> := None;    // string::npos
      var k := 0;
      NothingSeen(str, 0);
      while k < |str|
        invariant if k < |str| then s <= k && FieldEnd(str, s, sep) == FieldEnd(str, k, sep) else s >= |str|
        invariant todo == ScanFrom(str, s, sep)
        invariant k < |str| ==> LastSeen(str, s, n, k)
        invariant Run(FieldCommands(optList, todo), State(targets.View(), []), p) == whole
      {
        SeenNext(str, s, n, k);
        ScanUnfold(str, s, sep);
        EndUnfold(str, k, sep);
        if str[k] == '=' {
          n := Some(k);
        }
        if k + 1 == |str| || str[k + 1] == sep {
          error := ProcessField(str, s, n, k, p, ScanFrom(str, k + 2, sep));
          if error.Some? {
            return;
          }
          todo := ScanFrom(str, k + 2, sep);
          k := k + 1;
          s := k + 1;
          n := None;
          NothingSeen(str, s);
        }
        k := k + 1;
      }
      RunNothing(optList, str, s, sep, State(targets.View(), []), p);
      error := None;
    }

    /** Lines 427-438: the field from `s` up to `k`, with its last equals sign at `n`. */
    method ProcessField(str: string, s: nat, n: Option<nat>, k: nat, p: Program, ghost rest: seq<Field>)
      returns (error: Option<Error>)
      requires s <= k < |str| && LastSeen(str, s, n, k + 1)
      modifies targets
      ensures var fields := [FieldOf(str[s..k + 1])] + rest;
              var whole := Run(FieldCommands(optList, fields), State(old(targets.View()), []), p);
              if error.Some? then Ending(State(targets.View(), []), error) == whole
              else Run(FieldCommands(optList, rest), State(targets.View(), []), p) == whole
    {
      hide Run;
      var end := if n.None? then k + 1 else n.value;
      var name := str[s..end];
      ghost var field := Field(name, if end < k + 1 then Some(str[end + 1..k + 1]) else None);
      FieldIs(str, s, n, k);
      RunField(optList, field, rest, State(targets.View(), []), p);
      var j := FindOption(optList, ByName(name));
      if j.None? {
        return Some(UnknownOption(name));
      }
      if end < k + 1 {
        var value := str[end + 1..k + 1];
        error := targets.Process(optList[j.value], Some(value), p);
      } else {
        error := targets.Process(optList[j.value], None, p);
      }
    }
  }

  lemma SeenNext(str: string, s: nat, n: Option<nat>, k: nat)
    requires k < |str| && LastSeen(str, s, n, k)
    ensures s <= k && LastSeen(str, s, if str[k] == '=' then Some(k) else n, k + 1)
  {
  }

  lemma NothingSeen(str: string, s: nat)
    ensures s <= |str| ==> LastSeen(str, s, None, s)
  {
  }

  lemma EndUnfold(str: string, k: nat, sep: char)
    requires k < |str|
    ensures FieldEnd(str, k, sep) == if k + 1 == |str| || str[k + 1] == sep then k else FieldEnd(str, k + 1, sep)
  {
  }

  lemma FieldIs(str: string, s: nat, n: Option<nat>, k: nat)
    requires s <= k < |str| && LastSeen(str, s, n, k + 1)
    ensures FieldOf(str[s..k + 1])
         == if n.Some? then Field(str[s..n.value], Some(str[n.value + 1..k + 1])) else Field(str[s..k + 1], None)
  {
    var text := str[s..k + 1];
    assert forall i :: 0 <= i < |text| ==> text[i] == str[s + i];
    if n.Some? {
      LastEqualsIs(text, n.value - s);
      assert text[..n.value - s] == str[s..n.value] && text[n.value - s + 1..] == str[n.value + 1..k + 1];
    } else {
      LastEqualsNone(text);
    }
  }

  lemma RunField(opts: seq<OptionSpec>, f: Field, rest: seq<Field>, s: State, p: Program)
    ensures var j := First(opts, ByName(f.name), 0);
            var whole := Run(FieldCommands(opts, [f] + rest), s, p);
            if j.None? then whole == Ending(s, Some(UnknownOption(f.name)))
            else
              var r := Processed(opts[j.value], f.value, s.world, p);
              whole == if r.error.Some? then Ending(s.(world := r.world), r.error)
                       else Run(FieldCommands(opts, rest), s.(world := r.world), p)
  {
    assert ([f] + rest)[1..] == rest;
    assert FieldCommands(opts, [f] + rest)[1..] == FieldCommands(opts, rest);
  }

  lemma RunNothing(opts: seq<OptionSpec>, str: string, from: nat, sep: char, s: State, p: Program)
    requires from >= |str|
    ensures Run(FieldCommands(opts, ScanFrom(str, from, sep)), s, p) == Ending(s, None)
  {
  }

  /* ---- fields that are not read back ---- */

  /** An equals sign in a value: `a` with value `b=c` is read as `a=b` with value `c`. */
  lemma StrayEqualsIsMisread()
    ensures Joined([Field("a", Some("b=c"))], ',') == "a=b=c"
    ensures ScanFrom("a=b=c", 0, ',') == [Field("a=b", Some("c"))]
  {
    assert "a" + ("=" + "b=c") == "a=b=c";
    WholeIsOneField("a=b=c", ',');
    LastEqualsIs("a=b=c", 3);
    assert "a=b=c"[..3] == "a=b" && "a=b=c"[4..] == "c";
  }

  /** An empty field in front: its separator is read as part of the next one. */
  lemma EmptyFieldIsMisread()
    ensures Joined([Field("", None), Field("a", None)], ',') == ",a"
    ensures ScanFrom(",a", 0, ',') == [Field(",a", None)]
  {
    JoinedCons(Field("", None), [Field("a", None)], ',');
    assert [Field("", None)] + [Field("a", None)] == [Field("", None), Field("a", None)];
    assert "" + ([','] + "a") == ",a";
    WholeIsOneField(",a", ',');
    LastEqualsNone(",a");
  }

  lemma WholeIsOneField(str: string, sep: char)
    requires str != "" && forall i :: 1 <= i < |str| ==> str[i] != sep
    ensures ScanFrom(str, 0, sep) == [FieldOf(str)]
  {
    FieldEndIs(str, 0, |str| - 1, sep);
    assert str[0..|str|] == str;
  }
}
