/** Where a command line ends in an error, and what is done before it does. */
module ArgErrors {
  import opened Prelude
  import opened ArgOptions
  import opened ArgParser
  import opened ArgTheorems

  /** A key is the character itself in ASCII, and negative above. */
  lemma KeyOfIs(c: char)
    ensures c as int < 128 ==> KeyOf(c) == c as int
    ensures 128 <= c as int < 256 ==> KeyOf(c) == c as int - 256
  {
  }

  /* ---- tokens ---- */

  /** What does not start with a minus sign is a word, the empty token too; a minus sign alone is nothing. */
  lemma WordScanned(opts: seq<OptionSpec>, ignoreUnknown: bool, s: string)
    ensures s == "" || s[0] != '-' ==> Scanned(opts, ignoreUnknown, s) == Token([Positional(s)], None)
    ensures Scanned(opts, ignoreUnknown, "-") == Token([], None)
  {
  }

  ghost predicate NoName(opts: seq<OptionSpec>, n: string) {
    forall o :: o in opts ==> o.name != n
  }

  ghost predicate NoKey(opts: seq<OptionSpec>, c: char) {
    forall o :: o in opts ==> o.key != KeyOf(c)
  }

  /** A long option with no such name is an unknown one, with or without a value. */
  lemma UnknownLongScanned(opts: seq<OptionSpec>, n: string, v: string)
    requires NoName(opts, n) && '=' !in n
    ensures Scanned(opts, false, "--" + n) == Token([Unknown(n)], None)
    ensures Scanned(opts, false, ("--" + n) + ("=" + v)) == Token([Unknown(n)], None)
    ensures Scanned(opts, true, "--" + n) == Token([], None)
    ensures Scanned(opts, true, ("--" + n) + ("=" + v)) == Token([], None)
  {
    FirstIs(opts, 0, n);
    var s, t := "--" + n, ("--" + n) + ("=" + v);
    FindNone(s, '=');
    assert s[2..] == n;
    FindAt("--" + n, '=', v);
    assert t == ("--" + n) + (['='] + v);
    assert t[2..2 + |n|] == n;
  }

  /** Behind value-less options a key that no option has is unknown; the rest of its token does not matter. */
  lemma UnknownShortScanned(opts: seq<OptionSpec>, ignoreUnknown: bool, keys: string, c: char, tail: string)
    requires AreFlags(opts, keys) && NoKey(opts, c) && (keys + [c])[0] != '-'
    ensures Scanned(opts, ignoreUnknown, "-" + (keys + ([c] + tail)))
         == Token(FlagCommands(opts, keys) + if ignoreUnknown then [] else [Unknown("-" + [c])], None)
  {
    FirstIs(opts, KeyOf(c), "");
    var s, k := "-" + (keys + ([c] + tail)), 1 + |keys|;
    assert (keys + ([c] + tail))[0] == (keys + [c])[0];
    GroupThen(opts, ignoreUnknown, keys, [c] + tail);
    assert s[k] == c;
  }

  /** A key is that of the first option that has it. */
  lemma KeyedIs(opts: seq<OptionSpec>, c: char)
    ensures IsKey(opts, c) <==> exists o :: o in opts && o.key == KeyOf(c)
    ensures IsKey(opts, c) ==>
              exists j :: 0 <= j < |opts| && opts[j] == Keyed(opts, c) && opts[j].key == KeyOf(c)
                       && forall i :: 0 <= i < j ==> opts[i].key != KeyOf(c)
  {
    FirstIs(opts, KeyOf(c), "");
  }

  /** Grouped keys mean one command each, in order, and split they are one token each. */
  lemma {:induction false} KeysAre(opts: seq<OptionSpec>, keys: string)
    requires AreFlags(opts, keys)
    ensures |FlagCommands(opts, keys)| == |keys| == |Split(keys)|
    ensures forall i :: 0 <= i < |keys| ==> FlagCommands(opts, keys)[i] == Process(Keyed(opts, keys[i]), None)
    ensures forall i :: 0 <= i < |keys| ==> Split(keys)[i] == ['-', keys[i]]
  {
    if keys == "" {
    } else {
      KeysAre(opts, keys[1..]);
    }
  }

  /* ---- lines ---- */

  /** The end of a run that meets `error` behind the commands `front`. */
  function StoppedAt(front: seq<Command>, s: State, p: Program, error: Error): Ending {
    var r := Run(front, s, p);
    if r.error.Some? then r else Ending(r.state, Some(error))
  }

  lemma ScansTo(opts: seq<OptionSpec>, ignoreUnknown: bool, pre: seq<string>, s: string, post: seq<string>)
    requires Waiting(opts, ignoreUnknown, pre).None?
    ensures Scan(opts, ignoreUnknown, pre + ([s] + post))
         == Scan(opts, ignoreUnknown, pre) + After(opts, ignoreUnknown, Scanned(opts, ignoreUnknown, s), post)
  {
    CutsCleanlyIff(opts, ignoreUnknown, pre, [s] + post);
    ScanCons(opts, ignoreUnknown, s, post);
  }

  lemma RunStops(front: seq<Command>, c: Command, rest: seq<Command>, s: State, p: Program, error: Error)
    requires Run([c] + rest, Run(front, s, p).state, p) == Ending(Run(front, s, p).state, Some(error))
    ensures Run(front + ([c] + rest), s, p) == StoppedAt(front, s, p, error)
  {
    RunConcat(front, [c] + rest, s, p);
  }

  /** An unknown long option, where no value is waited for, ends the line with its name: what is
      in front of it was done, and nothing behind it is. */
  lemma UnknownLongEnds(opts: seq<OptionSpec>, pre: seq<string>, n: string, post: seq<string>, s: State, p: Program)
    requires NoName(opts, n) && '=' !in n && Waiting(opts, false, pre).None?
    ensures Run(Scan(opts, false, pre + (["--" + n] + post)), s, p)
         == StoppedAt(Scan(opts, false, pre), s, p, UnknownOption(n))
  {
    hide Scan, Scanned, Run;
    UnknownLongScanned(opts, n, "");
    ScansTo(opts, false, pre, "--" + n, post);
    var front := Scan(opts, false, pre);
    RunUnknown(n, Scan(opts, false, post), Run(front, s, p).state, p);
    RunStops(front, Unknown(n), Scan(opts, false, post), s, p, UnknownOption(n));
  }

  /** So does an unknown key, behind the options in its own token. */
  lemma UnknownShortEnds(opts: seq<OptionSpec>, pre: seq<string>, keys: string, c: char, tail: string,
                         post: seq<string>, s: State, p: Program)
    requires AreFlags(opts, keys) && NoKey(opts, c) && (keys + [c])[0] != '-' && Waiting(opts, false, pre).None?
    ensures Run(Scan(opts, false, pre + (["-" + (keys + ([c] + tail))] + post)), s, p)
         == StoppedAt(Scan(opts, false, pre) + FlagCommands(opts, keys), s, p, UnknownOption("-" + [c]))
  {
    hide Scan, Scanned, Run;
    var name, token := "-" + [c], "-" + (keys + ([c] + tail));
    UnknownShortScanned(opts, false, keys, c, tail);
    ScansTo(opts, false, pre, token, post);
    var front := Scan(opts, false, pre) + FlagCommands(opts, keys);
    var rest := Scan(opts, false, post);
    Regroup(FlagCommands(opts, keys), [Unknown(name)], rest);
    Regroup(Scan(opts, false, pre), FlagCommands(opts, keys), [Unknown(name)] + rest);
    RunUnknown(name, rest, Run(front, s, p).state, p);
    RunStops(front, Unknown(name), rest, s, p, UnknownOption(name));
  }

  /** When unknown options are ignored, a line with an unknown long one is the line without it. */
  lemma IgnoredLong(opts: seq<OptionSpec>, pre: seq<string>, n: string, post: seq<string>)
    requires NoName(opts, n) && '=' !in n && Waiting(opts, true, pre).None?
    ensures Scan(opts, true, pre + (["--" + n] + post)) == Scan(opts, true, pre + post)
  {
    hide Scan, Scanned;
    UnknownLongScanned(opts, n, "");
    ScansTo(opts, true, pre, "--" + n, post);
    CutsCleanlyIff(opts, true, pre, post);
    assert [] + Scan(opts, true, post) == Scan(opts, true, post);
  }

  /** `-o` as the last token, where `o` needs a value, ends in a missing value. */
  lemma MissingAtEnd(opts: seq<OptionSpec>, ignoreUnknown: bool, pre: seq<string>, keys: string, c: char, s: State,
                     p: Program)
    requires AreFlags(opts, keys) && IsKey(opts, c) && NeedsValue(Keyed(opts, c)) && (keys + [c])[0] != '-'
    requires Waiting(opts, ignoreUnknown, pre).None?
    ensures Run(Scan(opts, ignoreUnknown, pre + ["-" + (keys + [c])]), s, p)
         == StoppedAt(Scan(opts, ignoreUnknown, pre) + FlagCommands(opts, keys), s, p,
                      MissingValue(Keyed(opts, c).name))
  {
    hide Scan, Scanned, Run, AreFlags;
    var o, token := Keyed(opts, c), "-" + (keys + [c]);
    EndingScanned(opts, ignoreUnknown, keys, c);
    ScansTo(opts, ignoreUnknown, pre, token, []);
    assert [token] + [] == [token];
    var front := Scan(opts, ignoreUnknown, pre) + FlagCommands(opts, keys);
    Regroup(Scan(opts, ignoreUnknown, pre), FlagCommands(opts, keys), [Process(o, None)]);
    assert [Process(o, None)] + [] == [Process(o, None)];
    ProcessFails(front, o, None, [], s, p, MissingValue(o.name));
  }

  /** An option that fails before it changes anything ends the run there. */
  lemma ProcessFails(front: seq<Command>, o: OptionSpec, given: Option<string>, rest: seq<Command>, s: State,
                     p: Program, error: Error)
    requires || (given.None? && NeedsValue(o) && error == MissingValue(o.name))
             || (given.Some? && !TakesValue(o) && error == UnwantedValue(o.name, given.value))
    ensures Run(front + ([Process(o, given)] + rest), s, p) == StoppedAt(front, s, p, error)
  {
    hide Run;
    var s1 := Run(front, s, p).state;
    FailsWith(o, given, s1.world, p);
    RunProcess(o, given, rest, s1, p);
    assert s1.(world := s1.world) == s1;
    RunStops(front, Process(o, given), rest, s, p, error);
  }

  /** `--name` without the value it needs, and `--name=v` with a value that is not wanted, end the line. */
  lemma LongValueErrors(opts: seq<OptionSpec>, ignoreUnknown: bool, pre: seq<string>, o: OptionSpec, v: string,
                        post: seq<string>, s: State, p: Program)
    requires NamedFirst(opts, o) && '=' !in o.name && Waiting(opts, ignoreUnknown, pre).None?
    ensures NeedsValue(o) ==>
              Run(Scan(opts, ignoreUnknown, pre + (["--" + o.name] + post)), s, p)
              == StoppedAt(Scan(opts, ignoreUnknown, pre), s, p, MissingValue(o.name))
    ensures !TakesValue(o) ==>
              Run(Scan(opts, ignoreUnknown, pre + ([("--" + o.name) + ("=" + v)] + post)), s, p)
              == StoppedAt(Scan(opts, ignoreUnknown, pre), s, p, UnwantedValue(o.name, v))
  {
    hide Scan, Scanned, Run, First;
    var front, rest := Scan(opts, ignoreUnknown, pre), Scan(opts, ignoreUnknown, post);
    LongFlagScannedIff(opts, ignoreUnknown, o);
    LongValueScannedIff(opts, ignoreUnknown, o, v);
    ScansTo(opts, ignoreUnknown, pre, "--" + o.name, post);
    ScansTo(opts, ignoreUnknown, pre, ("--" + o.name) + ("=" + v), post);
    if NeedsValue(o) {
      ProcessFails(front, o, None, rest, s, p, MissingValue(o.name));
    }
    if !TakesValue(o) {
      ProcessFails(front, o, Some(v), rest, s, p, UnwantedValue(o.name, v));
    }
  }

  /** The program name is not parsed. */
  lemma ProgramNameSkipped(prog: string, args: seq<string>)
    ensures Rest([prog] + args, 1) == args && Rest([], 1) == []
  {
  }
}
