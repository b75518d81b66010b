/** Splitting a command line into the commands of its options. */
module ArgParser {
  import opened Prelude
  import opened ArgOptions

  /** A character as the `char` that is compared with an option key; `char` is signed. */
  function KeyOf(c: char): int {
    if c as int < 128 then c as int else c as int - 256
  }

  predicate IsOption(s: string) { s != "" && s[0] == '-' }

  predicate IsLong(s: string) { |s| >= 2 && s[1] == '-' }

  /** The commands of one token, and the option that waits for the next token as its value. */
  datatype Token = Token(cmds: seq<Command>, waiting: Option<OptionSpec>)

  /** `--name` or `--name=value`, cut at the first equals sign. */
  function LongToken(opts: seq<OptionSpec>, ignoreUnknown: bool, s: string): Token
    requires IsOption(s) && IsLong(s)
  {
    var k := Find(s, '=');
    var name := if k < |s| then s[2..k] else s[2..];
    var given := if k < |s| then Some(s[k + 1..]) else None;
    match First(opts, ByName(name), 0)
    case None => Token(if ignoreUnknown then [] else [Unknown(name)], None)
    case Some(j) => Token([Process(opts[j], given)], None)
  }

  /** Short options from position `k` of a token on. */
  function ShortToken(opts: seq<OptionSpec>, ignoreUnknown: bool, s: string, k: nat): Token
    decreases |s| - k
  {
    if k >= |s| then Token([], None)
    else
      match First(opts, ByKey(KeyOf(s[k])), 0)
      case None => Token(if ignoreUnknown then [] else [Unknown("-" + [s[k]])], None)
      case Some(j) =>
        var o := opts[j];
        if !TakesValue(o) then
          var more := ShortToken(opts, ignoreUnknown, s, k + 1);
          Token([Process(o, None)] + more.cmds, more.waiting)
        else if s[k + 1..] != "" then Token([Process(o, Some(s[k + 1..]))], None)
        else if !NeedsValue(o) then Token([Process(o, None)], None)
        else Token([], Some(o))
  }

  function Scanned(opts: seq<OptionSpec>, ignoreUnknown: bool, s: string): Token {
    if !IsOption(s) then Token([Positional(s)], None)
    else if IsLong(s) then LongToken(opts, ignoreUnknown, s)
    else ShortToken(opts, ignoreUnknown, s, 1)
  }

  /** The commands of a command line, without the program name. */
  function Scan(opts: seq<OptionSpec>, ignoreUnknown: bool, args: seq<string>): seq<Command>
    decreases |args|, 1
  {
    if args == [] then []
    else
      var t := Scanned(opts, ignoreUnknown, args[0]);
      t.cmds + Resume(opts, ignoreUnknown, t.waiting, args[1..])
  }

  /** The commands of the tokens `rest` behind an option that may wait for a value. */
  function Resume(opts: seq<OptionSpec>, ignoreUnknown: bool, waiting: Option<OptionSpec>,
                  rest: seq<string>): seq<Command>
    decreases |rest|, 2
  {
    match waiting
    case None => Scan(opts, ignoreUnknown, rest)
    case Some(o) =>
      if rest == [] then [Process(o, None)]
      else [Process(o, Some(rest[0]))] + Scan(opts, ignoreUnknown, rest[1..])
  }

  function After(opts: seq<OptionSpec>, ignoreUnknown: bool, t: Token, rest: seq<string>): seq<Command> {
    t.cmds + Resume(opts, ignoreUnknown, t.waiting, rest)
  }

  /** Tokens from position `i` on; an option at the end of the line may step past the end. */
  function Rest(argv: seq<string>, i: nat): seq<string> {
    if i < |argv| then argv[i..] else []
  }

  /* ---- the parser ---- */

  lemma RunPositional(text: string, rest: seq<Command>, s: State, p: Program)
    ensures Run([Positional(text)] + rest, s, p) == Run(rest, s.(args := s.args + [text]), p)
  {
    assert ([Positional(text)] + rest)[1..] == rest;
  }

  lemma RunUnknown(name: string, rest: seq<Command>, s: State, p: Program)
    ensures Run([Unknown(name)] + rest, s, p) == Ending(s, Some(UnknownOption(name)))
  {
  }

  lemma RunProcess(o: OptionSpec, given: Option<string>, rest: seq<Command>, s: State, p: Program)
    ensures var r := Processed(o, given, s.world, p);
            Run([Process(o, given)] + rest, s, p) ==
              if r.error.Some? then Ending(s.(world := r.world), r.error)
              else Run(rest, s.(world := r.world), p)
  {
    assert ([Process(o, given)] + rest)[1..] == rest;
  }

  class Parser {
    const optList: seq<OptionSpec>
    const targets: Targets
    var argList: seq<string>

    constructor (opts: seq<OptionSpec>, t: Targets)
      ensures optList == opts && targets == t && argList == []
    {
      optList, targets, argList := opts, t, [];
    }

    ghost function View(): State
      reads this, targets
    {
      State(targets.View(), argList)
    }

    /** Nothing is left to do but `rest` to get from here to `whole`; or there was an error. */
    ghost predicate Continues(error: Option<Error>, rest: seq<Command>, whole: Ending, p: Program)
      reads this, targets
    {
      if error.Some? then Ending(View(), error) == whole else Run(rest, View(), p) == whole
    }

    method ProcessOne(o: OptionSpec, given: Option<string>, p: Program, ghost rest: seq<Command>)
      returns (error: Option<Error>)
      modifies targets
      ensures Continues(error, rest, Run([Process(o, given)] + rest, old(View()), p), p)
    {
      RunProcess(o, given, rest, View(), p);
      error := targets.Process(o, given, p);
    }

    /** Lines 249-270. */
    method ParseLong(s: string, ignoreUnknown: bool, p: Program, ghost next: seq<string>)
      returns (error: Option<Error>)
      requires IsOption(s) && IsLong(s)
      modifies targets
      ensures Continues(error, Scan(optList, ignoreUnknown, next),
                Run(After(optList, ignoreUnknown, LongToken(optList, ignoreUnknown, s), next), old(View()), p), p)
    {
      hide Run;
      ghost var rest := Scan(optList, ignoreUnknown, next);
      var n;
      var v := "";
      var vp := false;
      var k := Find(s, '=');
      if k < |s| {
        n := s[2..k];
        v := s[k + 1..];
        vp := true;
      } else {
        n := s[2..];
      }
      error := None;
      var j := FindOption(optList, ByName(n));
      if j.Some? {
        if vp {
          error := ProcessOne(optList[j.value], Some(v), p, rest);
        } else {
          error := ProcessOne(optList[j.value], None, p, rest);
        }
      } else if !ignoreUnknown {
        RunUnknown(n, rest, View(), p);
        error := Some(UnknownOption(n));
      } else {
        assert [] + rest == rest;
      }
    }

    /** Lines 273-297: the short options of token `i`, and the token behind it if it is a value. */
    method ParseShort(argv: seq<string>, i: nat, ignoreUnknown: bool, p: Program)
      returns (next: nat, error: Option<Error>)
      requires i < |argv| && IsOption(argv[i]) && !IsLong(argv[i])
      modifies targets
      ensures i <= next
      ensures Continues(error, Scan(optList, ignoreUnknown, Rest(argv, next + 1)),
                Run(After(optList, ignoreUnknown, ShortToken(optList, ignoreUnknown, argv[i], 1), Rest(argv, i + 1)),
                    old(View()), p), p)
    {
      hide Run, Scan, After, ShortToken, ValueCommands, KeyOf;
      next := i;
      error := None;
      var s := argv[i];
      ghost var rest := Rest(argv, i + 1);
      ghost var todo := After(optList, ignoreUnknown, ShortToken(optList, ignoreUnknown, s, 1), rest);
      ghost var whole := Run(todo, View(), p);
      var k := 1;
      while k < |s|
        invariant 1 <= k <= |s| && error.None?
        invariant todo == After(optList, ignoreUnknown, ShortToken(optList, ignoreUnknown, s, k), rest)
        invariant Run(todo, View(), p) == whole
      {
        ShortStep(optList, ignoreUnknown, s, k, rest);
        var j := FindOption(optList, ByKey(KeyOf(s[k])));
        if j.None? {
          if !ignoreUnknown {
            RunUnknown("-" + [s[k]], Scan(optList, ignoreUnknown, rest), View(), p);
            error := Some(UnknownOption("-" + [s[k]]));
          }
          return;
        }
        var o := optList[j.value];
        if !TakesValue(o) {
          todo := After(optList, ignoreUnknown, ShortToken(optList, ignoreUnknown, s, k + 1), rest);
          error := ProcessOne(o, None, p, todo);
          if error.Some? {
            return;
          }
          k := k + 1;
          continue;
        }
        next, error := ParseValue(argv, i, o, s[k + 1..], ignoreUnknown, p);
        return;
      }
      ShortEnd(optList, ignoreUnknown, s, rest);
    }

    /** Lines 286-295. */
    method ParseValue(argv: seq<string>, i: nat, o: OptionSpec, v: string, ignoreUnknown: bool, p: Program)
      returns (next: nat, error: Option<Error>)
      requires i < |argv|
      modifies targets
      ensures i <= next
      ensures Continues(error, Scan(optList, ignoreUnknown, Rest(argv, next + 1)),
                Run(ValueCommands(optList, ignoreUnknown, o, v, Rest(argv, i + 1)), old(View()), p), p)
    {
      next := i;
      if v != "" {
        error := ProcessOne(o, Some(v), p, Scan(optList, ignoreUnknown, Rest(argv, i + 1)));
        return;
      }
      if NeedsValue(o) {
        next := next + 1;
      }
      ghost var rest := Scan(optList, ignoreUnknown, Rest(argv, next + 1));
      if !NeedsValue(o) || next >= |argv| {
        error := ProcessOne(o, None, p, rest);
      } else {
        assert Rest(argv, i + 1)[1..] == Rest(argv, next + 1);
        error := ProcessOne(o, Some(argv[next]), p, rest);
      }
    }

    /** Parsing a command line runs its commands on a cleared argument list. */
    method Parse(argv: seq<string>, ignoreUnknown: bool, p: Program) returns (error: Option<Error>)
      modifies this`argList, targets
      ensures Ending(View(), error)
           == Run(Scan(optList, ignoreUnknown, Rest(argv, 1)), State(old(targets.View()), []), p)
    {
      hide Run, Scan, After, ShortToken, LongToken;
      argList := [];
      ghost var todo := Scan(optList, ignoreUnknown, Rest(argv, 1));
      ghost var whole := Run(todo, View(), p);
      var i := 1;
      while i < |argv|
        invariant 1 <= i && todo == Scan(optList, ignoreUnknown, Rest(argv, i))
        invariant Run(todo, View(), p) == whole
        decreases |argv| - i
      {
        var s := argv[i];
        ScanStep(optList, ignoreUnknown, argv, i);
        todo := Scan(optList, ignoreUnknown, Rest(argv, i + 1));
        if !IsOption(s) {
          RunPositional(s, todo, View(), p);
          argList := argList + [s];
          i := i + 1;
          continue;
        }
        if IsLong(s) {
          error := ParseLong(s, ignoreUnknown, p, Rest(argv, i + 1));
        } else {
          i, error := ParseShort(argv, i, ignoreUnknown, p);
          todo := Scan(optList, ignoreUnknown, Rest(argv, i + 1));
        }
        if error.Some? {
          return;
        }
        i := i + 1;
      }
      NothingLeft(optList, ignoreUnknown, argv, i, View(), p);
      error := None;
    }
  }

  lemma NothingLeft(opts: seq<OptionSpec>, ignoreUnknown: bool, argv: seq<string>, i: nat, s: State, p: Program)
    requires i >= |argv|
    ensures Run(Scan(opts, ignoreUnknown, Rest(argv, i)), s, p) == Ending(s, None)
  {
  }

  lemma ScanStep(opts: seq<OptionSpec>, ignoreUnknown: bool, argv: seq<string>, i: nat)
    requires i < |argv|
    ensures Scan(opts, ignoreUnknown, Rest(argv, i))
         == After(opts, ignoreUnknown, Scanned(opts, ignoreUnknown, argv[i]), Rest(argv, i + 1))
    ensures !IsOption(argv[i]) ==>
      Scan(opts, ignoreUnknown, Rest(argv, i)) == [Positional(argv[i])] + Scan(opts, ignoreUnknown, Rest(argv, i + 1))
  {
    assert Rest(argv, i)[0] == argv[i] && Rest(argv, i)[1..] == Rest(argv, i + 1);
  }

  /** An option that takes a value, with the text behind it in its token, then the tokens `rest`. */
  function ValueCommands(opts: seq<OptionSpec>, ignoreUnknown: bool, o: OptionSpec, v: string, rest: seq<string>):
    seq<Command>
  {
    if v != "" then [Process(o, Some(v))] + Scan(opts, ignoreUnknown, rest)
    else if !NeedsValue(o) || rest == [] then [Process(o, None)] + Scan(opts, ignoreUnknown, rest)
    else [Process(o, Some(rest[0]))] + Scan(opts, ignoreUnknown, rest[1..])
  }

  /** What the characters of a short token mean, one at a time. */
  lemma ShortStep(opts: seq<OptionSpec>, ignoreUnknown: bool, s: string, k: nat, rest: seq<string>)
    requires k < |s|
    ensures var j := First(opts, ByKey(KeyOf(s[k])), 0);
            After(opts, ignoreUnknown, ShortToken(opts, ignoreUnknown, s, k), rest) ==
              if j.None? then
                (if ignoreUnknown then Scan(opts, ignoreUnknown, rest)
                 else [Unknown("-" + [s[k]])] + Scan(opts, ignoreUnknown, rest))
              else if !TakesValue(opts[j.value]) then
                [Process(opts[j.value], None)]
                + After(opts, ignoreUnknown, ShortToken(opts, ignoreUnknown, s, k + 1), rest)
              else ValueCommands(opts, ignoreUnknown, opts[j.value], s[k + 1..], rest)
  {
  }

  lemma ShortEnd(opts: seq<OptionSpec>, ignoreUnknown: bool, s: string, rest: seq<string>)
    ensures After(opts, ignoreUnknown, ShortToken(opts, ignoreUnknown, s, |s|), rest) == Scan(opts, ignoreUnknown, rest)
  {
  }

  /* ---- command lines in context ---- */

  /** The commands of `args` without the option that still waits behind them, if one does. */
  function Front(opts: seq<OptionSpec>, ignoreUnknown: bool, args: seq<string>): seq<Command> {
    if args == [] then []
    else
      var t := Scanned(opts, ignoreUnknown, args[0]);
      if t.waiting.None? then t.cmds + Front(opts, ignoreUnknown, args[1..])
      else if |args| == 1 then t.cmds
      else t.cmds + [Process(t.waiting.value, Some(args[1]))] + Front(opts, ignoreUnknown, args[2..])
  }

  /** The option at the end of `args` that waits for one more token as its value. */
  function Waiting(opts: seq<OptionSpec>, ignoreUnknown: bool, args: seq<string>): Option<OptionSpec> {
    if args == [] then None
    else
      var t := Scanned(opts, ignoreUnknown, args[0]);
      if t.waiting.None? then Waiting(opts, ignoreUnknown, args[1..])
      else if |args| == 1 then t.waiting
      else Waiting(opts, ignoreUnknown, args[2..])
  }

  /** A command line can be cut anywhere. */
  lemma {:induction false} Cut(opts: seq<OptionSpec>, ignoreUnknown: bool, pre: seq<string>, post: seq<string>)
    ensures Scan(opts, ignoreUnknown, pre + post)
         == Front(opts, ignoreUnknown, pre)
            + Resume(opts, ignoreUnknown, Waiting(opts, ignoreUnknown, pre), post)
  {
    if pre == [] {
      assert pre + post == post;
    } else {
      var t := Scanned(opts, ignoreUnknown, pre[0]);
      assert (pre + post)[0] == pre[0] && (pre + post)[1..] == pre[1..] + post;
      if t.waiting.None? {
        Cut(opts, ignoreUnknown, pre[1..], post);
        Regroup(t.cmds, Front(opts, ignoreUnknown, pre[1..]),
              Resume(opts, ignoreUnknown, Waiting(opts, ignoreUnknown, pre), post));
      } else if |pre| == 1 {
        assert pre[1..] + post == post;
      } else {
        Cut(opts, ignoreUnknown, pre[2..], post);
        var c := [Process(t.waiting.value, Some(pre[1]))];
        assert (pre[1..] + post)[0] == pre[1] && (pre[1..] + post)[1..] == pre[2..] + post;
        Regroup(c, Front(opts, ignoreUnknown, pre[2..]),
              Resume(opts, ignoreUnknown, Waiting(opts, ignoreUnknown, pre), post));
        Regroup(t.cmds, c, Front(opts, ignoreUnknown, pre[2..])
                         + Resume(opts, ignoreUnknown, Waiting(opts, ignoreUnknown, pre), post));
        Regroup(t.cmds + c, Front(opts, ignoreUnknown, pre[2..]),
              Resume(opts, ignoreUnknown, Waiting(opts, ignoreUnknown, pre), post));
      }
    }
  }

  lemma SameFront<T>(a: seq<T>, b: seq<T>, c: seq<T>)
    ensures a + b == a + c <==> b == c
  {
    if a + b == a + c {
      assert (a + b)[|a|..] == b && (a + c)[|a|..] == c;
    }
  }

  /** The commands of two lines agree exactly when those of their halves do: nothing is
      passed across the cut exactly when no option waits there or nothing follows. */
  lemma CutsCleanlyIff(opts: seq<OptionSpec>, ignoreUnknown: bool, pre: seq<string>, post: seq<string>)
    ensures Scan(opts, ignoreUnknown, pre + post) == Scan(opts, ignoreUnknown, pre) + Scan(opts, ignoreUnknown, post)
       <==> Waiting(opts, ignoreUnknown, pre).None? || post == []
  {
    var front, w := Front(opts, ignoreUnknown, pre), Waiting(opts, ignoreUnknown, pre);
    Cut(opts, ignoreUnknown, pre, post);
    Cut(opts, ignoreUnknown, pre, []);
    assert pre + [] == pre;
    var alone := Resume(opts, ignoreUnknown, w, []);
    Regroup(front, alone, Scan(opts, ignoreUnknown, post));
    SameFront(front, Resume(opts, ignoreUnknown, w, post), alone + Scan(opts, ignoreUnknown, post));
    if w.Some? && post != [] {
      assert Resume(opts, ignoreUnknown, w, post)[0] != (alone + Scan(opts, ignoreUnknown, post))[0];
    }
  }
}
