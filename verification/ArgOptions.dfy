/** What an option does when the parser meets it, and the run of a list of commands. */
module ArgOptions {
  import opened Prelude

  /** A `Value` to put a string into; `fallback` is the string of an optional value. */
  datatype Storage = Storage(slot: nat, fallback: Option<string>)

  /** `*variable = value`; with `once`, only while the variable has that initial value. */
  datatype Setting = Setting(variable: nat, value: int, once: Option<int>)

  datatype OptionSpec = OptionSpec(key: int, name: string, store: Option<Storage>, setting: Option<Setting>,
                                   callback: Option<nat>)

  datatype Called = Called(callback: nat, key: int, str: string)

  /** Everything options write to. A variable that is not in `vars` is zero. */
  datatype World = World(stored: map<nat, string>, vars: map<nat, int>, called: seq<Called>)

  /** What the values and callbacks of the program answer. */
  datatype Program = Program(converts: (nat, string) -> bool, agrees: (seq<Called>, Called) -> bool)

  datatype Error =
    | MissingValue(name: string)
    | UnwantedValue(name: string, str: string)
    | Conversion(str: string)
    | ReSet(name: string)
    | CallbackFailed(name: string)
    | UnknownOption(text: string)

  datatype Outcome = Outcome(world: World, error: Option<Error>)

  predicate TakesValue(o: OptionSpec) { o.store.Some? }

  predicate NeedsValue(o: OptionSpec) { o.store.Some? && o.store.value.fallback.None? }

  function Var(vars: map<nat, int>, v: nat): int {
    if v in vars then vars[v] else 0
  }

  /* ---- one option ---- */

  function Converted(slot: nat, str: string, w: World, p: Program): Outcome {
    if p.converts(slot, str) then Outcome(w.(stored := w.stored[slot := str]), None)
    else Outcome(w, Some(Conversion(str)))
  }

  function Stored(o: OptionSpec, given: Option<string>, w: World, p: Program): Outcome {
    match (o.store, given)
    case (None, None) => Outcome(w, None)
    case (None, Some(str)) => Outcome(w, Some(UnwantedValue(o.name, str)))
    case (Some(s), Some(str)) => Converted(s.slot, str, w, p)
    case (Some(s), None) =>
      if s.fallback.None? then Outcome(w, Some(MissingValue(o.name)))
      else Converted(s.slot, s.fallback.value, w, p)
  }

  function VariableSet(o: OptionSpec, w: World): Outcome {
    match o.setting
    case None => Outcome(w, None)
    case Some(s) =>
      if s.once.Some? && s.once.value != Var(w.vars, s.variable) then Outcome(w, Some(ReSet(o.name)))
      else Outcome(w.(vars := w.vars[s.variable := s.value]), None)
  }

  function CallMade(o: OptionSpec, given: Option<string>, w: World, p: Program): Outcome {
    match o.callback
    case None => Outcome(w, None)
    case Some(f) =>
      var call := Called(f, o.key, if given.Some? then given.value else "");
      Outcome(w.(called := w.called + [call]),
              if p.agrees(w.called, call) then None else Some(CallbackFailed(o.name)))
  }

  /** `Option::process`: store, then set, then call; an error leaves what came before it. */
  function Processed(o: OptionSpec, given: Option<string>, w: World, p: Program): Outcome {
    var stored := Stored(o, given, w, p);
    if stored.error.Some? then stored
    else
      var varSet := VariableSet(o, stored.world);
      if varSet.error.Some? then varSet else CallMade(o, given, varSet.world, p)
  }

  /** The string that goes into the value of the option, if one does. */
  function Effective(o: OptionSpec, given: Option<string>): Option<string>
    requires TakesValue(o)
  {
    if given.Some? then given else o.store.value.fallback
  }

  /** Processing succeeds exactly when the value fits the option and converts, a set-once
      variable is still untouched, and the callback agrees. */
  lemma SucceedsIff(o: OptionSpec, given: Option<string>, w: World, p: Program)
    ensures Processed(o, given, w, p).error.None? <==>
      && (given.Some? ==> TakesValue(o))
      && (TakesValue(o) ==>
            && Effective(o, given).Some?
            && p.converts(o.store.value.slot, Effective(o, given).value))
      && (o.setting.Some? && o.setting.value.once.Some? ==>
            Var(w.vars, o.setting.value.variable) == o.setting.value.once.value)
      && (o.callback.Some? ==>
            p.agrees(w.called, Called(o.callback.value, o.key, if given.Some? then given.value else "")))
    ensures Processed(o, given, w, p).error.None? ==>
      var w' := Processed(o, given, w, p).world;
      && w'.stored == (if TakesValue(o) then w.stored[o.store.value.slot := Effective(o, given).value] else w.stored)
      && w'.vars == (if o.setting.Some? then w.vars[o.setting.value.variable := o.setting.value.value] else w.vars)
      && w'.called == if o.callback.Some?
           then w.called + [Called(o.callback.value, o.key, if given.Some? then given.value else "")] else w.called
  {
    var stored := Stored(o, given, w, p);
    if stored.error.None? {
      assert stored.world.vars == w.vars && stored.world.called == w.called;
    }
  }

  /** Which error comes first, and what was done before it: nothing for a value that does not fit
      or convert; the value is stored when a set-once variable was touched already; and value,
      variable and call are made when it is the callback that fails. */
  lemma FailsWith(o: OptionSpec, given: Option<string>, w: World, p: Program)
    ensures var r := Processed(o, given, w, p);
            var str := if given.Some? then given else if o.store.Some? then o.store.value.fallback else None;
            var call := Called(if o.callback.Some? then o.callback.value else 0, o.key,
                               if given.Some? then given.value else "");
            if o.store.None? && given.Some? then r == Outcome(w, Some(UnwantedValue(o.name, given.value)))
            else if o.store.Some? && str.None? then r == Outcome(w, Some(MissingValue(o.name)))
            else if o.store.Some? && !p.converts(o.store.value.slot, str.value) then
              r == Outcome(w, Some(Conversion(str.value)))
            else
              var stored := if o.store.Some? then w.stored[o.store.value.slot := str.value] else w.stored;
              if o.setting.Some? && o.setting.value.once.Some?
                 && Var(w.vars, o.setting.value.variable) != o.setting.value.once.value then
                r == Outcome(World(stored, w.vars, w.called), Some(ReSet(o.name)))
              else
                var vars := if o.setting.Some? then w.vars[o.setting.value.variable := o.setting.value.value]
                            else w.vars;
                if o.callback.Some? && !p.agrees(w.called, call) then
                  r == Outcome(World(stored, vars, w.called + [call]), Some(CallbackFailed(o.name)))
                else r.error.None?
  {
  }

  /** The variables and callbacks behind the pointers that options hold. */
  class Targets {
    var stored: map<nat, string>
    var vars: map<nat, int>
    var called: seq<Called>

    constructor (vars0: map<nat, int>)
      ensures stored == map[] && vars == vars0 && called == []
    {
      stored, vars, called := map[], vars0, [];
    }

    ghost function View(): World
      reads this
    {
      World(stored, vars, called)
    }

    method SetValue(slot: nat, str: string, p: Program) returns (error: Option<Error>)
      modifies this`stored
      ensures Outcome(View(), error) == Converted(slot, str, old(View()), p)
    {
      if !p.converts(slot, str) {
        return Some(Conversion(str));
      }
      stored := stored[slot := str];
      error := None;
    }

    method Process(o: OptionSpec, given: Option<string>, p: Program) returns (error: Option<Error>)
      modifies this
      ensures Outcome(View(), error) == Processed(o, given, old(View()), p)
    {
      if given.None? {
        if o.store.Some? {
          if o.store.value.fallback.None? {
            return Some(MissingValue(o.name));
          }
          error := SetValue(o.store.value.slot, o.store.value.fallback.value, p);
          if error.Some? {
            return;
          }
        }
      } else {
        if o.store.None? {
          return Some(UnwantedValue(o.name, given.value));
        }
        error := SetValue(o.store.value.slot, given.value, p);
        if error.Some? {
          return;
        }
      }
      if o.setting.Some? {
        var s := o.setting.value;
        if s.once.Some? && s.once.value != Var(vars, s.variable) {
          return Some(ReSet(o.name));
        }
        vars := vars[s.variable := s.value];
      }
      if o.callback.Some? {
        var call := Called(o.callback.value, o.key, if given.Some? then given.value else "");
        var agreed := p.agrees(called, call);
        called := called + [call];
        if !agreed {
          return Some(CallbackFailed(o.name));
        }
      }
      error := None;
    }
  }

  /* ---- lists of options ---- */

  /** What an option is looked up by. */
  datatype Lookup = ByKey(key: int) | ByName(name: string)

  predicate Has(o: OptionSpec, lookup: Lookup) {
    match lookup
    case ByKey(key) => o.key == key
    case ByName(name) => o.name == name
  }

  /** The first option from position `j` on that it fits. */
  function First(opts: seq<OptionSpec>, lookup: Lookup, j: nat): (r: Option<nat>)
    requires j <= |opts|
    ensures r.Some? ==> j <= r.value < |opts| && Has(opts[r.value], lookup)
    ensures r.Some? ==> forall i :: j <= i < r.value ==> !Has(opts[i], lookup)
    ensures r.None? ==> forall i :: j <= i < |opts| ==> !Has(opts[i], lookup)
    decreases |opts| - j
  {
    if j == |opts| then None else if Has(opts[j], lookup) then Some(j) else First(opts, lookup, j + 1)
  }

  /** The first option whose key, or whose name, is the one looked for. */
  lemma FirstIs(opts: seq<OptionSpec>, key: int, name: string)
    ensures match First(opts, ByKey(key), 0)
            case None => forall o :: o in opts ==> o.key != key
            case Some(j) => j < |opts| && opts[j].key == key && forall i :: 0 <= i < j ==> opts[i].key != key
    ensures match First(opts, ByName(name), 0)
            case None => forall o :: o in opts ==> o.name != name
            case Some(j) => j < |opts| && opts[j].name == name && forall i :: 0 <= i < j ==> opts[i].name != name
  {
  }

  method FindOption(opts: seq<OptionSpec>, lookup: Lookup) returns (r: Option<nat>)
    ensures r == First(opts, lookup, 0)
  {
    var j := 0;
    while j < |opts|
      invariant j <= |opts| && First(opts, lookup, 0) == First(opts, lookup, j)
    {
      if Has(opts[j], lookup) {
        return Some(j);
      }
      j := j + 1;
    }
    r := None;
  }

  /* ---- runs of commands ---- */

  datatype Command = Positional(text: string) | Process(o: OptionSpec, given: Option<string>) | Unknown(name: string)

  datatype State = State(world: World, args: seq<string>)

  datatype Ending = Ending(state: State, error: Option<Error>)

  /** Execute the commands in order, up to the first error. */
  function Run(cmds: seq<Command>, s: State, p: Program): Ending {
    if cmds == [] then Ending(s, None)
    else
      match cmds[0]
      case Positional(text) => Run(cmds[1..], s.(args := s.args + [text]), p)
      case Unknown(name) => Ending(s, Some(UnknownOption(name)))
      case Process(o, given) =>
        var r := Processed(o, given, s.world, p);
        if r.error.Some? then Ending(s.(world := r.world), r.error)
        else Run(cmds[1..], s.(world := r.world), p)
  }

  /** A run can be cut anywhere: behind an error nothing is run. */
  lemma {:induction false} RunConcat(a: seq<Command>, b: seq<Command>, s: State, p: Program)
    ensures Run(a + b, s, p) == var r := Run(a, s, p); if r.error.Some? then r else Run(b, r.state, p)
  {
    if a == [] {
      assert a + b == b;
    } else {
      assert (a + b)[0] == a[0] && (a + b)[1..] == a[1..] + b;
      match a[0]
      case Positional(text) => RunConcat(a[1..], b, s.(args := s.args + [text]), p);
      case Unknown(_) =>
      case Process(o, given) =>
        var r := Processed(o, given, s.world, p);
        if r.error.None? {
          RunConcat(a[1..], b, s.(world := r.world), p);
        }
    }
  }

  function Positionals(cmds: seq<Command>): seq<string> {
    if cmds == [] then []
    else (if cmds[0].Positional? then [cmds[0].text] else []) + Positionals(cmds[1..])
  }

  /** A run without error keeps every positional argument, in order. */
  lemma {:induction false} PositionalsInOrder(cmds: seq<Command>, s: State, p: Program)
    ensures Run(cmds, s, p).error.None? ==> Run(cmds, s, p).state.args == s.args + Positionals(cmds)
  {
    if cmds == [] || Run(cmds, s, p).error.Some? {
    } else {
      match cmds[0]
      case Positional(text) =>
        PositionalsInOrder(cmds[1..], s.(args := s.args + [text]), p);
        assert (s.args + [text]) + Positionals(cmds[1..]) == s.args + ([text] + Positionals(cmds[1..]));
      case Unknown(_) =>
      case Process(o, given) =>
        PositionalsInOrder(cmds[1..], s.(world := Processed(o, given, s.world, p).world), p);
        assert [] + Positionals(cmds[1..]) == Positionals(cmds[1..]);
    }
  }

  /** The commands that set a variable. */
  function Setters(cmds: seq<Command>, v: nat): nat {
    if cmds == [] then 0 else (if Sets(cmds[0], v) then 1 else 0) + Setters(cmds[1..], v)
  }

  predicate Sets(c: Command, v: nat) {
    c.Process? && c.o.setting.Some? && c.o.setting.value.variable == v
  }

  /** Every command that sets `v` sets it once, away from `init`. */
  predicate SetsOnce(cmds: seq<Command>, v: nat, init: int) {
    forall i :: 0 <= i < |cmds| && Sets(cmds[i], v) ==>
      cmds[i].o.setting.value.once == Some(init) && cmds[i].o.setting.value.value != init
  }

  /** `once` over a whole run: without an error, at most one command set the variable, and
      none did if it was not at its initial value to begin with. */
  lemma {:induction false} SetAtMostOnce(cmds: seq<Command>, s: State, p: Program, v: nat, init: int)
    requires SetsOnce(cmds, v, init) && Run(cmds, s, p).error.None?
    ensures Setters(cmds, v) <= 1
    ensures Var(s.world.vars, v) != init ==> Setters(cmds, v) == 0
    ensures Setters(cmds, v) == 0 ==> Var(Run(cmds, s, p).state.world.vars, v) == Var(s.world.vars, v)
    ensures Setters(cmds, v) == 1 ==> Var(Run(cmds, s, p).state.world.vars, v) != init
  {
    if cmds == [] {
    } else {
      var rest := cmds[1..];
      assert forall i :: 0 <= i < |rest| ==> rest[i] == cmds[i + 1];
      match cmds[0]
      case Positional(text) =>
        SetAtMostOnce(rest, s.(args := s.args + [text]), p, v, init);
      case Unknown(_) =>
      case Process(o, given) =>
        SucceedsIff(o, given, s.world, p);
        SetAtMostOnce(rest, s.(world := Processed(o, given, s.world, p).world), p, v, init);
    }
  }
}
