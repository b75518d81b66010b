/** Ways of writing the same command line. */
module ArgTheorems {
  import opened Prelude
  import opened ArgOptions
  import opened ArgParser

  predicate IsKey(opts: seq<OptionSpec>, c: char) {
    First(opts, ByKey(KeyOf(c)), 0).Some?
  }

  function Keyed(opts: seq<OptionSpec>, c: char): OptionSpec
    requires IsKey(opts, c)
  {
    opts[First(opts, ByKey(KeyOf(c)), 0).value]
  }

  /** Keys of options without a value. */
  predicate AreFlags(opts: seq<OptionSpec>, keys: string) {
    forall i :: 0 <= i < |keys| ==> IsKey(opts, keys[i]) && !TakesValue(Keyed(opts, keys[i]))
  }

  function FlagCommands(opts: seq<OptionSpec>, keys: string): seq<Command>
    requires AreFlags(opts, keys)
  {
    if keys == "" then [] else [Process(Keyed(opts, keys[0]), None)] + FlagCommands(opts, keys[1..])
  }

  /** `-a -b -c` for `abc`. */
  function Split(keys: string): seq<string> {
    if keys == "" then [] else ["-" + [keys[0]]] + Split(keys[1..])
  }

  /** The options up to position `m` of a short token, if they have no values. */
  lemma {:induction false} FlagsThen(opts: seq<OptionSpec>, ignoreUnknown: bool, s: string, k: nat, m: nat)
    requires k <= m <= |s| && AreFlags(opts, s[k..m])
    ensures var more := ShortToken(opts, ignoreUnknown, s, m);
            ShortToken(opts, ignoreUnknown, s, k) == Token(FlagCommands(opts, s[k..m]) + more.cmds, more.waiting)
    decreases m - k
  {
    if k >= m {
    } else {
      assert s[k..m][0] == s[k] && s[k..m][1..] == s[k + 1..m];
      var keys, others := s[k..m], s[k + 1..m];
      assert forall i :: 0 <= i < |others| ==> others[i] == keys[i + 1];
      FlagsThen(opts, ignoreUnknown, s, k + 1, m);
      Regroup([Process(Keyed(opts, s[k]), None)], FlagCommands(opts, s[k + 1..m]),
            ShortToken(opts, ignoreUnknown, s, m).cmds);
    }
  }

  /** A token with the options `keys` and then the text `tail`. */
  lemma GroupThen(opts: seq<OptionSpec>, ignoreUnknown: bool, keys: string, tail: string)
    requires AreFlags(opts, keys) && keys + tail != "" && (keys + tail)[0] != '-'
    ensures var s := "-" + (keys + tail);
            var more := ShortToken(opts, ignoreUnknown, s, 1 + |keys|);
            && s[1 + |keys|..] == tail
            && Scanned(opts, ignoreUnknown, s) == Token(FlagCommands(opts, keys) + more.cmds, more.waiting)
  {
    var s := "-" + (keys + tail);
    assert s[1..1 + |keys|] == keys && s[1] == (keys + tail)[0];
    FlagsThen(opts, ignoreUnknown, s, 1, 1 + |keys|);
  }

  lemma GroupScanned(opts: seq<OptionSpec>, ignoreUnknown: bool, keys: string)
    requires AreFlags(opts, keys) && keys != "" && keys[0] != '-'
    ensures Scanned(opts, ignoreUnknown, "-" + keys) == Token(FlagCommands(opts, keys), None)
  {
    assert keys + "" == keys;
    GroupThen(opts, ignoreUnknown, keys, "");
  }

  lemma ScanCons(opts: seq<OptionSpec>, ignoreUnknown: bool, s: string, rest: seq<string>)
    ensures Scan(opts, ignoreUnknown, [s] + rest)
         == After(opts, ignoreUnknown, Scanned(opts, ignoreUnknown, s), rest)
  {
    assert ([s] + rest)[1..] == rest;
  }

  lemma {:induction false} SplitScans(opts: seq<OptionSpec>, ignoreUnknown: bool, keys: string, post: seq<string>)
    requires AreFlags(opts, keys) && '-' !in keys
    ensures Scan(opts, ignoreUnknown, Split(keys) + post)
         == FlagCommands(opts, keys) + Scan(opts, ignoreUnknown, post)
  {
    if keys == "" {
      assert Split(keys) + post == post;
    } else {
      var first, others := [keys[0]], keys[1..];
      assert keys[0] in keys && forall c :: c in others ==> c in keys;
      SplitScans(opts, ignoreUnknown, others, post);
      GroupScanned(opts, ignoreUnknown, first);
      assert first[1..] == "" && FlagCommands(opts, first) == [Process(Keyed(opts, keys[0]), None)];
      ScanCons(opts, ignoreUnknown, "-" + first, Split(others) + post);
      Regroup(["-" + first], Split(others), post);
      Regroup([Process(Keyed(opts, keys[0]), None)], FlagCommands(opts, others), Scan(opts, ignoreUnknown, post));
    }
  }

  /** Replacing the tail of a line keeps its commands exactly when it keeps what is left
      behind the cut. */
  lemma ReplaceTail(opts: seq<OptionSpec>, ignoreUnknown: bool, pre: seq<string>, a: seq<string>, b: seq<string>)
    ensures var w := Waiting(opts, ignoreUnknown, pre);
            Scan(opts, ignoreUnknown, pre + a) == Scan(opts, ignoreUnknown, pre + b)
            <==> Resume(opts, ignoreUnknown, w, a) == Resume(opts, ignoreUnknown, w, b)
  {
    var w := Waiting(opts, ignoreUnknown, pre);
    Cut(opts, ignoreUnknown, pre, a);
    Cut(opts, ignoreUnknown, pre, b);
    SameFront(Front(opts, ignoreUnknown, pre), Resume(opts, ignoreUnknown, w, a), Resume(opts, ignoreUnknown, w, b));
  }

  /** Where an option waits for its value, lines with different next tokens differ. */
  lemma WaitingTellsApart(opts: seq<OptionSpec>, ignoreUnknown: bool, w: Option<OptionSpec>,
                          a: string, restA: seq<string>, b: string, restB: seq<string>)
    requires w.Some? && a != b
    ensures Resume(opts, ignoreUnknown, w, [a] + restA) != Resume(opts, ignoreUnknown, w, [b] + restB)
  {
    var l, r := Resume(opts, ignoreUnknown, w, [a] + restA), Resume(opts, ignoreUnknown, w, [b] + restB);
    assert l[0] == Process(w.value, Some(a)) && r[0] == Process(w.value, Some(b));
  }

  /** `-abc` in place of `-a -b -c`: the same commands, unless an option in front of them
      takes the token as its value. */
  lemma GroupingIff(opts: seq<OptionSpec>, ignoreUnknown: bool, pre: seq<string>, keys: string, post: seq<string>)
    requires AreFlags(opts, keys) && keys != "" && '-' !in keys
    ensures Scan(opts, ignoreUnknown, pre + (["-" + keys] + post))
         == Scan(opts, ignoreUnknown, pre + (Split(keys) + post))
       <==> Waiting(opts, ignoreUnknown, pre).None? || |keys| == 1
  {
    hide Scan, Scanned, AreFlags;
    var w := Waiting(opts, ignoreUnknown, pre);
    ReplaceTail(opts, ignoreUnknown, pre, ["-" + keys] + post, Split(keys) + post);
    assert keys[0] in keys;
    if |keys| == 1 {
      assert Split(keys[1..]) == [] && [keys[0]] == keys;
      assert Split(keys) == ["-" + keys];
    } else if w.None? {
      GroupScanned(opts, ignoreUnknown, keys);
      ScanCons(opts, ignoreUnknown, "-" + keys, post);
      SplitScans(opts, ignoreUnknown, keys, post);
    } else {
      Regroup(["-" + [keys[0]]], Split(keys[1..]), post);
      assert |"-" + keys| != |"-" + [keys[0]]|;
      WaitingTellsApart(opts, ignoreUnknown, w, "-" + keys, post, "-" + [keys[0]], Split(keys[1..]) + post);
    }
  }

  /** The option `c` behind value-less ones, with its value in the same token. */
  lemma AttachedScanned(opts: seq<OptionSpec>, ignoreUnknown: bool, keys: string, c: char, v: string)
    requires AreFlags(opts, keys) && IsKey(opts, c) && TakesValue(Keyed(opts, c)) && v != ""
    requires (keys + [c])[0] != '-'
    ensures Scanned(opts, ignoreUnknown, "-" + (keys + ([c] + v)))
         == Token(FlagCommands(opts, keys) + [Process(Keyed(opts, c), Some(v))], None)
  {
    var s, k := "-" + (keys + ([c] + v)), 1 + |keys|;
    assert (keys + ([c] + v))[0] == (keys + [c])[0];
    GroupThen(opts, ignoreUnknown, keys, [c] + v);
    assert s[k] == c && s[k + 1..] == v;
  }

  /** The same option at the end of its token. */
  lemma EndingScanned(opts: seq<OptionSpec>, ignoreUnknown: bool, keys: string, c: char)
    requires AreFlags(opts, keys) && IsKey(opts, c) && TakesValue(Keyed(opts, c))
    requires (keys + [c])[0] != '-'
    ensures var o := Keyed(opts, c);
            Scanned(opts, ignoreUnknown, "-" + (keys + [c]))
            == if NeedsValue(o) then Token(FlagCommands(opts, keys), Some(o))
               else Token(FlagCommands(opts, keys) + [Process(o, None)], None)
  {
    var s, k := "-" + (keys + [c]), 1 + |keys|;
    GroupThen(opts, ignoreUnknown, keys, [c]);
    assert s[k] == c && s[k + 1..] == "";
    assert FlagCommands(opts, keys) + [] == FlagCommands(opts, keys);
  }

  /** `-ov` in place of `-o v`: the same commands exactly when the option needs its value and
      no option in front of it takes the token. */
  lemma AttachingIff(opts: seq<OptionSpec>, ignoreUnknown: bool, pre: seq<string>, keys: string, c: char, v: string,
                     post: seq<string>)
    requires AreFlags(opts, keys) && IsKey(opts, c) && TakesValue(Keyed(opts, c)) && v != ""
    requires (keys + [c])[0] != '-'
    ensures Scan(opts, ignoreUnknown, pre + (["-" + (keys + ([c] + v))] + post))
         == Scan(opts, ignoreUnknown, pre + (["-" + (keys + [c])] + ([v] + post)))
       <==> Waiting(opts, ignoreUnknown, pre).None? && NeedsValue(Keyed(opts, c))
  {
    hide Scan, Scanned, AreFlags;
    var w, o := Waiting(opts, ignoreUnknown, pre), Keyed(opts, c);
    var one, two := "-" + (keys + ([c] + v)), "-" + (keys + [c]);
    ReplaceTail(opts, ignoreUnknown, pre, [one] + post, [two] + ([v] + post));
    if w.Some? {
      assert |one| != |two|;
      WaitingTellsApart(opts, ignoreUnknown, w, one, post, two, [v] + post);
    } else {
      AttachedScanned(opts, ignoreUnknown, keys, c, v);
      EndingScanned(opts, ignoreUnknown, keys, c);
      ScanCons(opts, ignoreUnknown, one, post);
      ScanCons(opts, ignoreUnknown, two, [v] + post);
      AttachedIsSeparate(opts, ignoreUnknown, FlagCommands(opts, keys), o, v, post);
    }
  }

  lemma AttachedIsSeparate(opts: seq<OptionSpec>, ignoreUnknown: bool, flags: seq<Command>, o: OptionSpec, v: string,
                           post: seq<string>)
    requires TakesValue(o)
    ensures After(opts, ignoreUnknown, Token(flags + [Process(o, Some(v))], None), post)
         == After(opts, ignoreUnknown,
                  if NeedsValue(o) then Token(flags, Some(o)) else Token(flags + [Process(o, None)], None), [v] + post)
       <==> NeedsValue(o)
  {
    hide Scan;
    var l := After(opts, ignoreUnknown, Token(flags + [Process(o, Some(v))], None), post);
    Regroup(flags, [Process(o, Some(v))], Scan(opts, ignoreUnknown, post));
    assert ([v] + post)[1..] == post;
    if !NeedsValue(o) {
      var r := After(opts, ignoreUnknown, Token(flags + [Process(o, None)], None), [v] + post);
      assert l[|flags|] == Process(o, Some(v)) && r[|flags|] == Process(o, None);
    }
  }

  /* ---- rendering commands ---- */

  datatype Item =
    | LongFlag(o: OptionSpec)
    | LongValue(o: OptionSpec, v: string)
    | Word(text: string)
    | Keys(keys: string)
    | Attached(keys: string, c: char, v: string)
    | Separate(keys: string, c: char, v: string)

  /** Names without equals sign, of options found under them; words that do not look like
      options; keys of known options, not starting like a long option. */
  predicate Canonical(opts: seq<OptionSpec>, i: Item) {
    match i
    case LongFlag(o) => NamedFirst(opts, o) && '=' !in o.name
    case LongValue(o, _) => NamedFirst(opts, o) && '=' !in o.name
    case Word(text) => !IsOption(text)
    case Keys(keys) => AreFlags(opts, keys) && keys != "" && keys[0] != '-'
    case Attached(keys, c, v) =>
      AreFlags(opts, keys) && IsKey(opts, c) && TakesValue(Keyed(opts, c)) && (keys + [c])[0] != '-' && v != ""
    case Separate(keys, c, _) =>
      AreFlags(opts, keys) && IsKey(opts, c) && NeedsValue(Keyed(opts, c)) && (keys + [c])[0] != '-'
  }

  predicate NamedFirst(opts: seq<OptionSpec>, o: OptionSpec) {
    First(opts, ByName(o.name), 0).Some? && opts[First(opts, ByName(o.name), 0).value] == o
  }

  function Tokens(i: Item): seq<string> {
    match i
    case LongFlag(o) => ["--" + o.name]
    case LongValue(o, v) => [("--" + o.name) + ("=" + v)]
    case Word(text) => [text]
    case Keys(keys) => ["-" + keys]
    case Attached(keys, c, v) => ["-" + (keys + ([c] + v))]
    case Separate(keys, c, v) => ["-" + (keys + [c]), v]
  }

  function Meaning(opts: seq<OptionSpec>, i: Item): seq<Command>
    requires Canonical(opts, i)
  {
    match i
    case LongFlag(o) => [Process(o, None)]
    case LongValue(o, v) => [Process(o, Some(v))]
    case Word(text) => [Positional(text)]
    case Keys(keys) => FlagCommands(opts, keys)
    case Attached(keys, c, v) => FlagCommands(opts, keys) + [Process(Keyed(opts, c), Some(v))]
    case Separate(keys, c, v) => FlagCommands(opts, keys) + [Process(Keyed(opts, c), Some(v))]
  }

  function AllTokens(items: seq<Item>): seq<string> {
    if items == [] then [] else Tokens(items[0]) + AllTokens(items[1..])
  }

  predicate AllCanonical(opts: seq<OptionSpec>, items: seq<Item>) {
    forall i :: 0 <= i < |items| ==> Canonical(opts, items[i])
  }

  function AllMeanings(opts: seq<OptionSpec>, items: seq<Item>): seq<Command>
    requires AllCanonical(opts, items)
  {
    if items == [] then [] else Meaning(opts, items[0]) + AllMeanings(opts, items[1..])
  }

  lemma {:induction false} FindNone(s: string, c: char)
    requires c !in s
    ensures Find(s, c) == |s|
  {
    if s == "" {
    } else {
      assert s[0] in s;
      assert forall x :: x in s[1..] ==> x in s;
      FindNone(s[1..], c);
    }
  }

  lemma {:induction false} FindEarlier(s: string, i: nat)
    requires i < |s|
    ensures Find(s, s[i]) <= i
  {
    if s[0] == s[i] {
    } else {
      FindEarlier(s[1..], i - 1);
    }
  }

  /** A long option is found under its name exactly when the name has no equals sign. */
  lemma LongFlagScannedIff(opts: seq<OptionSpec>, ignoreUnknown: bool, o: OptionSpec)
    requires NamedFirst(opts, o)
    ensures Scanned(opts, ignoreUnknown, "--" + o.name) == Token([Process(o, None)], None) <==> '=' !in o.name
  {
    var s := "--" + o.name;
    if '=' in o.name {
      var i :| 0 <= i < |o.name| && o.name[i] == '=';
      assert s[i + 2] == '=';
      FindEarlier(s, i + 2);
    } else {
      FindNone(s, '=');
      assert s[2..] == o.name;
    }
  }

  lemma LongValueScannedIff(opts: seq<OptionSpec>, ignoreUnknown: bool, o: OptionSpec, v: string)
    requires NamedFirst(opts, o)
    ensures Scanned(opts, ignoreUnknown, ("--" + o.name) + ("=" + v)) == Token([Process(o, Some(v))], None)
       <==> '=' !in o.name
  {
    var s := ("--" + o.name) + ("=" + v);
    if '=' in o.name {
      var i :| 0 <= i < |o.name| && o.name[i] == '=';
      assert s[i + 2] == '=';
      FindEarlier(s, i + 2);
      assert |s[Find(s, '=') + 1..]| > |v|;
    } else {
      FindAt("--" + o.name, '=', v);
      assert s == ("--" + o.name) + (['='] + v);
      assert s[2..2 + |o.name|] == o.name && s[2 + |o.name| + 1..] == v;
    }
  }

  lemma ItemScans(opts: seq<OptionSpec>, ignoreUnknown: bool, i: Item, rest: seq<string>)
    requires Canonical(opts, i)
    ensures Scan(opts, ignoreUnknown, Tokens(i) + rest) == Meaning(opts, i) + Scan(opts, ignoreUnknown, rest)
  {
    hide Scan;
    ScanCons(opts, ignoreUnknown, Tokens(i)[0], rest);
    match i
    case LongFlag(o) => LongFlagScannedIff(opts, ignoreUnknown, o);
    case LongValue(o, v) => LongValueScannedIff(opts, ignoreUnknown, o, v);
    case Word(text) =>
    case Keys(keys) => GroupScanned(opts, ignoreUnknown, keys);
    case Attached(keys, c, v) => AttachedScanned(opts, ignoreUnknown, keys, c, v);
    case Separate(keys, c, v) =>
      EndingScanned(opts, ignoreUnknown, keys, c);
      ScanCons(opts, ignoreUnknown, "-" + (keys + [c]), [v] + rest);
      assert Tokens(i) + rest == ["-" + (keys + [c])] + ([v] + rest);
      assert ([v] + rest)[1..] == rest;
      Regroup(FlagCommands(opts, keys), [Process(Keyed(opts, c), Some(v))], Scan(opts, ignoreUnknown, rest));
  }

  /** Scanning a rendered list of items gives back what was rendered, in order. */
  lemma {:induction false} RenderRoundTrip(opts: seq<OptionSpec>, ignoreUnknown: bool, items: seq<Item>)
    requires AllCanonical(opts, items)
    ensures Scan(opts, ignoreUnknown, AllTokens(items)) == AllMeanings(opts, items)
  {
    if items == [] {
    } else {
      assert forall i :: 0 <= i < |items| - 1 ==> items[1..][i] == items[i + 1];
      RenderRoundTrip(opts, ignoreUnknown, items[1..]);
      ItemScans(opts, ignoreUnknown, items[0], AllTokens(items[1..]));
    }
  }

  /* ---- lines that change their meaning ---- */

  /** A required value, an optional one, and two flags. */
  function Sample(): seq<OptionSpec> {
    [OptionSpec('o' as int, "output", Some(Storage(0, None)), None, None),
     OptionSpec('v' as int, "verbose", Some(Storage(1, Some("1"))), None, None),
     OptionSpec('a' as int, "all", None, None, None),
     OptionSpec('b' as int, "brief", None, None, None)]
  }

  lemma SampleKeys()
    ensures First(Sample(), ByKey(KeyOf('o')), 0) == Some(0) && First(Sample(), ByKey(KeyOf('v')), 0) == Some(1)
    ensures First(Sample(), ByKey(KeyOf('a')), 0) == Some(2) && First(Sample(), ByKey(KeyOf('b')), 0) == Some(3)
  {
    var opts := Sample();
    assert First(opts, ByKey('b' as int), 2) == Some(3) && First(opts, ByKey('a' as int), 2) == Some(2);
  }

  lemma OutputWaits()
    ensures Waiting(Sample(), false, ["-o"]) == Some(Sample()[0])
  {
    SampleKeys();
    assert "-o"[2..] == "";
    assert ShortToken(Sample(), false, "-o", 1) == Token([], Some(Sample()[0]));
  }

  /** `-o -ab` is not `-o -a -b`. */
  lemma GroupingCanChangeMeaning()
    ensures Scan(Sample(), false, ["-o"] + (["-ab"] + [])) != Scan(Sample(), false, ["-o"] + (Split("ab") + []))
  {
    hide Scan, Waiting;
    OutputWaits();
    SampleKeys();
    var keys := "ab";
    GroupingIff(Sample(), false, ["-o"], keys, []);
    assert "-" + keys == "-ab";
  }

  /** `-vx` is not `-v x`, as the value of `v` is optional. */
  lemma AttachingCanChangeMeaning()
    ensures Scan(Sample(), false, ["-vx"]) != Scan(Sample(), false, ["-v", "x"])
  {
    hide Scan;
    SampleKeys();
    AttachingIff(Sample(), false, [], "", 'v', "x", []);
    assert "-" + ("" + (['v'] + "x")) == "-vx" && "-" + ("" + ['v']) == "-v";
    assert [] + (["-vx"] + []) == ["-vx"] && [] + (["-v"] + (["x"] + [])) == ["-v", "x"];
  }
}
