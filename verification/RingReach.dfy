/** Runs of clients that keep to a policy, and states they can reach. */
module RingReach {
  import opened Prelude
  import opened RingBlocks
  import opened RingProtocol
  import opened RingInvariant
  import opened RingTheorems
  import opened RingProgress

  /* ---- who may call what ---- */

  /** With `Takers`, consume() and produce(false) are left to some threads. With `Producers`,
      produce() and consume() are; and, if `rested`, produce(false) is called only while no
      slot is in production or in consumption. */
  datatype Policy =
    | Takers(consumers: set<Tid>, overwriters: set<Tid>)
    | Producers(producers: set<Tid>, consumers: set<Tid>, rested: bool)

  ghost predicate NothingOut<T>(r: Ring<T>) {
    forall s :: 0 <= s < |r.items| ==> !IsOut(PlaceOf(r.items[s]))
  }

  ghost predicate Permits<T>(p: Policy, c: State<T>, a: Action<T>) {
    && (a.CallConsume? ==> a.tid in p.consumers)
    && (a.CallProduce? ==>
          match p
          case Takers(_, overwriters) => a.block || a.tid in overwriters
          case Producers(producers, _, rested) => a.tid in producers && (!a.block && rested ==> NothingOut(c.ring)))
  }

  /** Every action of the run is permitted in the state in which it is taken. */
  ghost predicate Obeys<T>(c: State<T>, run: seq<Action<T>>, p: Policy) {
    if run == [] then true
    else
      var before := run[..|run| - 1];
      && Obeys(c, before, p)
      && (Exec(c, before).Running? ==> Permits(p, Exec(c, before).state, run[|run| - 1]))
  }

  ghost predicate Reachable<T(!new)>(payloads: seq<T>, tids: set<Tid>, p: Policy, d: State<T>) {
    exists run :: Reaches(payloads, tids, run, d) && Obeys(Initial(payloads, tids), run, p)
  }

  lemma ReachStart<T(!new)>(payloads: seq<T>, tids: set<Tid>, p: Policy)
    requires |payloads| >= 1
    ensures Reachable(payloads, tids, p, Initial(payloads, tids))
  {
    var none: seq<Action<T>> := [];
    assert Reaches(payloads, tids, none, Initial(payloads, tids));
  }

  lemma ReachMore<T(!new)>(payloads: seq<T>, tids: set<Tid>, p: Policy, c: State<T>, a: Action<T>, d: State<T>)
    requires Reachable(payloads, tids, p, c) && WellSized(c) && Enabled(c, a) && Next(c, a) == Running(d)
    requires Permits(p, c, a)
    ensures Reachable(payloads, tids, p, d)
  {
    hide WellSized, Enabled, Next, Permits;
    var c0 := Initial(payloads, tids);
    var run :| Reaches(payloads, tids, run, c) && Obeys(c0, run, p);
    ExecSnoc(c0, run, a);
    assert (run + [a])[..|run|] == run;
    assert Reaches(payloads, tids, run + [a], d) && Obeys(c0, run + [a], p);
  }

  /** Statements of running calls are always permitted. */
  lemma {:induction false} ReachAlone<T(!new)>(payloads: seq<T>, tids: set<Tid>, p: Policy, c: State<T>, t: Tid, k: nat)
    requires Reachable(payloads, tids, p, c) && Alone(c, t, k).Running?
    ensures Reachable(payloads, tids, p, Alone(c, t, k).state)
    decreases k
  {
    hide Reachable, WellSized, CanGo, Advance;
    if k == 0 {
    } else {
      var d := Advance(c, t).state;
      assert Enabled(c, Go(t)) by { GoIsEnabled(c, t); }
      ReachMore(payloads, tids, p, c, Go(t), d);
      ReachAlone(payloads, tids, p, d, t, k - 1);
    }
  }

  lemma GoIsEnabled<T>(c: State<T>, t: Tid)
    requires CanGo(c, t)
    ensures Enabled(c, Go(t))
  {
  }

  lemma ReachableMeansInv<T(!new)>(payloads: seq<T>, tids: set<Tid>, p: Policy, c: State<T>)
    requires Reachable(payloads, tids, p, c)
    ensures Inv(c) && WellSized(c)
  {
    hide Inv, WellSized;
    var run :| Reaches(payloads, tids, run, c) && Obeys(Initial(payloads, tids), run, p);
    ReachableInv(payloads, tids, run, c);
  }

  lemma ReachCall<T(!new)>(payloads: seq<T>, tids: set<Tid>, p: Policy, c: State<T>, a: Action<T>, e: State<T>)
    requires Reachable(payloads, tids, p, c) && WellSized(c) && Enabled(c, a) && Next(c, a).Running?
    requires Permits(p, c, a) && EndsAlone(Next(c, a).state, a.tid, e)
    ensures Reachable(payloads, tids, p, e)
  {
    hide Reachable, WellSized, Enabled, Next, Permits;
    ReachMore(payloads, tids, p, c, a, Next(c, a).state);
    var k: nat :| Alone(Next(c, a).state, a.tid, k) == Running(e);
    ReachAlone(payloads, tids, p, Next(c, a).state, a.tid, k);
  }

  lemma ReachControl<T(!new)>(payloads: seq<T>, tids: set<Tid>, p: Policy, c: State<T>, mutex: nat, t: Tid,
                              from: PC, to: PC, posted: Option<Semaphore>, mutex': nat)
    requires t in c.threads && WellSized(c) && InHand(from) == {} && from != Idle
    requires Control(c.ring, from) == Some((to, posted))
    requires Awaits(from).None? || (Awaits(from) == Some(MutexSem) && mutex > 0)
    requires posted.None? || posted == Some(MutexSem)
    requires mutex' == mutex - Bit(Awaits(from) == Some(MutexSem)) + Bit(posted == Some(MutexSem))
    requires Reachable(payloads, tids, p, With(c, c.ring, c.free, c.item, mutex, t, from))
    ensures Reachable(payloads, tids, p, With(c, c.ring, c.free, c.item, mutex', t, to))
  {
    hide Reachable;
    var s, d := With(c, c.ring, c.free, c.item, mutex, t, from), With(c, c.ring, c.free, c.item, mutex', t, to);
    assert WellSized(s) && CanGo(s, t) && Advance(s, t) == Running(d) by {
      ControlAdvances(c, c.ring, c.free, c.item, mutex, t, from, to, posted);
      assert Advance(s, t).state.threads == d.threads;
    }
    ReachMore(payloads, tids, p, s, Go(t), d);
  }

  /* ---- states between calls ---- */

  /** A reachable state between calls, with its counters. */
  ghost predicate Quiet<T(!new)>(payloads: seq<T>, tids: set<Tid>, p: Policy, c: State<T>,
                                 produced: nat, released: nat) {
    && Reachable(payloads, tids, p, c) && AllIdle(c) && c.threads.Keys == tids
    && c.ring.N() == |payloads| && c.ring.numProduced == produced && c.ring.numReleased == released
  }

  lemma QuietStart<T(!new)>(payloads: seq<T>, tids: set<Tid>, p: Policy)
    requires |payloads| >= 1
    ensures Quiet(payloads, tids, p, Initial(payloads, tids), 0, 0)
  {
    ReachStart(payloads, tids, p);
  }

  /** Thread `t` may call produce(true), in any state. */
  predicate MayProduce(p: Policy, t: Tid) {
    p.Takers? || t in p.producers
  }

  lemma ProduceOne<T(!new)>(payloads: seq<T>, tids: set<Tid>, p: Policy, c: State<T>, k: nat, j: nat, t: Tid)
    returns (e: State<T>, s: nat)
    requires Quiet(payloads, tids, p, c, k, j) && k < |payloads| && t in tids && MayProduce(p, t)
    ensures Quiet(payloads, tids, p, e, k + 1, j) && s in e.threads[t].producing
  {
    hide Reachable, EndsAlone, Represents, WellSized;
    ReachableMeansInv(payloads, tids, p, c);
    ProduceRunsAlone(c, t, true);
    TakeFreeIsDequeue(c.ring);
    var b := TakeFree(c.ring);
    s := b.slot;
    e := Produces(c, b.ring, b.ring.N() - b.ring.numProduced, b.ring.numReleased, t, s);
    ReachCall(payloads, tids, p, c, CallProduce(t, true), e);
  }

  lemma ReleaseOne<T(!new)>(payloads: seq<T>, tids: set<Tid>, p: Policy, c: State<T>, k: nat, j: nat, t: Tid, s: nat)
    returns (e: State<T>)
    requires Quiet(payloads, tids, p, c, k, j) && t in tids && s in c.threads[t].producing
    ensures Quiet(payloads, tids, p, e, k, j + 1)
  {
    hide Reachable, EndsAlone, Represents;
    ReachableMeansInv(payloads, tids, p, c);
    IdleSemaphores(c);
    ReleaseRunsAlone(c, t, s);
    e := State(StoreReleased(c.ring, s), c.free, c.item + 1, 1,
               c.threads[t := Thread(Idle, c.threads[t].producing - {s}, c.threads[t].consuming)]);
    ReachCall(payloads, tids, p, c, CallRelease(t, s), e);
  }

  lemma ConsumeOne<T(!new)>(payloads: seq<T>, tids: set<Tid>, p: Policy, c: State<T>, k: nat, j: nat, t: Tid)
    returns (e: State<T>, s: nat)
    requires Quiet(payloads, tids, p, c, k, j) && j > 0 && t in tids && t in p.consumers
    ensures Quiet(payloads, tids, p, e, k, j - 1) && s in e.threads[t].consuming
  {
    hide Reachable, EndsAlone, Represents;
    ReachableMeansInv(payloads, tids, p, c);
    ConsumeRunsAlone(c, t, true);
    TakeReleasedIsDequeue(c.ring);
    var b := TakeReleased(c.ring);
    s := b.slot;
    e := Consumes(c, b.ring, b.ring.N() - b.ring.numProduced, b.ring.numReleased, t, s);
    ReachCall(payloads, tids, p, c, CallConsume(t, true), e);
  }

  /** Thread `t` produces until `k` slots are in production. */
  lemma {:induction false} ProduceMany<T(!new)>(payloads: seq<T>, tids: set<Tid>, p: Policy, t: Tid, k: nat)
    returns (e: State<T>, s: nat)
    requires k <= |payloads| && |payloads| >= 1 && t in tids && MayProduce(p, t)
    ensures Quiet(payloads, tids, p, e, k, 0) && (k > 0 ==> s in e.threads[t].producing)
  {
    if k == 0 {
      QuietStart(payloads, tids, p);
      e, s := Initial(payloads, tids), 0;
    } else {
      hide Quiet;
      e, s := ProduceMany(payloads, tids, p, t, k - 1);
      e, s := ProduceOne(payloads, tids, p, e, k - 1, 0, t);
    }
  }

  /** Thread `t` fills slots, and thread `u` takes them out, until `k` are in consumption. */
  lemma {:induction false} ConsumeMany<T(!new)>(payloads: seq<T>, tids: set<Tid>, p: Policy, t: Tid, u: Tid, k: nat)
    returns (e: State<T>, s: nat)
    requires k <= |payloads| && |payloads| >= 1 && t in tids && MayProduce(p, t) && u in tids && u in p.consumers
    ensures Quiet(payloads, tids, p, e, k, 0) && (k > 0 ==> s in e.threads[u].consuming)
  {
    if k == 0 {
      QuietStart(payloads, tids, p);
      e, s := Initial(payloads, tids), 0;
    } else {
      hide Quiet;
      e, s := ConsumeMany(payloads, tids, p, t, u, k - 1);
      e, s := ProduceOne(payloads, tids, p, e, k - 1, 0, t);
      e := ReleaseOne(payloads, tids, p, e, k, 0, t, s);
      e, s := ConsumeOne(payloads, tids, p, e, k, 1, u);
    }
  }

  /** Thread `t` fills slots and releases them, until `k` are released. */
  lemma {:induction false} FillMany<T(!new)>(payloads: seq<T>, tids: set<Tid>, p: Policy, t: Tid, k: nat)
    returns (e: State<T>)
    requires k <= |payloads| && |payloads| >= 1 && t in tids && MayProduce(p, t)
    ensures Quiet(payloads, tids, p, e, k, k)
  {
    if k == 0 {
      QuietStart(payloads, tids, p);
      e := Initial(payloads, tids);
    } else {
      hide Quiet;
      e := FillMany(payloads, tids, p, t, k - 1);
      var s;
      e, s := ProduceOne(payloads, tids, p, e, k - 1, k - 1, t);
      e := ReleaseOne(payloads, tids, p, e, k, k - 1, t, s);
    }
  }
}
