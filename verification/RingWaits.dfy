/** Non-blocking calls that wait for ever: runs that lead there, and exactly when there are none. */
module RingWaits {
  import opened Prelude
  import opened RingBlocks
  import opened RingProtocol
  import opened RingInvariant
  import opened RingTheorems
  import opened RingProgress
  import opened RingReach

  /* ---- a producer that no cleanup can wake ---- */

  predicate InRelease(pc: PC) {
    pc.RAssert? || pc.RLock? || pc.RStore? || pc.RUnlock? || pc.RPost?
  }

  /** Thread `t` waits for an item that nobody is releasing. */
  ghost predicate Stranded<T>(c: State<T>, t: Tid) {
    && t in c.threads && c.threads[t].pc == PWaitItem && c.item == 0
    && forall u :: u in c.threads ==> !InRelease(c.threads[u].pc)
  }

  lemma OnlyReleasePostsItems<T>(r: Ring<T>, pc: PC)
    requires Control(r, pc).Some? && !InRelease(pc)
    ensures Control(r, pc).value.1 != Some(ItemSem) && !InRelease(Control(r, pc).value.0)
  {
  }

  lemma StrandedStep<T>(c: State<T>, t: Tid, a: Action<T>)
    requires WellSized(c) && Enabled(c, a) && Next(c, a).Running?
    requires Stranded(c, t) && !a.CallRelease?
    ensures Stranded(Next(c, a).state, t)
  {
    if a.Go? {
      var pc := c.threads[a.tid].pc;
      if Control(c.ring, pc).Some? {
        OnlyReleasePostsItems(c.ring, pc);
      }
    }
  }

  /** Whatever else happens, only a release can wake it. */
  lemma {:induction false} StrandedUntilRelease<T>(c: State<T>, t: Tid, run: seq<Action<T>>)
    requires Stranded(c, t) && Exec(c, run).Running?
    requires forall i :: 0 <= i < |run| ==> !run[i].CallRelease?
    ensures Stranded(Exec(c, run).state, t)
  {
    if run == [] {
    } else {
      var before := run[..|run| - 1];
      StrandedUntilRelease(c, t, before);
      StrandedStep(Exec(c, before).state, t, run[|run| - 1]);
    }
  }

  /** From any state between calls in which the ring is full and nothing is released,
      a produce(false) can come to wait, the slots in consumption can all be cleaned
      up again, and the producer still waits although a slot is free. */
  lemma CleanupDoesNotWakeProducer<T(!new)>(payloads: seq<T>, tids: set<Tid>, p: Policy, c: State<T>,
                                            t: Tid, u: Tid, s: nat)
    requires Reachable(payloads, tids, p, c) && AllIdle(c) && Permits(p, c, CallProduce(t, false))
    requires c.ring.numProduced == c.ring.N() && c.ring.numReleased == 0
    requires t in c.threads && u in c.threads && t != u && s in c.threads[u].consuming
    ensures exists e :: Reachable(payloads, tids, p, e) && Stranded(e, t)
              && e.ring.numProduced == c.ring.N() - 1 && e.free == 1 && e.mutex == 1
  {
    hide Reachable, EndsAlone, Represents, WellSized;
    ReachableMeansInv(payloads, tids, p, c);
    IdleSemaphores(c);
    var w := With(c, c.ring, c.free, c.item, 1, t, PWaitItem);
    ComeToWait(payloads, tids, p, c, t);
    ReachableMeansInv(payloads, tids, p, w);
    CleanupRunsAlone(w, u, s);
    var e := State(ReturnFree(w.ring, s), w.free + 1, w.item, 1,
                   w.threads[u := Thread(Idle, w.threads[u].producing, w.threads[u].consuming - {s})]);
    ReachCall(payloads, tids, p, w, CallCleanup(u, s), e);
    CleanedIsStranded(c, t, u, s);
  }

  lemma CleanedIsStranded<T>(c: State<T>, t: Tid, u: Tid, s: nat)
    requires WellSized(c) && AllIdle(c) && c.item == 0 && t in c.threads && u in c.threads && t != u
    requires s in c.threads[u].consuming && s < c.ring.N()
    ensures var w := With(c, c.ring, c.free, c.item, 1, t, PWaitItem);
            var e := State(ReturnFree(w.ring, s), w.free + 1, w.item, 1,
                           w.threads[u := Thread(Idle, w.threads[u].producing, w.threads[u].consuming - {s})]);
            Stranded(e, t) && e.ring.numProduced == c.ring.numProduced - 1
  {
  }

  lemma ComeToWait<T(!new)>(payloads: seq<T>, tids: set<Tid>, p: Policy, c: State<T>, t: Tid)
    requires Reachable(payloads, tids, p, c) && WellSized(c) && c.mutex == 1 && c.ring.numProduced == c.ring.N()
    requires t in c.threads && c.threads[t].pc == Idle && Permits(p, c, CallProduce(t, false))
    ensures Reachable(payloads, tids, p, With(c, c.ring, c.free, c.item, 1, t, PWaitItem))
  {
    hide Reachable;
    ReachMore(payloads, tids, p, c, CallProduce(t, false), With(c, c.ring, c.free, c.item, 1, t, PLock(false)));
    ReachControl(payloads, tids, p, c, 1, t, PLock(false), PTest(false), None, 0);
    ReachControl(payloads, tids, p, c, 0, t, PTest(false), PUnlockFull, None, 0);
    ReachControl(payloads, tids, p, c, 0, t, PUnlockFull, PWaitItem, Some(MutexSem), 1);
  }

  /** Such a state is reachable for any number of slots, with one producer and one consumer.
      With one slot it is the only one, it is free, and produce(false) waits. */
  lemma ProducerCanBeStranded<T(!new)>(payloads: seq<T>, tids: set<Tid>, t: Tid, u: Tid)
    requires |payloads| >= 1 && t in tids && u in tids && t != u
    ensures exists e :: Reachable(payloads, tids, Takers({u}, {t}), e) && Stranded(e, t)
              && e.ring.numProduced == |payloads| - 1 && e.free == 1
  {
    var c, s := ConsumeMany(payloads, tids, Takers({u}, {t}), t, u, |payloads|);
    CleanupDoesNotWakeProducer(payloads, tids, Takers({u}, {t}), c, t, u, s);
  }

  /* ---- a consume(false) that is left waiting ---- */

  /** Thread `t` waits in a consume(false), and nobody will ever post an item. */
  ghost predicate LeftWaiting<T>(c: State<T>, t: Tid) {
    t in c.threads && c.threads[t].pc == CWaitItem(false) && OnlyWaitersRemain(c)
  }

  lemma ComeToTake<T(!new)>(payloads: seq<T>, tids: set<Tid>, p: Policy, c: State<T>, t: Tid)
    requires Reachable(payloads, tids, p, c) && WellSized(c) && c.mutex == 1 && c.ring.numReleased != 0
    requires t in c.threads && c.threads[t].pc == Idle && t in p.consumers
    ensures Reachable(payloads, tids, p, With(c, c.ring, c.free, c.item, 1, t, CWaitItem(false)))
  {
    hide Reachable;
    ReachMore(payloads, tids, p, c, CallConsume(t, false), With(c, c.ring, c.free, c.item, 1, t, CLock(false)));
    ReachControl(payloads, tids, p, c, 1, t, CLock(false), CTest(false), None, 0);
    ReachControl(payloads, tids, p, c, 0, t, CTest(false), CUnlock(false), None, 0);
    ReachControl(payloads, tids, p, c, 0, t, CUnlock(false), CWaitItem(false), Some(MutexSem), 1);
  }

  /** The emptiness test is stale when the call acts on it: with one item released and
      another thread that consumes, a consume(false) is left waiting on an empty ring. */
  lemma ConsumeFalseCanWait<T(!new)>(payloads: seq<T>, tids: set<Tid>, p: Policy, c: State<T>, t: Tid, u: Tid)
    requires Reachable(payloads, tids, p, c) && AllIdle(c) && c.ring.numReleased == 1
    requires t in c.threads && u in c.threads && t != u && t in p.consumers && u in p.consumers
    ensures exists e :: Reachable(payloads, tids, p, e) && LeftWaiting(e, t) && e.ring.numReleased == 0
  {
    hide Reachable, EndsAlone, Represents, WellSized, LeftWaiting;
    ReachableMeansInv(payloads, tids, p, c);
    IdleSemaphores(c);
    var w := With(c, c.ring, c.free, c.item, 1, t, CWaitItem(false));
    ComeToTake(payloads, tids, p, c, t);
    ReachableMeansInv(payloads, tids, p, w);
    TakeReleasedIsDequeue(c.ring);
    var b := TakeReleased(c.ring);
    var e := Consumes(w, b.ring, w.free, 0, u, b.slot);
    TakesTheOnlyItem(w, u, b, e);
    ReachCall(payloads, tids, p, w, CallConsume(u, false), e);
    LeftBehind(c, t, e);
  }

  /** The taker comes back; everybody else was between calls. */
  lemma LeftBehind<T>(c: State<T>, t: Tid, e: State<T>)
    requires AllIdle(c) && t in c.threads && e.threads.Keys == c.threads.Keys && e.item == 0
    requires e.threads[t].pc == CWaitItem(false)
    requires forall v :: v in e.threads && v != t ==> e.threads[v].pc == Idle
    ensures LeftWaiting(e, t)
  {
  }

  lemma TakesTheOnlyItem<T>(w: State<T>, u: Tid, b: Block<T>, e: State<T>)
    requires u in w.threads && WellSized(w) && w.item == 1 && w.mutex == 1 && w.ring.numReleased == 1
    requires b == TakeReleased(w.ring) && b.Done? && b.ring.Shape() && b.slot < w.ring.N() == b.ring.N()
    requires e == Consumes(w, b.ring, w.free, 0, u, b.slot)
    ensures EndsAlone(At(w, u, CLock(false)), u, e)
  {
    assert At(w, u, CLock(false)) == With(w, w.ring, w.free, 1, 1, u, CLock(false));
    hide EndsAlone;
    ItemPathTakes(w, w.free, 1, u, false, e);
    ConsumingLastStatements(w, w.ring, w.free, 0, u, b);
  }

  /** Overwriting takes an item too: on a full ring with one item released, a produce(false)
      of another thread leaves the consume(false) waiting. */
  lemma OverwritingStealsItem<T(!new)>(payloads: seq<T>, tids: set<Tid>, p: Policy, c: State<T>, t: Tid, u: Tid)
    requires Reachable(payloads, tids, p, c) && AllIdle(c)
    requires c.ring.numReleased == 1 && c.ring.numProduced == c.ring.N()
    requires p.Takers? && t in c.threads && u in c.threads && t != u && t in p.consumers && u in p.overwriters
    ensures exists e :: Reachable(payloads, tids, p, e) && LeftWaiting(e, t) && e.ring.numReleased == 0
  {
    hide Reachable, EndsAlone, Represents, WellSized, LeftWaiting;
    ReachableMeansInv(payloads, tids, p, c);
    IdleSemaphores(c);
    var w := With(c, c.ring, c.free, c.item, 1, t, CWaitItem(false));
    ComeToTake(payloads, tids, p, c, t);
    ReachableMeansInv(payloads, tids, p, w);
    EvictIsTransfer(c.ring);
    var evicted := Evict(c.ring).ring;
    TakeFreeIsDequeue(evicted);
    var b := TakeFree(evicted);
    var e := Produces(w, b.ring, 0, 0, u, b.slot);
    OverwritesTheOnlyItem(w, u, evicted, b, e);
    ReachCall(payloads, tids, p, w, CallProduce(u, false), e);
    LeftBehind(c, t, e);
  }

  lemma OverwritesTheOnlyItem<T>(w: State<T>, u: Tid, evicted: Ring<T>, b: Block<T>, e: State<T>)
    requires u in w.threads && WellSized(w) && w.item == 1 && w.free == 0 && w.mutex == 1
    requires w.ring.numProduced == w.ring.N()
    requires Evict(w.ring).Done? && Evict(w.ring).ring == evicted && evicted.Shape() && evicted.N() == w.ring.N()
    requires b == TakeFree(evicted) && b.Done? && b.ring.Shape() && b.slot < w.ring.N() == b.ring.N()
    requires e == Produces(w, b.ring, 0, 0, u, b.slot)
    ensures EndsAlone(At(w, u, PLock(false)), u, e)
  {
    assert At(w, u, PLock(false)) == With(w, w.ring, 0, 1, 1, u, PLock(false));
    hide EndsAlone, Evict, TakeFree;
    FullPathEvicts(w, 0, 1, u, e);
    EvictingEnds(w, w.ring, 0, 0, u, Evict(w.ring), e);
    TakingEnds(w, evicted, 1, 0, u, false, b);
  }

  /** Both are reachable for any number of slots and any second thread. */
  lemma ConsumerCanWait<T(!new)>(payloads: seq<T>, tids: set<Tid>, p: Policy, t: Tid, u: Tid)
    requires |payloads| >= 1 && t in tids && u in tids && t != u
    requires p.Takers? && t in p.consumers && (u in p.consumers || u in p.overwriters)
    ensures exists e :: Reachable(payloads, tids, p, e) && LeftWaiting(e, t) && e.ring.numReleased == 0
  {
    var k := if u in p.consumers then 1 else |payloads|;
    var c, s := ProduceMany(payloads, tids, p, t, k);
    c := ReleaseOne(payloads, tids, p, c, k, 0, t, s);
    if u in p.consumers {
      ConsumeFalseCanWait(payloads, tids, p, c, t, u);
    } else {
      OverwritingStealsItem(payloads, tids, p, c, t, u);
    }
  }

  /* ---- when it cannot ---- */

  /** Statements of calls that may still take an item. */
  predicate Takes(pc: PC) {
    || pc == PLock(false) || pc == PTest(false) || pc.PUnlockFull? || pc.PWaitItem? || pc.PLockEvict? || pc.PEvict?
    || pc.CLock? || pc.CTest? || pc.CUnlock? || pc.CWaitItem? || pc.CLockTake? || pc.CTake?
  }

  /** Past a test that found an item, in a call that does not block. */
  predicate PastTest(pc: PC) {
    pc == CUnlock(false) || pc == CWaitItem(false)
  }

  /** No other thread takes items, and what the test of thread `t` found is still there. */
  ghost predicate SoleTaker<T>(c: State<T>, t: Tid) {
    && (forall u :: u in c.threads && u != t ==> !Takes(c.threads[u].pc))
    && (t in c.threads && PastTest(c.threads[t].pc) ==> c.ring.numReleased >= 1)
  }

  lemma ControlKeepsOut<T>(r: Ring<T>, pc: PC)
    requires Control(r, pc).Some?
    ensures !Takes(pc) ==> !Takes(Control(r, pc).value.0)
    ensures PastTest(Control(r, pc).value.0) ==> PastTest(pc) || r.numReleased != 0
  {
  }

  /** One statement: other threads stay out, and take nothing. */
  lemma StatementAndTaking<T>(c: State<T>, u: Tid)
    requires WellSized(c) && CanGo(c, u) && Advance(c, u).Running?
    ensures var d := Advance(c, u).state;
            && u in d.threads && d.threads == c.threads[u := d.threads[u]]
            && (!Takes(c.threads[u].pc) ==> !Takes(d.threads[u].pc) && d.ring.numReleased >= c.ring.numReleased)
            && (PastTest(d.threads[u].pc) ==>
                  d.ring == c.ring && (PastTest(c.threads[u].pc) || c.ring.numReleased != 0))
  {
    if Control(c.ring, c.threads[u].pc).Some? {
      ControlKeepsOut(c.ring, c.threads[u].pc);
    }
  }

  lemma SoleTakerStep<T>(c: State<T>, t: Tid, a: Action<T>)
    requires Inv(c) && WellSized(c) && Enabled(c, a) && Next(c, a).Running?
    requires SoleTaker(c, t) && Permits(Takers({t}, {t}), c, a)
    ensures SoleTaker(Next(c, a).state, t)
  {
    hide Represents, WellSized, Ownership, Tokens;
    if a.Go? {
      hide Advance;
      StatementAndTaking(c, a.tid);
    }
  }

  lemma {:induction false} SoleTakerInRuns<T>(payloads: seq<T>, tids: set<Tid>, run: seq<Action<T>>, d: State<T>,
                                              t: Tid)
    requires Reaches(payloads, tids, run, d) && Obeys(Initial(payloads, tids), run, Takers({t}, {t}))
    ensures SoleTaker(d, t)
  {
    hide SoleTaker, Permits, WellSized, Inv, Enabled, Next;
    if run == [] {
      NobodyTakes(payloads, tids, t);
    } else {
      var before, a := run[..|run| - 1], run[|run| - 1];
      var b := Exec(Initial(payloads, tids), before).state;
      SoleTakerInRuns(payloads, tids, before, b, t);
      ReachableInv(payloads, tids, before, b);
      SoleTakerStep(b, t, a);
    }
  }

  lemma NobodyTakes<T>(payloads: seq<T>, tids: set<Tid>, t: Tid)
    ensures SoleTaker(Initial(payloads, tids), t)
  {
  }

  /** If only thread `t` consumes or overwrites, whatever the producers do meanwhile: the item
      its consume(false) found stays until it is taken. The call may wait for a release that is
      under way to post its item, but is never left waiting. */
  lemma SoleTakerFindsItem<T>(payloads: seq<T>, tids: set<Tid>, run: seq<Action<T>>, d: State<T>, t: Tid)
    requires Reaches(payloads, tids, run, d) && Obeys(Initial(payloads, tids), run, Takers({t}, {t})) && t in d.threads
    ensures PastTest(d.threads[t].pc) || d.threads[t].pc.CLockTake? || d.threads[t].pc.CTake? ==>
      d.ring.numReleased >= 1
    ensures d.threads[t].pc == CWaitItem(false) && d.item == 0 ==> Count(d.threads, OwesItem) > 0
    ensures !LeftWaiting(d, t)
  {
    hide Represents, Ownership;
    SoleTakerInRuns(payloads, tids, run, d, t);
    ReachableInv(payloads, tids, run, d);
    if d.threads[t].pc == CWaitItem(false) {
      assert Players(d.threads, HasItemToken) == {};
    }
    if Plays(d.threads[t].pc, HasItemToken) {
      ItemTokenMeansReleased(d, t);
    }
    if LeftWaiting(d, t) {
      NoLostWakeups(payloads, tids, run, d, t);
    }
  }

  lemma {:induction false} ObeysLess<T>(c: State<T>, run: seq<Action<T>>, p: Policy, q: Policy)
    requires p.Takers? && q.Takers? && p.consumers <= q.consumers && p.overwriters <= q.overwriters
    requires Obeys(c, run, p)
    ensures Obeys(c, run, q)
  {
    if run == [] {
    } else {
      ObeysLess(c, run[..|run| - 1], p, q);
    }
  }

  /** The header promises that consume(false) returns null when nothing is available. Thread
      `t` can be left waiting instead if and only if some other thread may call consume() or
      produce(false). */
  lemma ConsumeFalseLeftWaitingIff<T(!new)>(payloads: seq<T>, tids: set<Tid>, p: Policy, t: Tid)
    requires |payloads| >= 1 && p.Takers? && t in tids && t in p.consumers
    requires p.consumers <= tids && p.overwriters <= tids
    ensures (exists d :: Reachable(payloads, tids, p, d) && LeftWaiting(d, t)) <==>
            exists u :: u in p.consumers + p.overwriters && u != t
  {
    if u :| u in p.consumers + p.overwriters && u != t {
      ConsumerCanWait(payloads, tids, p, t, u);
    } else {
      forall d | Reachable(payloads, tids, p, d)
        ensures !LeftWaiting(d, t)
      {
        var run :| Reaches(payloads, tids, run, d) && Obeys(Initial(payloads, tids), run, p);
        assert p.consumers <= {t} && p.overwriters <= {t} by {
          assert forall u :: u in p.consumers || u in p.overwriters ==> u in p.consumers + p.overwriters;
        }
        ObeysLess(Initial(payloads, tids), run, p, Takers({t}, {t}));
        if t in d.threads {
          SoleTakerFindsItem(payloads, tids, run, d, t);
        }
      }
    }
  }
}
