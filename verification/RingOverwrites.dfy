/** Exactly when a produce(false), which should overwrite instead of waiting, is left waiting. */
module RingOverwrites {
  import opened Prelude
  import opened RingBlocks
  import opened RingProtocol
  import opened RingInvariant
  import opened RingTheorems
  import opened RingProgress
  import opened RingReach
  import opened RingWaits

  /** Thread `t` waits in a produce(false), and nobody will ever post what it waits for. */
  ghost predicate ProducerLeft<T>(c: State<T>, t: Tid) {
    t in c.threads && (c.threads[t].pc == PWaitItem || c.threads[t].pc == PWaitFree(false)) && OnlyWaitersRemain(c)
  }

  /* ---- slots checked out before the call ---- */

  /** A ring full of slots in production makes produce(false) wait, whoever else runs. */
  lemma UnreleasedSlotsStrand<T(!new)>(payloads: seq<T>, tids: set<Tid>, p: Policy, t: Tid)
    requires |payloads| >= 1 && p.Producers? && t in tids && t in p.producers && !p.rested
    ensures exists e :: Reachable(payloads, tids, p, e) && ProducerLeft(e, t) && e.ring.numReleased == 0
  {
    var c, _ := ProduceMany(payloads, tids, p, t, |payloads|);
    hide Reachable, Represents;
    ReachableMeansInv(payloads, tids, p, c);
    IdleSemaphores(c);
    ComeToWait(payloads, tids, p, c, t);
    OnlyWaiterLeft(c, With(c, c.ring, c.free, c.item, 1, t, PWaitItem), t);
  }

  lemma OnlyWaiterLeft<T>(c: State<T>, e: State<T>, t: Tid)
    requires AllIdle(c) && t in c.threads && e.threads.Keys == c.threads.Keys
    requires forall v :: v in e.threads && v != t ==> e.threads[v].pc == Idle
    requires (e.threads[t].pc == PWaitItem && e.item == 0) || (e.threads[t].pc == PWaitFree(false) && e.free == 0)
    ensures ProducerLeft(e, t)
  {
  }

  /* ---- a second taker ---- */

  /** Thread `t` waits for an item in produce(false), every other thread is between calls, and
      of the slots `k` are released and the others free. */
  ghost predicate Draining<T(!new)>(payloads: seq<T>, tids: set<Tid>, p: Policy, c: State<T>, t: Tid, k: nat) {
    && Reachable(payloads, tids, p, c) && c.threads.Keys == tids && t in tids && c.threads[t].pc == PWaitItem
    && (forall v :: v in tids && v != t ==> c.threads[v].pc == Idle)
    && c.mutex == 1 && c.item == c.ring.numReleased == c.ring.numProduced == k && c.free == c.ring.N() - k
  }

  /** A consume() of thread `u` beside others that stand still. */
  lemma ConsumesBeside<T>(w: State<T>, u: Tid) returns (e: State<T>, s: nat)
    requires Inv(w) && WellSized(w) && u in w.threads && w.threads[u].pc == Idle
    requires w.mutex == 1 && w.item == w.ring.numReleased > 0
    ensures TakeReleased(w.ring).Done? && e == Consumes(w, TakeReleased(w.ring).ring, w.free, w.item - 1, u, s)
    ensures e.ring.numReleased == w.ring.numReleased - 1 && e.ring.numProduced == w.ring.numProduced
    ensures e.ring.N() == w.ring.N() && EndsAlone(At(w, u, CLock(true)), u, e)
  {
    hide EndsAlone, Represents, WellSized;
    TakeReleasedIsDequeue(w.ring);
    var b := TakeReleased(w.ring);
    s := b.slot;
    e := Consumes(w, b.ring, w.free, w.item - 1, u, s);
    assert At(w, u, CLock(true)) == With(w, w.ring, w.free, w.item, 1, u, CLock(true));
    ItemPathTakes(w, w.free, w.item, u, true, e);
    OwnSize(w);
    ConsumingLastStatements(w, w.ring, w.free, w.item - 1, u, b);
  }

  lemma DrainOne<T(!new)>(payloads: seq<T>, tids: set<Tid>, p: Policy, c: State<T>, t: Tid, u: Tid, k: nat)
    returns (d: State<T>)
    requires Draining(payloads, tids, p, c, t, k) && k > 0 && u in tids && u != t && u in p.consumers
    ensures Draining(payloads, tids, p, d, t, k - 1)
  {
    hide Reachable, EndsAlone, Represents, WellSized, Inv, TakeReleased;
    ReachableMeansInv(payloads, tids, p, c);
    var e, s := ConsumesBeside(c, u);
    ReachCall(payloads, tids, p, c, CallConsume(u, true), e);
    ReachableMeansInv(payloads, tids, p, e);
    CleanupRunsAlone(e, u, s);
    d := State(ReturnFree(e.ring, s), e.free + 1, e.item, 1,
               e.threads[u := Thread(Idle, e.threads[u].producing, e.threads[u].consuming - {s})]);
    ReachCall(payloads, tids, p, e, CallCleanup(u, s), d);
  }

  lemma {:induction false} DrainAll<T(!new)>(payloads: seq<T>, tids: set<Tid>, p: Policy, c: State<T>,
                                             t: Tid, u: Tid, k: nat) returns (d: State<T>)
    requires Draining(payloads, tids, p, c, t, k) && u in tids && u != t && u in p.consumers
    ensures Draining(payloads, tids, p, d, t, 0)
    decreases k
  {
    if k == 0 {
      d := c;
    } else {
      hide Draining;
      d := DrainOne(payloads, tids, p, c, t, u, k);
      d := DrainAll(payloads, tids, p, d, t, u, k - 1);
    }
  }

  /** With every slot released none is out. */
  lemma AllReleased<T>(r: Ring<T>)
    requires Valid(r)
    ensures r.numReleased == r.numProduced <==> NothingOut(r)
  {
    hide Represents;
    Conservation(r);
    var made, used := SlotsAt(r.items, InProduction), SlotsAt(r.items, InConsumption);
    if r.numReleased == r.numProduced {
      assert made == {} && used == {};
      forall s | 0 <= s < |r.items|
        ensures !IsOut(PlaceOf(r.items[s]))
      {
        assert s !in made && s !in used;
      }
    } else {
      assert made != {} || used != {};
    }
  }

  lemma ComeToOverwrite<T(!new)>(payloads: seq<T>, tids: set<Tid>, p: Policy, c: State<T>, t: Tid)
    returns (w: State<T>)
    requires |payloads| >= 1 && p.Producers? && t in tids && t in p.producers
    requires Quiet(payloads, tids, p, c, |payloads|, |payloads|)
    ensures Draining(payloads, tids, p, w, t, |payloads|)
  {
    hide Reachable, Represents, WellSized, EndsAlone;
    ReachableMeansInv(payloads, tids, p, c);
    IdleSemaphores(c);
    AllReleased(c.ring);
    ComeToWait(payloads, tids, p, c, t);
    w := With(c, c.ring, c.free, c.item, 1, t, PWaitItem);
  }

  /** The full test is stale when the call acts on it. On a ring with every slot released and
      none checked out produce(false) goes to overwrite; another thread takes and cleans every
      item first; and the producer waits for ever on an empty ring. */
  lemma DrainedRingStrands<T(!new)>(payloads: seq<T>, tids: set<Tid>, p: Policy, t: Tid, u: Tid)
    requires |payloads| >= 1 && p.Producers? && t in tids && u in tids && t != u
    requires t in p.producers && u in p.consumers
    ensures exists e :: Reachable(payloads, tids, p, e) && ProducerLeft(e, t) && Stranded(e, t)
              && e.ring.numProduced == 0
  {
    hide Quiet, Reachable;
    var c := FillMany(payloads, tids, p, t, |payloads|);
    var w := ComeToOverwrite(payloads, tids, p, c, t);
    var e := DrainAll(payloads, tids, p, w, t, u, |payloads|);
    assert ProducerLeft(e, t) && Stranded(e, t);
  }

  /* ---- a second producer ---- */

  lemma ComeToFree<T(!new)>(payloads: seq<T>, tids: set<Tid>, p: Policy, c: State<T>, t: Tid)
    requires Reachable(payloads, tids, p, c) && WellSized(c) && c.mutex == 1 && c.ring.numProduced != c.ring.N()
    requires t in c.threads && c.threads[t].pc == Idle && Permits(p, c, CallProduce(t, false))
    ensures Reachable(payloads, tids, p, With(c, c.ring, c.free, c.item, 1, t, PWaitFree(false)))
  {
    hide Reachable;
    ReachMore(payloads, tids, p, c, CallProduce(t, false), With(c, c.ring, c.free, c.item, 1, t, PLock(false)));
    ReachControl(payloads, tids, p, c, 1, t, PLock(false), PTest(false), None, 0);
    ReachControl(payloads, tids, p, c, 0, t, PTest(false), PUnlock(false), None, 0);
    ReachControl(payloads, tids, p, c, 0, t, PUnlock(false), PWaitFree(false), Some(MutexSem), 1);
  }

  /** A produce(true) of thread `u` beside others that stand still. */
  lemma ProducesBeside<T>(w: State<T>, u: Tid) returns (e: State<T>)
    requires Inv(w) && WellSized(w) && u in w.threads && w.threads[u].pc == Idle
    requires w.mutex == 1 && w.free == w.ring.N() - w.ring.numProduced > 0
    ensures TakeFree(w.ring).Done?
    ensures e == Produces(w, TakeFree(w.ring).ring, w.free - 1, w.item, u, TakeFree(w.ring).slot)
    ensures EndsAlone(At(w, u, PLock(true)), u, e)
  {
    hide EndsAlone, Represents, WellSized;
    TakeFreeIsDequeue(w.ring);
    var b := TakeFree(w.ring);
    e := Produces(w, b.ring, w.free - 1, w.item, u, b.slot);
    assert At(w, u, PLock(true)) == With(w, w.ring, w.free, w.item, 1, u, PLock(true));
    DirectPathEnds(w, w.free, w.item, u, true, e);
    OwnSize(w);
    TakingEnds(w, w.ring, w.free, w.item, u, true, b);
  }

  lemma StolenFrom<T>(c: State<T>, t: Tid, u: Tid, r: Ring<T>, item: nat, s: nat)
    requires AllIdle(c) && t in c.threads && u in c.threads && t != u
    ensures ProducerLeft(Produces(With(c, c.ring, c.free, c.item, 1, t, PWaitFree(false)), r, 0, item, u, s), t)
  {
    OnlyWaiterLeft(c, Produces(With(c, c.ring, c.free, c.item, 1, t, PWaitFree(false)), r, 0, item, u, s), t);
  }

  /** A second producer takes the last free slot behind the test, and the call waits for a slot. */
  lemma LastSlotStolen<T(!new)>(payloads: seq<T>, tids: set<Tid>, p: Policy, t: Tid, u: Tid)
    requires |payloads| >= 1 && p.Producers? && t in tids && u in tids && t != u
    requires t in p.producers && u in p.producers
    ensures exists e :: Reachable(payloads, tids, p, e) && ProducerLeft(e, t)
  {
    hide Reachable, Represents, EndsAlone, WellSized, TakeFree, ProducerLeft;
    var c := FillMany(payloads, tids, p, t, |payloads| - 1);
    ReachableMeansInv(payloads, tids, p, c);
    IdleSemaphores(c);
    AllReleased(c.ring);
    ComeToFree(payloads, tids, p, c, t);
    var w := With(c, c.ring, c.free, c.item, 1, t, PWaitFree(false));
    ReachableMeansInv(payloads, tids, p, w);
    var e := ProducesBeside(w, u);
    ReachCall(payloads, tids, p, w, CallProduce(u, true), e);
    StolenFrom(c, t, u, TakeFree(w.ring).ring, w.item, TakeFree(w.ring).slot);
  }

  /* ---- when it is not left waiting ---- */

  /** Outside produce() and consume(). */
  predicate Outside(pc: PC) {
    pc.Idle? || pc.RAssert? || pc.RLock? || pc.RStore? || pc.RUnlock? || pc.RPost?
    || pc.KAssert? || pc.KLock? || pc.KReturn? || pc.KUnlock? || pc.KPost? || pc.QLock? || pc.QRead? || pc.QUnlock?
  }

  predicate BeforeEviction(pc: PC) {
    pc == PLock(false) || pc == PTest(false) || pc.PUnlockFull? || pc.PWaitItem?
  }

  predicate PastFullTest(pc: PC) {
    pc.PUnlockFull? || pc.PWaitItem?
  }

  predicate BeforeTaking(pc: PC) {
    pc.PPostFree? || pc == PUnlock(false) || pc == PWaitFree(false)
  }

  ghost predicate RestedProducer<T>(c: State<T>, t: Tid) {
    && (forall u :: u in c.threads && u != t ==> Outside(c.threads[u].pc))
    && (t in c.threads ==> Rested(c.ring, c.threads[t].pc))
  }

  /** What the producer relies on in its produce(false). */
  ghost predicate Rested<T>(r: Ring<T>, pc: PC) {
    && (BeforeEviction(pc) ==> NothingOut(r))
    && (PastFullTest(pc) ==> r.numProduced == r.N())
    && (BeforeTaking(pc) ==> r.numProduced < r.N())
  }

  lemma StoringStaysOutside<T>(c: State<T>, u: Tid)
    requires WellSized(c) && CanGo(c, u) && (c.threads[u].pc.RStore? || c.threads[u].pc.KReturn?)
    ensures Advance(c, u).Running?
    ensures var d := Advance(c, u).state;
            && u in d.threads && d.threads == c.threads[u := d.threads[u]] && Outside(d.threads[u].pc)
            && d.ring.N() == c.ring.N() && d.ring.numProduced <= c.ring.numProduced
  {
  }

  /** Outside calls lead outside, and of the blocks they run only storing and returning. */
  lemma OutsideStaysOutside<T>(c: State<T>, u: Tid)
    requires WellSized(c) && CanGo(c, u) && Advance(c, u).Running? && Outside(c.threads[u].pc)
    ensures var pc, d := c.threads[u].pc, Advance(c, u).state;
            && u in d.threads && d.threads == c.threads[u := d.threads[u]] && Outside(d.threads[u].pc)
            && d.ring.N() == c.ring.N() && d.ring.numProduced <= c.ring.numProduced
            && (!pc.RStore? && !pc.KReturn? ==> d.ring == c.ring)
  {
    hide WellSized;
    if c.threads[u].pc.RStore? || c.threads[u].pc.KReturn? {
      StoringStaysOutside(c, u);
    } else {
      OutsideBlocksRingUnchanged(c, u);
    }
  }

  /** Who stores or returns a slot has one out. */
  lemma CarriedIsOut<T>(c: State<T>, u: Tid)
    requires Inv(c) && u in c.threads && (c.threads[u].pc.RStore? || c.threads[u].pc.KReturn?)
    ensures !NothingOut(c.ring)
  {
    hide Valid, Tokens;
    var pc := c.threads[u].pc;
    assert HoldsAt(c.threads[u], pc.slot, if pc.RStore? then InProduction else InConsumption);
  }

  lemma PastTestIsBeforeEviction(pc: PC)
    ensures PastFullTest(pc) ==> BeforeEviction(pc)
  {
  }

  /** Another thread stays outside, and changes nothing that the producer relies on. */
  lemma OtherStatement<T>(c: State<T>, u: Tid, pc: PC)
    requires Inv(c) && WellSized(c) && CanGo(c, u) && Advance(c, u).Running? && Outside(c.threads[u].pc)
    requires Rested(c.ring, pc)
    ensures var d := Advance(c, u).state;
            && u in d.threads && d.threads == c.threads[u := d.threads[u]]
            && Outside(d.threads[u].pc) && Rested(d.ring, pc)
  {
    OutsideStaysOutside(c, u);
    var now := c.threads[u].pc;
    if now.RStore? || now.KReturn? {
      CarriedIsOut(c, u);
      PastTestIsBeforeEviction(pc);
    }
    hide Inv, WellSized, Advance, CanGo, Outside, NothingOut, BeforeEviction, PastFullTest;
  }

  lemma ControlKeepsRested<T>(r: Ring<T>, pc: PC)
    requires Control(r, pc).Some? && Rested(r, pc) && r.numProduced <= r.N()
    ensures Rested(r, Control(r, pc).value.0)
  {
    hide NothingOut;
  }

  /** Where a statement of thread `t` leads. */
  lemma WhereItLeads<T>(c: State<T>, t: Tid)
    requires WellSized(c) && CanGo(c, t) && Advance(c, t).Running?
    ensures var pc, d := c.threads[t].pc, Advance(c, t).state;
            && t in d.threads && d.threads == c.threads[t := d.threads[t]]
            && var to := d.threads[t].pc;
            if Control(c.ring, pc).Some? then d.ring == c.ring && to == Control(c.ring, pc).value.0
            else if pc.PEvict? then
              to == PPostFree && d.ring.numProduced == c.ring.numProduced - 1 && d.ring.N() == c.ring.N()
            else !BeforeEviction(to) && !PastFullTest(to) && !BeforeTaking(to)
  {
  }

  lemma ProducerStatement<T>(c: State<T>, t: Tid)
    requires Inv(c) && WellSized(c) && CanGo(c, t) && Advance(c, t).Running? && Rested(c.ring, c.threads[t].pc)
    ensures var d := Advance(c, t).state;
            t in d.threads && d.threads == c.threads[t := d.threads[t]] && Rested(d.ring, d.threads[t].pc)
  {
    assert c.ring.numProduced <= c.ring.N();
    hide Inv, WellSized, CanGo, Advance, Control, NothingOut;
    WhereItLeads(c, t);
    if Control(c.ring, c.threads[t].pc).Some? {
      ControlKeepsRested(c.ring, c.threads[t].pc);
    }
  }

  lemma WritingMovesNothing<T>(r: Ring<T>, s: nat, v: T, pc: PC)
    requires s < r.N() && Rested(r, pc)
    ensures Rested(WritePayload(r, s, v), pc)
  {
  }

  lemma RestedStep<T>(c: State<T>, t: Tid, consumers: set<Tid>, a: Action<T>)
    requires Inv(c) && WellSized(c) && Enabled(c, a) && Next(c, a).Running?
    requires RestedProducer(c, t) && consumers <= {t} && Permits(Producers({t}, consumers, true), c, a)
    ensures RestedProducer(Next(c, a).state, t)
  {
    hide Represents, Ownership, Tokens, Rested;
    if a.Go? {
      hide Advance;
      if a.tid == t {
        ProducerStatement(c, t);
      } else if t in c.threads {
        OtherStatement(c, a.tid, c.threads[t].pc);
      } else {
        NobodyRelies(c.ring);
        OtherStatement(c, a.tid, Idle);
      }
    } else if a.Write? {
      if t in c.threads {
        WritingMovesNothing(c.ring, a.slot, a.value, c.threads[t].pc);
      }
    } else {
      CallsAreRested(c, t, a);
    }
  }

  lemma NobodyRelies<T>(r: Ring<T>)
    ensures Rested(r, Idle)
  {
  }

  /** A call that starts relies at most on nothing being out. */
  lemma CallsAreRested<T>(c: State<T>, t: Tid, a: Action<T>)
    requires WellSized(c) && Enabled(c, a) && !a.Go? && !a.Write?
    requires a.CallProduce? && !a.block ==> NothingOut(c.ring)
    requires t in c.threads ==> Rested(c.ring, c.threads[t].pc)
    ensures var d := Next(c, a).state;
            d.ring == c.ring && d.threads.Keys == c.threads.Keys && (t in d.threads ==> Rested(d.ring, d.threads[t].pc))
  {
    hide NothingOut, WellSized;
  }

  lemma {:induction false} RestedInRuns<T>(payloads: seq<T>, tids: set<Tid>, consumers: set<Tid>,
                                           run: seq<Action<T>>, d: State<T>, t: Tid)
    requires Reaches(payloads, tids, run, d) && consumers <= {t}
    requires Obeys(Initial(payloads, tids), run, Producers({t}, consumers, true))
    ensures RestedProducer(d, t)
  {
    hide RestedProducer, Permits, WellSized, Inv, Enabled, Next;
    if run == [] {
      NobodyProduces(payloads, tids, t);
    } else {
      var before, a := run[..|run| - 1], run[|run| - 1];
      var b := Exec(Initial(payloads, tids), before).state;
      RestedInRuns(payloads, tids, consumers, before, b, t);
      ReachableInv(payloads, tids, before, b);
      RestedStep(b, t, consumers, a);
    }
  }

  lemma NobodyProduces<T>(payloads: seq<T>, tids: set<Tid>, t: Tid)
    ensures RestedProducer(Initial(payloads, tids), t)
  {
  }

  /** If thread `t` alone produces, nobody else consumes, and no slot is out when it calls
      produce(false), then that call is never left waiting, whatever the other threads do. */
  lemma RestedProducerReturns<T>(payloads: seq<T>, tids: set<Tid>, consumers: set<Tid>,
                                 run: seq<Action<T>>, d: State<T>, t: Tid)
    requires Reaches(payloads, tids, run, d) && consumers <= {t}
    requires Obeys(Initial(payloads, tids), run, Producers({t}, consumers, true))
    ensures t in d.threads && PastFullTest(d.threads[t].pc) ==> d.ring.numReleased == d.ring.N()
    ensures !ProducerLeft(d, t)
  {
    hide Inv, NothingOut, Rested, WellSized, Plays;
    RestedInRuns(payloads, tids, consumers, run, d, t);
    ReachableInv(payloads, tids, run, d);
    if t in d.threads {
      ReliesOnReleased(d, d.threads[t].pc);
    }
    if ProducerLeft(d, t) {
      NoLostWakeups(payloads, tids, run, d, t);
    }
  }

  lemma ReliesOnReleased<T>(c: State<T>, pc: PC)
    requires Inv(c) && Rested(c.ring, pc)
    ensures c.ring.N() > 0
    ensures PastFullTest(pc) ==> c.ring.numReleased == c.ring.N()
    ensures pc == PWaitFree(false) ==> c.ring.numProduced < c.ring.N()
  {
    hide Represents, Tokens, Ownership;
    PastTestIsBeforeEviction(pc);
    AllReleased(c.ring);
  }

  lemma {:induction false} SmallerPolicy<T>(c: State<T>, run: seq<Action<T>>, p: Policy, t: Tid)
    requires p.Producers? && p.producers <= {t} && p.rested && Obeys(c, run, p)
    ensures Obeys(c, run, Producers({t}, p.consumers, true))
  {
    if run == [] {
    } else {
      SmallerPolicy(c, run[..|run| - 1], p, t);
    }
  }

  /** The header promises that produce(false) overwrites instead of waiting, and that a single
      producer is never blocked. Thread `t` can be left waiting in it if and only if it may call
      it while a slot is out, or some other thread may produce or consume. */
  lemma ProduceFalseLeftWaitingIff<T(!new)>(payloads: seq<T>, tids: set<Tid>, p: Policy, t: Tid)
    requires |payloads| >= 1 && p.Producers? && t in tids && t in p.producers
    requires p.producers <= tids && p.consumers <= tids
    ensures (exists d :: Reachable(payloads, tids, p, d) && ProducerLeft(d, t)) <==>
            !p.rested || exists u :: u in p.producers + p.consumers && u != t
  {
    if !p.rested {
      UnreleasedSlotsStrand(payloads, tids, p, t);
    } else if u :| u in p.producers + p.consumers && u != t {
      if u in p.consumers {
        DrainedRingStrands(payloads, tids, p, t, u);
      } else {
        LastSlotStolen(payloads, tids, p, t, u);
      }
    } else {
      assert p.producers <= {t} && p.consumers <= {t} by {
        assert forall u :: u in p.producers || u in p.consumers ==> u in p.producers + p.consumers;
      }
      forall d | Reachable(payloads, tids, p, d)
        ensures !ProducerLeft(d, t)
      {
        var run :| Reaches(payloads, tids, run, d) && Obeys(Initial(payloads, tids), run, p);
        SmallerPolicy(Initial(payloads, tids), run, p, t);
        RestedProducerReturns(payloads, tids, p.consumers, run, d, t);
      }
    }
  }
}
