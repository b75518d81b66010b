/** When threads wait, and what a call does when it runs alone. */
module RingProgress {
  import opened Prelude
  import opened RingBlocks
  import opened RingProtocol
  import opened RingInvariant
  import opened RingTheorems

  /* ---- no lost wakeups ---- */

  /** No thread can take another step inside the ring. */
  ghost predicate OnlyWaitersRemain<T>(c: State<T>) {
    forall t :: t in c.threads ==> !CanGo(c, t)
  }

  lemma NeverWaitsUnderMutex(pc: PC)
    requires Plays(pc, HoldsMutex)
    ensures Awaits(pc) == None
  {
  }

  lemma QuietMutex<T>(c: State<T>)
    requires Inv(c) && OnlyWaitersRemain(c)
    ensures c.mutex == 1
  {
    forall t | t in c.threads
      ensures !Plays(c.threads[t].pc, HoldsMutex)
    {
      if Plays(c.threads[t].pc, HoldsMutex) {
        NeverWaitsUnderMutex(c.threads[t].pc);
      }
    }
    assert Players(c.threads, HoldsMutex) == {};
  }

  lemma RolesWaitForTheMutexOnly(pc: PC, role: Role)
    requires Plays(pc, role)
    ensures pc != Idle && (Awaits(pc).None? || Awaits(pc) == Some(MutexSem))
  {
  }

  lemma QuietRoles<T>(c: State<T>, role: Role)
    requires Inv(c) && OnlyWaitersRemain(c)
    ensures Count(c.threads, role) == 0
  {
    QuietMutex(c);
    forall t | t in c.threads
      ensures !Plays(c.threads[t].pc, role)
    {
      if Plays(c.threads[t].pc, role) {
        RolesWaitForTheMutexOnly(c.threads[t].pc, role);
      }
    }
    assert Players(c.threads, role) == {};
  }

  /** In every reachable state where only waiters remain, every thread inside the
      ring waits on `free` with all slots produced, or on `item` with nothing released. */
  lemma NoLostWakeups<T>(payloads: seq<T>, tids: set<Tid>, run: seq<Action<T>>, d: State<T>, t: Tid)
    requires Reaches(payloads, tids, run, d) && OnlyWaitersRemain(d)
    requires t in d.threads && d.threads[t].pc != Idle
    ensures Awaits(d.threads[t].pc) == Some(FreeSem) || Awaits(d.threads[t].pc) == Some(ItemSem)
    ensures Awaits(d.threads[t].pc) == Some(FreeSem) ==> d.ring.numProduced == d.ring.N()
    ensures Awaits(d.threads[t].pc) == Some(ItemSem) ==> d.ring.numReleased == 0
  {
    ReachableInv(payloads, tids, run, d);
    QuietMutex(d);
    QuietRoles(d, HasItemToken);
    QuietRoles(d, OwesItem);
    QuietRoles(d, HasFreeToken);
    QuietRoles(d, OwesFree);
    assert !CanGo(d, t);
  }

  /** With no slot checked out, producers stuck on `free` and takers stuck on `item`
      cannot coexist. */
  lemma NoMutualStarvation<T>(payloads: seq<T>, tids: set<Tid>, run: seq<Action<T>>, d: State<T>, t: Tid, u: Tid)
    requires Reaches(payloads, tids, run, d) && OnlyWaitersRemain(d)
    requires SlotsAt(d.ring.items, InProduction) == {} && SlotsAt(d.ring.items, InConsumption) == {}
    requires t in d.threads && u in d.threads
    ensures !(Awaits(d.threads[t].pc) == Some(FreeSem) && Awaits(d.threads[u].pc) == Some(ItemSem))
  {
    CountersCount(payloads, tids, run, d);
    if d.threads[t].pc != Idle && d.threads[u].pc != Idle {
      NoLostWakeups(payloads, tids, run, d, t);
      NoLostWakeups(payloads, tids, run, d, u);
    }
  }

  /* ---- a call that runs alone ---- */

  ghost predicate AllIdle<T>(c: State<T>) {
    forall t :: t in c.threads ==> c.threads[t].pc == Idle
  }

  /** Between calls the semaphores show the counters. */
  lemma IdleSemaphores<T>(c: State<T>)
    requires Inv(c) && AllIdle(c)
    ensures c.mutex == 1 && c.item == c.ring.numReleased && c.free == c.ring.N() - c.ring.numProduced
  {
    forall role
      ensures Count(c.threads, role) == 0
    {
      assert Players(c.threads, role) == {};
    }
  }

  /** The state after `k` statements of thread `t`, no other thread running. */
  ghost function Alone<T>(c: State<T>, t: Tid, k: nat): Outcome<T>
    decreases k
  {
    if k == 0 then Running(c)
    else if WellSized(c) && CanGo(c, t) then
      match Advance(c, t)
      case Running(d) => Alone(d, t, k - 1)
      case o => o
    else NotEnabled
  }

  /** Thread `t`, running alone from `c`, leaves the ring in state `e`. */
  ghost predicate EndsAlone<T>(c: State<T>, t: Tid, e: State<T>) {
    t in e.threads && e.threads[t].pc == Idle && exists k :: Alone(c, t, k) == Running(e)
  }

  function Gos<T>(t: Tid, k: nat): seq<Action<T>> {
    seq(k, _ => Go(t))
  }

  /** Running alone is one of the runs of the ring. */
  lemma {:induction false} AloneIsARun<T>(c: State<T>, t: Tid, k: nat)
    ensures Alone(c, t, k) == Exec(c, Gos(t, k))
  {
    AloneIsARunFrom(c, [], t, k);
    var none: seq<Action<T>> := [];
    assert none + Gos(t, k) == Gos(t, k);
  }

  lemma ExecSnoc<T>(c: State<T>, before: seq<Action<T>>, a: Action<T>)
    requires Exec(c, before).Running?
    ensures var d := Exec(c, before).state;
            Exec(c, before + [a]) == if WellSized(d) && Enabled(d, a) then Next(d, a) else NotEnabled
  {
    assert (before + [a])[..|before|] == before;
  }

  lemma {:induction false} AloneIsARunFrom<T>(c: State<T>, before: seq<Action<T>>, t: Tid, k: nat)
    requires Exec(c, before).Running?
    ensures Alone(Exec(c, before).state, t, k) == Exec(c, before + Gos(t, k))
    decreases k
  {
    hide WellSized, Advance;
    var d := Exec(c, before).state;
    if k == 0 {
      assert before + Gos(t, k) == before;
    } else {
      ExecSnoc(c, before, Go(t));
      var go: seq<Action<T>> := [Go(t)];
      var now := before + go;
      var rest: seq<Action<T>> := Gos(t, k - 1);
      assert before + Gos(t, k) == now + rest;
      if WellSized(d) && CanGo(d, t) && Advance(d, t).Running? {
        AloneIsARunFrom(c, now, t, k - 1);
      } else {
        DeadRunsStayDead(c, now, rest);
      }
    }
  }

  lemma {:induction false} DeadRunsStayDead<T>(c: State<T>, run: seq<Action<T>>, more: seq<Action<T>>)
    requires !Exec(c, run).Running?
    ensures Exec(c, run + more) == Exec(c, run)
  {
    if more == [] {
      assert run + more == run;
    } else {
      var all := run + more;
      assert all[..|all| - 1] == run + more[..|more| - 1];
      DeadRunsStayDead(c, run, more[..|more| - 1]);
    }
  }

  lemma EndsStep<T>(c: State<T>, t: Tid, d: State<T>, e: State<T>)
    requires WellSized(c) && CanGo(c, t) && Advance(c, t) == Running(d)
    ensures EndsAlone(c, t, e) <==> EndsAlone(d, t, e)
  {
    if EndsAlone(d, t, e) {
      var k: nat :| Alone(d, t, k) == Running(e);
      assert Alone(c, t, k + 1) == Running(e);
    }
    if EndsAlone(c, t, e) {
      var k: nat :| Alone(c, t, k) == Running(e);
      assert k > 0 && Alone(d, t, k - 1) == Running(e);
    }
  }

  lemma WaitingNeverEnds<T>(c: State<T>, t: Tid, e: State<T>)
    requires t in c.threads && c.threads[t].pc != Idle && !CanGo(c, t)
    ensures !EndsAlone(c, t, e)
  {
    forall k: nat
      ensures Alone(c, t, k).Running? ==> k == 0
    {
    }
  }

  lemma EndedAlready<T>(e: State<T>, t: Tid)
    requires t in e.threads && e.threads[t].pc == Idle
    ensures EndsAlone(e, t, e)
  {
    assert Alone(e, t, 0) == Running(e);
  }

  /** State `c` with other ring, semaphores and program counter of thread `t`. */
  function With<T>(c: State<T>, r: Ring<T>, free: nat, item: nat, mutex: nat, t: Tid, pc: PC): State<T>
    requires t in c.threads
  {
    State(r, free, item, mutex, c.threads[t := c.threads[t].(pc := pc)])
  }

  ghost predicate SameSize<T>(c: State<T>, r: Ring<T>) {
    WellSized(c) && r.Shape() && r.N() == c.ring.N()
  }

  lemma OwnSize<T>(c: State<T>)
    requires WellSized(c)
    ensures SameSize(c, c.ring)
  {
  }

  /** One statement of the control table, as it changes the state. */
  lemma ControlAdvances<T>(c: State<T>, r: Ring<T>, free: nat, item: nat, mutex: nat, t: Tid, from: PC, to: PC,
                           posted: Option<Semaphore>)
    requires t in c.threads && SameSize(c, r) && InBounds(InHand(from), c.ring.N()) && from != Idle
    requires Control(r, from) == Some((to, posted))
    requires Awaits(from).Some? ==> Value(With(c, r, free, item, mutex, t, from), Awaits(from).value) > 0
    ensures var s := With(c, r, free, item, mutex, t, from);
            && WellSized(s) && CanGo(s, t)
            && Advance(s, t) == Running(At(PostIfAny(TakeAwaited(s, from), posted), t, to))
  {
    var s := With(c, r, free, item, mutex, t, from);
    assert WellSized(s);
  }

  /** One statement of the control table changes nothing about where the call ends. */
  lemma Hop<T>(c: State<T>, r: Ring<T>, free: nat, item: nat, mutex: nat, t: Tid, from: PC, to: PC,
               posted: Option<Semaphore>, e: State<T>)
    requires t in c.threads && SameSize(c, r) && InBounds(InHand(from), c.ring.N()) && from != Idle
    requires Control(r, from) == Some((to, posted))
    requires Awaits(from) == Some(FreeSem) ==> free > 0
    requires Awaits(from) == Some(ItemSem) ==> item > 0
    requires Awaits(from) == Some(MutexSem) ==> mutex > 0
    ensures EndsAlone(With(c, r, free, item, mutex, t, from), t, e) <==>
            EndsAlone(With(c, r, free - Bit(Awaits(from) == Some(FreeSem)) + Bit(posted == Some(FreeSem)),
                               item - Bit(Awaits(from) == Some(ItemSem)) + Bit(posted == Some(ItemSem)),
                               mutex - Bit(Awaits(from) == Some(MutexSem)) + Bit(posted == Some(MutexSem)),
                               t, to), t, e)
  {
    hide EndsAlone, WellSized, Advance, CanGo, Control, TakeAwaited, PostIfAny;
    var s := With(c, r, free, item, mutex, t, from);
    var d := With(c, r, free - Bit(Awaits(from) == Some(FreeSem)) + Bit(posted == Some(FreeSem)),
                        item - Bit(Awaits(from) == Some(ItemSem)) + Bit(posted == Some(ItemSem)),
                        mutex - Bit(Awaits(from) == Some(MutexSem)) + Bit(posted == Some(MutexSem)), t, to);
    assert WellSized(s) && CanGo(s, t) && Advance(s, t) == Running(d) by {
      ControlAdvances(c, r, free, item, mutex, t, from, to, posted);
      SemaphoresBySign(s, from, posted);
      assert d.threads == s.threads[t := s.threads[t].(pc := to)];
    }
    EndsStep(s, t, d, e);
  }

  lemma SemaphoresBySign<T>(s: State<T>, from: PC, posted: Option<Semaphore>)
    requires Awaits(from).Some? ==> Value(s, Awaits(from).value) > 0
    ensures var d := PostIfAny(TakeAwaited(s, from), posted);
            && d.ring == s.ring && d.threads == s.threads
            && d.free == s.free - Bit(Awaits(from) == Some(FreeSem)) + Bit(posted == Some(FreeSem))
            && d.item == s.item - Bit(Awaits(from) == Some(ItemSem)) + Bit(posted == Some(ItemSem))
            && d.mutex == s.mutex - Bit(Awaits(from) == Some(MutexSem)) + Bit(posted == Some(MutexSem))
  {
  }

  /** produce() from line 155 on, with a free token to be had. */
  lemma TakingEnds<T>(c: State<T>, r: Ring<T>, free: nat, item: nat, t: Tid, block: bool, b: Block<T>)
    requires t in c.threads && SameSize(c, r) && free > 0
    requires b == TakeFree(r) && b.Done? && b.ring.Shape() && b.slot < c.ring.N() == b.ring.N()
    ensures EndsAlone(With(c, r, free, item, 0, t, PUnlock(block)), t, Produces(c, b.ring, free - 1, item, t, b.slot))
  {
    hide EndsAlone, WellSized, Advance;
    var e := Produces(c, b.ring, free - 1, item, t, b.slot);
    TakingLastStatements(c, r, free - 1, item, t, b);
    Hop(c, r, free - 1, item, 1, t, PLockTake, PTake, None, e);
    Hop(c, r, free, item, 1, t, PWaitFree(block), PLockTake, None, e);
    Hop(c, r, free, item, 0, t, PUnlock(block), PWaitFree(block), Some(MutexSem), e);
  }

  /** The state in which produce() has just handed slot `s` to thread `t`. */
  function Produces<T>(c: State<T>, r: Ring<T>, free: nat, item: nat, t: Tid, s: nat): State<T>
    requires t in c.threads
  {
    State(r, free, item, 1,
          c.threads[t := Thread(Idle, c.threads[t].producing + {s}, c.threads[t].consuming)])
  }

  lemma TakingReturns<T>(c: State<T>, r: Ring<T>, free: nat, item: nat, t: Tid, s: nat)
    requires t in c.threads && SameSize(c, r) && s < r.N()
    ensures EndsAlone(With(c, r, free, item, 0, t, PUnlockTaken(s)), t, Produces(c, r, free, item, t, s))
  {
    hide EndsAlone;
    var e, d := Produces(c, r, free, item, t, s), With(c, r, free, item, 0, t, PUnlockTaken(s));
    EndedAlready(e, t);
    assert WellSized(d);
    assert Advance(d, t) == Running(e);
    EndsStep(d, t, e, e);
  }

  lemma TakingLastStatements<T>(c: State<T>, r: Ring<T>, free: nat, item: nat, t: Tid, b: Block<T>)
    requires t in c.threads && SameSize(c, r)
    requires b == TakeFree(r) && b.Done? && b.ring.Shape() && b.slot < c.ring.N() == b.ring.N()
    ensures EndsAlone(With(c, r, free, item, 0, t, PTake), t, Produces(c, b.ring, free, item, t, b.slot))
  {
    hide EndsAlone, TakeFree, Produces;
    TakingReturns(c, b.ring, free, item, t, b.slot);
    var d := With(c, r, free, item, 0, t, PTake);
    assert WellSized(d);
    assert Advance(d, t) == Running(With(c, b.ring, free, item, 0, t, PUnlockTaken(b.slot)));
    EndsStep(d, t, With(c, b.ring, free, item, 0, t, PUnlockTaken(b.slot)), Produces(c, b.ring, free, item, t, b.slot));
  }

  /** produce() from line 141 to line 155. */
  lemma EvictingEnds<T>(c: State<T>, r: Ring<T>, free: nat, item: nat, t: Tid, b: Block<T>, e: State<T>)
    requires t in c.threads && SameSize(c, r) && b == Evict(r) && b.Done? && SameSize(c, b.ring)
    ensures EndsAlone(With(c, r, free, item, 0, t, PEvict), t, e) <==>
            EndsAlone(With(c, b.ring, free + 1, item, 0, t, PUnlock(false)), t, e)
  {
    hide EndsAlone;
    var s := With(c, r, free, item, 0, t, PEvict);
    var d := With(c, b.ring, free, item, 0, t, PPostFree);
    assert WellSized(s);
    assert Advance(s, t).state.threads == d.threads;
    EndsStep(s, t, d, e);
    Hop(c, b.ring, free, item, 0, t, PPostFree, PUnlock(false), Some(FreeSem), e);
  }

  /** produce(false) on a full ring comes to wait for an item. */
  lemma FullPathWaits<T>(c: State<T>, free: nat, item: nat, t: Tid, e: State<T>)
    requires t in c.threads && WellSized(c) && c.ring.numProduced == c.ring.N()
    ensures EndsAlone(With(c, c.ring, free, item, 1, t, PLock(false)), t, e) <==>
            EndsAlone(With(c, c.ring, free, item, 1, t, PWaitItem), t, e)
    ensures item == 0 ==> !EndsAlone(With(c, c.ring, free, item, 1, t, PLock(false)), t, e)
  {
    hide EndsAlone, WellSized, Advance;
    OwnSize(c);
    Hop(c, c.ring, free, item, 1, t, PLock(false), PTest(false), None, e);
    Hop(c, c.ring, free, item, 0, t, PTest(false), PUnlockFull, None, e);
    Hop(c, c.ring, free, item, 0, t, PUnlockFull, PWaitItem, Some(MutexSem), e);
    if item == 0 {
      WaitingNeverEnds(With(c, c.ring, free, item, 1, t, PWaitItem), t, e);
    }
  }

  /** With an item token to be had, it goes on to evict. */
  lemma FullPathEvicts<T>(c: State<T>, free: nat, item: nat, t: Tid, e: State<T>)
    requires t in c.threads && WellSized(c) && c.ring.numProduced == c.ring.N() && item > 0
    ensures EndsAlone(With(c, c.ring, free, item, 1, t, PLock(false)), t, e) <==>
            EndsAlone(With(c, c.ring, free, item - 1, 0, t, PEvict), t, e)
  {
    hide EndsAlone, WellSized, Advance;
    OwnSize(c);
    FullPathWaits(c, free, item, t, e);
    Hop(c, c.ring, free, item, 1, t, PWaitItem, PLockEvict, None, e);
    Hop(c, c.ring, free, item - 1, 1, t, PLockEvict, PEvict, None, e);
  }

  /** Otherwise produce() ends exactly as it does from line 155. */
  lemma DirectPathEnds<T>(c: State<T>, free: nat, item: nat, t: Tid, block: bool, e: State<T>)
    requires t in c.threads && WellSized(c) && (block || c.ring.numProduced != c.ring.N())
    ensures EndsAlone(With(c, c.ring, free, item, 1, t, PLock(block)), t, e) <==>
            EndsAlone(With(c, c.ring, free, item, 0, t, PUnlock(block)), t, e)
    ensures free == 0 ==> !EndsAlone(With(c, c.ring, free, item, 1, t, PLock(block)), t, e)
  {
    hide EndsAlone, WellSized, Advance;
    OwnSize(c);
    Hop(c, c.ring, free, item, 1, t, PLock(block), PTest(block), None, e);
    Hop(c, c.ring, free, item, 0, t, PTest(block), PUnlock(block), None, e);
    Hop(c, c.ring, free, item, 0, t, PUnlock(block), PWaitFree(block), Some(MutexSem), e);
    if free == 0 {
      WaitingNeverEnds(With(c, c.ring, free, item, 1, t, PWaitFree(block)), t, e);
    }
  }

  lemma IdleWith<T>(c: State<T>, t: Tid, pc: PC)
    requires Inv(c) && AllIdle(c) && t in c.threads
    ensures At(c, t, pc) == With(c, c.ring, c.ring.N() - c.ring.numProduced, c.ring.numReleased, 1, t, pc)
  {
    IdleSemaphores(c);
  }

  /** A produce() that runs alone from a state between calls ends where `ProduceAlone`
      says, and does not end when that waits. */
  lemma ProduceRunsAlone<T>(c: State<T>, t: Tid, block: bool)
    requires Inv(c) && AllIdle(c) && t in c.threads
    ensures match ProduceAlone(c.ring, block)
            case Returns(r, Some(s)) =>
              Valid(r) && r.N() == c.ring.N() &&
              EndsAlone(At(c, t, PLock(block)), t, Produces(c, r, r.N() - r.numProduced, r.numReleased, t, s))
            case Waits => forall e :: !EndsAlone(At(c, t, PLock(block)), t, e)
            case _ => false
  {
    hide EndsAlone, Represents, WellSized, Advance;
    InvIsWellSized(c);
    IdleWith(c, t, PLock(block));
    var r := c.ring;
    var free, item := r.N() - r.numProduced, r.numReleased;
    if !block && r.N() == r.numProduced {
      if item == 0 {
        forall e
          ensures !EndsAlone(At(c, t, PLock(block)), t, e)
        {
          FullPathWaits(c, free, item, t, e);
        }
      } else {
        EvictIsTransfer(r);
        var b := Evict(r);
        TakeFreeIsDequeue(b.ring);
        var b' := TakeFree(b.ring);
        var e := Produces(c, b'.ring, free, item - 1, t, b'.slot);
        FullPathEvicts(c, free, item, t, e);
        EvictingEnds(c, r, free, item - 1, t, b, e);
        TakingEnds(c, b.ring, free + 1, item - 1, t, false, b');
      }
    } else if free == 0 {
      forall e
        ensures !EndsAlone(At(c, t, PLock(block)), t, e)
      {
        DirectPathEnds(c, free, item, t, block, e);
      }
    } else {
      TakeFreeIsDequeue(r);
      var b := TakeFree(r);
      DirectPathEnds(c, free, item, t, block, Produces(c, b.ring, free - 1, item, t, b.slot));
      TakingEnds(c, r, free, item, t, block, b);
    }
  }

  /** The header promises that produce(false) overwrites the oldest item instead of
      waiting. Running alone it finishes if and only if there is a free slot or a
      released item: a ring filled with slots in consumption makes it wait. */
  lemma ProduceWithoutBlockingFinishesIff<T>(payloads: seq<T>, tids: set<Tid>, run: seq<Action<T>>, d: State<T>, t: Tid)
    requires Reaches(payloads, tids, run, d) && AllIdle(d) && t in d.threads
    ensures (exists e :: EndsAlone(At(d, t, PLock(false)), t, e)) <==>
            (d.ring.numProduced < d.ring.N() || d.ring.numReleased > 0)
  {
    ReachableInv(payloads, tids, run, d);
    ProduceRunsAlone(d, t, false);
    if d.ring.numProduced == d.ring.N() && d.ring.numReleased > 0 {
      EvictIsTransfer(d.ring);
    }
  }

  /** Blocking calls finish exactly when there is something for them; consume(false) always does. */
  lemma BlockingCallsFinishIff<T>(payloads: seq<T>, tids: set<Tid>, run: seq<Action<T>>, d: State<T>, t: Tid)
    requires Reaches(payloads, tids, run, d) && AllIdle(d) && t in d.threads
    ensures (exists e :: EndsAlone(At(d, t, PLock(true)), t, e)) <==> d.ring.numProduced < d.ring.N()
    ensures (exists e :: EndsAlone(At(d, t, CLock(true)), t, e)) <==> d.ring.numReleased > 0
    ensures exists e :: EndsAlone(At(d, t, CLock(false)), t, e)
  {
    hide EndsAlone, Represents, WellSized, Ownership, Tokens;
    ReachableInv(payloads, tids, run, d);
    ProduceRunsAlone(d, t, true);
    ConsumeRunsAlone(d, t, true);
    ConsumeRunsAlone(d, t, false);
    if d.ring.numProduced < d.ring.N() {
      TakeFreeIsDequeue(d.ring);
    }
    if d.ring.numReleased > 0 {
      TakeReleasedIsDequeue(d.ring);
    }
  }

  /** A blocking produce drops nothing: what is released stays released. */
  lemma BlockingProduceDropsNothing<T>(r: Ring<T>)
    requires Valid(r)
    ensures match ProduceAlone(r, true)
            case Returns(r1, Some(s)) =>
              && r.numProduced < r.N() && Valid(r1) && ReleasedQ(r1) == ReleasedQ(r)
              && s == FreeQ(r)[0] && Moves(r, r1, s, Free, InProduction)
            case Returns(_, None) => false
            case Waits => r.numProduced == r.N()
            case Aborts => false
  {
    if r.numProduced < r.N() {
      TakeFreeIsDequeue(r);
    }
  }

  /** With no slot checked out, produce(false) always finishes; on a full ring it drops
      exactly the oldest released item and hands its slot to the caller. */
  lemma OverwritesOldest<T>(payloads: seq<T>, tids: set<Tid>, run: seq<Action<T>>, d: State<T>, t: Tid)
    requires Reaches(payloads, tids, run, d) && AllIdle(d) && t in d.threads
    requires SlotsAt(d.ring.items, InProduction) == {} && SlotsAt(d.ring.items, InConsumption) == {}
    ensures exists e :: EndsAlone(At(d, t, PLock(false)), t, e)
    ensures Valid(d.ring) && (d.ring.numProduced == d.ring.N() ==>
              exists e :: EndsAlone(At(d, t, PLock(false)), t, e) && Valid(e.ring)
                && |Pending(d.ring)| > 0 && Pending(e.ring) == Pending(d.ring)[1..]
                && e.threads[t].producing == d.threads[t].producing + {Pending(d.ring)[0].0})
  {
    hide EndsAlone, Represents, WellSized, Inv;
    ReachableInv(payloads, tids, run, d);
    CountersCount(payloads, tids, run, d);
    ProduceRunsAlone(d, t, false);
    if d.ring.numProduced == d.ring.N() {
      FullRingSwapsOldest(d.ring);
      var c := ProduceAlone(d.ring, false);
      var e := Produces(d, c.ring, c.ring.N() - c.ring.numProduced, c.ring.numReleased, t, c.slot.value);
      assert EndsAlone(At(d, t, PLock(false)), t, e);
    }
  }

  lemma FullRingSwapsOldest<T>(r: Ring<T>)
    requires Valid(r) && r.numProduced == r.N() && r.numReleased > 0
    ensures var c := ProduceAlone(r, false);
            && c.Returns? && c.slot == Some(ReleasedQ(r)[0]) && Valid(c.ring)
            && c.ring.numProduced == r.numProduced && Pending(c.ring) == Pending(r)[1..]
  {
    EvictIsTransfer(r);
    var b := Evict(r);
    TakeFreeIsDequeue(b.ring);
    assert FreeQ(r) == [];
  }

  /* ---- consume(), release() and cleanup() alone ---- */

  function Consumes<T>(c: State<T>, r: Ring<T>, free: nat, item: nat, t: Tid, s: nat): State<T>
    requires t in c.threads
  {
    State(r, free, item, 1,
          c.threads[t := Thread(Idle, c.threads[t].producing, c.threads[t].consuming + {s})])
  }

  lemma ConsumingReturns<T>(c: State<T>, r: Ring<T>, free: nat, item: nat, t: Tid, s: nat)
    requires t in c.threads && SameSize(c, r) && s < r.N()
    ensures EndsAlone(With(c, r, free, item, 0, t, CUnlockTaken(s)), t, Consumes(c, r, free, item, t, s))
  {
    hide EndsAlone;
    var e, d := Consumes(c, r, free, item, t, s), With(c, r, free, item, 0, t, CUnlockTaken(s));
    EndedAlready(e, t);
    assert WellSized(d);
    assert Advance(d, t) == Running(e);
    EndsStep(d, t, e, e);
  }

  lemma ConsumingLastStatements<T>(c: State<T>, r: Ring<T>, free: nat, item: nat, t: Tid, b: Block<T>)
    requires t in c.threads && SameSize(c, r)
    requires b == TakeReleased(r) && b.Done? && b.ring.Shape() && b.slot < c.ring.N() == b.ring.N()
    ensures EndsAlone(With(c, r, free, item, 0, t, CTake), t, Consumes(c, b.ring, free, item, t, b.slot))
  {
    hide EndsAlone, TakeReleased, Consumes;
    ConsumingReturns(c, b.ring, free, item, t, b.slot);
    var d := With(c, r, free, item, 0, t, CTake);
    assert WellSized(d);
    assert Advance(d, t) == Running(With(c, b.ring, free, item, 0, t, CUnlockTaken(b.slot)));
    EndsStep(d, t, With(c, b.ring, free, item, 0, t, CUnlockTaken(b.slot)), Consumes(c, b.ring, free, item, t, b.slot));
  }

  lemma EmptyPathEnds<T>(c: State<T>, free: nat, item: nat, t: Tid)
    requires t in c.threads && WellSized(c) && c.ring.numReleased == 0
    ensures EndsAlone(With(c, c.ring, free, item, 1, t, CLock(false)), t, With(c, c.ring, free, item, 1, t, Idle))
  {
    hide EndsAlone, WellSized, Advance;
    OwnSize(c);
    var e := With(c, c.ring, free, item, 1, t, Idle);
    EndedAlready(e, t);
    Hop(c, c.ring, free, item, 0, t, CUnlockEmpty, Idle, Some(MutexSem), e);
    Hop(c, c.ring, free, item, 0, t, CTest(false), CUnlockEmpty, None, e);
    Hop(c, c.ring, free, item, 1, t, CLock(false), CTest(false), None, e);
  }

  lemma ItemPathWaits<T>(c: State<T>, free: nat, item: nat, t: Tid, block: bool, e: State<T>)
    requires t in c.threads && WellSized(c) && (block || c.ring.numReleased != 0)
    ensures EndsAlone(With(c, c.ring, free, item, 1, t, CLock(block)), t, e) <==>
            EndsAlone(With(c, c.ring, free, item, 1, t, CWaitItem(block)), t, e)
    ensures item == 0 ==> !EndsAlone(With(c, c.ring, free, item, 1, t, CLock(block)), t, e)
  {
    hide EndsAlone, WellSized, Advance;
    OwnSize(c);
    Hop(c, c.ring, free, item, 1, t, CLock(block), CTest(block), None, e);
    Hop(c, c.ring, free, item, 0, t, CTest(block), CUnlock(block), None, e);
    Hop(c, c.ring, free, item, 0, t, CUnlock(block), CWaitItem(block), Some(MutexSem), e);
    if item == 0 {
      WaitingNeverEnds(With(c, c.ring, free, item, 1, t, CWaitItem(block)), t, e);
    }
  }

  lemma ItemPathTakes<T>(c: State<T>, free: nat, item: nat, t: Tid, block: bool, e: State<T>)
    requires t in c.threads && WellSized(c) && (block || c.ring.numReleased != 0) && item > 0
    ensures EndsAlone(With(c, c.ring, free, item, 1, t, CLock(block)), t, e) <==>
            EndsAlone(With(c, c.ring, free, item - 1, 0, t, CTake), t, e)
  {
    hide EndsAlone, WellSized, Advance;
    OwnSize(c);
    ItemPathWaits(c, free, item, t, block, e);
    Hop(c, c.ring, free, item, 1, t, CWaitItem(block), CLockTake, None, e);
    Hop(c, c.ring, free, item - 1, 1, t, CLockTake, CTake, None, e);
  }

  /** A consume() that runs alone ends where `ConsumeAlone` says. In particular
      consume(false) always ends, and returns null exactly when nothing is released. */
  lemma ConsumeRunsAlone<T>(c: State<T>, t: Tid, block: bool)
    requires Inv(c) && AllIdle(c) && t in c.threads
    ensures match ConsumeAlone(c.ring, block)
            case Returns(r, None) => !block && r == c.ring && EndsAlone(At(c, t, CLock(block)), t, c)
            case Returns(r, Some(s)) =>
              Valid(r) && r.N() == c.ring.N() &&
              EndsAlone(At(c, t, CLock(block)), t, Consumes(c, r, r.N() - r.numProduced, r.numReleased, t, s))
            case Waits => block && c.ring.numReleased == 0 && forall e :: !EndsAlone(At(c, t, CLock(block)), t, e)
            case Aborts => false
  {
    hide EndsAlone, Represents;
    InvIsWellSized(c);
    var r := c.ring;
    var free, item := r.N() - r.numProduced, r.numReleased;
    IdleSemaphores(c);
    assert At(c, t, CLock(block)) == With(c, r, free, item, 1, t, CLock(block));
    if item == 0 {
      if block {
        forall e
          ensures !EndsAlone(At(c, t, CLock(block)), t, e)
        {
          ItemPathWaits(c, free, item, t, block, e);
        }
      } else {
        assert c.threads[t := c.threads[t].(pc := Idle)] == c.threads;
        assert With(c, r, free, item, 1, t, Idle) == c;
        EmptyPathEnds(c, free, item, t);
      }
    } else {
      TakeReleasedIsDequeue(r);
      var b := TakeReleased(r);
      ItemPathTakes(c, free, item, t, block, Consumes(c, b.ring, free, item - 1, t, b.slot));
      ConsumingLastStatements(c, r, free, item - 1, t, b);
    }
  }

  /** release() and cleanup() never wait when they run alone, whatever the other threads wait for. */
  lemma ReleaseRunsAlone<T>(c: State<T>, t: Tid, s: nat)
    requires Inv(c) && c.mutex == 1 && t in c.threads && c.threads[t].pc == Idle && s in c.threads[t].producing
    ensures WellSized(c) && s < c.ring.N() && Enabled(c, CallRelease(t, s))
    ensures var r := StoreReleased(c.ring, s);
            EndsAlone(Next(c, CallRelease(t, s)).state, t,
              State(r, c.free, c.item + 1, 1,
                    c.threads[t := Thread(Idle, c.threads[t].producing - {s}, c.threads[t].consuming)]))
  {
    InvIsWellSized(c);
    var r := StoreReleased(c.ring, s);
    assert s < c.ring.N() && PlaceOf(c.ring.items[s]) == InProduction && r.Shape() && r.N() == c.ring.N() by {
      assert HoldsAt(c.threads[t], s, InProduction);
      StoreReleasedIsEnqueue(c.ring, s);
    }
    ReleaseCallStatements(c, t, s, r);
  }

  lemma ReleaseCallStatements<T>(c: State<T>, t: Tid, s: nat, r: Ring<T>)
    requires WellSized(c) && c.mutex == 1 && t in c.threads && c.threads[t].pc == Idle && s in c.threads[t].producing
    requires s < c.ring.N() && PlaceOf(c.ring.items[s]) == InProduction
    requires r == StoreReleased(c.ring, s) && r.Shape() && r.N() == c.ring.N()
    ensures EndsAlone(Next(c, CallRelease(t, s)).state, t,
              State(r, c.free, c.item + 1, 1,
                    c.threads[t := Thread(Idle, c.threads[t].producing - {s}, c.threads[t].consuming)]))
  {
    var c0 := c.(threads := c.threads[t := Thread(Idle, c.threads[t].producing - {s}, c.threads[t].consuming)]);
    assert WellSized(c0);
    assert Next(c, CallRelease(t, s)).state.threads == With(c0, c.ring, c.free, c.item, 1, t, RAssert(s)).threads;
    ReleaseStatements(c0, t, s, r);
  }

  lemma ReleaseStatements<T>(c: State<T>, t: Tid, s: nat, r: Ring<T>)
    requires t in c.threads && WellSized(c) && c.threads[t].pc == Idle && s < c.ring.N()
    requires PlaceOf(c.ring.items[s]) == InProduction && r == StoreReleased(c.ring, s) && SameSize(c, r)
    ensures EndsAlone(With(c, c.ring, c.free, c.item, 1, t, RAssert(s)), t, State(r, c.free, c.item + 1, 1, c.threads))
  {
    hide EndsAlone, WellSized, Advance, StoreReleased;
    var e := State(r, c.free, c.item + 1, 1, c.threads);
    ReleaseLastStatements(c, t, r);
    ReleaseBlock(c, t, s, r);
    EndsStep(With(c, c.ring, c.free, c.item, 0, t, RStore(s)), t, With(c, r, c.free, c.item, 0, t, RUnlock), e);
    OwnSize(c);
    Hop(c, c.ring, c.free, c.item, 1, t, RLock(s), RStore(s), None, e);
    ReleaseAsserts(c, t, s);
    EndsStep(With(c, c.ring, c.free, c.item, 1, t, RAssert(s)), t, With(c, c.ring, c.free, c.item, 1, t, RLock(s)), e);
  }

  lemma ReleaseAsserts<T>(c: State<T>, t: Tid, s: nat)
    requires t in c.threads && WellSized(c) && s < c.ring.N() && PlaceOf(c.ring.items[s]) == InProduction
    ensures var c1 := With(c, c.ring, c.free, c.item, 1, t, RAssert(s));
            var c2 := With(c, c.ring, c.free, c.item, 1, t, RLock(s));
            WellSized(c1) && CanGo(c1, t) && Advance(c1, t) == Running(c2)
  {
    var c1 := With(c, c.ring, c.free, c.item, 1, t, RAssert(s));
    assert WellSized(c1);
    assert Advance(c1, t).state.threads == With(c, c.ring, c.free, c.item, 1, t, RLock(s)).threads;
  }

  lemma ReleaseBlock<T>(c: State<T>, t: Tid, s: nat, r: Ring<T>)
    requires t in c.threads && WellSized(c) && s < c.ring.N() && r == StoreReleased(c.ring, s)
    ensures var c3 := With(c, c.ring, c.free, c.item, 0, t, RStore(s));
            && WellSized(c3) && CanGo(c3, t) && Advance(c3, t) == Running(With(c, r, c.free, c.item, 0, t, RUnlock))
  {
    var c3 := With(c, c.ring, c.free, c.item, 0, t, RStore(s));
    assert WellSized(c3) && Advance(c3, t).state.threads == With(c, r, c.free, c.item, 0, t, RUnlock).threads;
  }

  lemma ReleaseLastStatements<T>(c: State<T>, t: Tid, r: Ring<T>)
    requires t in c.threads && SameSize(c, r) && c.threads[t].pc == Idle
    ensures EndsAlone(With(c, r, c.free, c.item, 0, t, RUnlock), t, State(r, c.free, c.item + 1, 1, c.threads))
  {
    var e := State(r, c.free, c.item + 1, 1, c.threads);
    assert c.threads[t := c.threads[t].(pc := Idle)] == c.threads;
    assert With(c, r, c.free, c.item + 1, 1, t, Idle) == e;
    EndedAlready(e, t);
    Hop(c, r, c.free, c.item, 1, t, RPost, Idle, Some(ItemSem), e);
    Hop(c, r, c.free, c.item, 0, t, RUnlock, RPost, Some(MutexSem), e);
  }

  lemma CleanupRunsAlone<T>(c: State<T>, t: Tid, s: nat)
    requires Inv(c) && c.mutex == 1 && t in c.threads && c.threads[t].pc == Idle && s in c.threads[t].consuming
    ensures WellSized(c) && s < c.ring.N() && Enabled(c, CallCleanup(t, s))
    ensures var r := ReturnFree(c.ring, s);
            EndsAlone(Next(c, CallCleanup(t, s)).state, t,
              State(r, c.free + 1, c.item, 1,
                    c.threads[t := Thread(Idle, c.threads[t].producing, c.threads[t].consuming - {s})]))
  {
    InvIsWellSized(c);
    var r := ReturnFree(c.ring, s);
    assert s < c.ring.N() && PlaceOf(c.ring.items[s]) == InConsumption && r.Shape() && r.N() == c.ring.N() by {
      assert HoldsAt(c.threads[t], s, InConsumption);
      ReturnFreeIsEnqueue(c.ring, s);
    }
    CleanupCallStatements(c, t, s, r);
  }

  lemma CleanupCallStatements<T>(c: State<T>, t: Tid, s: nat, r: Ring<T>)
    requires WellSized(c) && c.mutex == 1 && t in c.threads && c.threads[t].pc == Idle && s in c.threads[t].consuming
    requires s < c.ring.N() && PlaceOf(c.ring.items[s]) == InConsumption
    requires r == ReturnFree(c.ring, s) && r.Shape() && r.N() == c.ring.N()
    ensures EndsAlone(Next(c, CallCleanup(t, s)).state, t,
              State(r, c.free + 1, c.item, 1,
                    c.threads[t := Thread(Idle, c.threads[t].producing, c.threads[t].consuming - {s})]))
  {
    var c0 := c.(threads := c.threads[t := Thread(Idle, c.threads[t].producing, c.threads[t].consuming - {s})]);
    assert WellSized(c0);
    assert Next(c, CallCleanup(t, s)).state.threads == With(c0, c.ring, c.free, c.item, 1, t, KAssert(s)).threads;
    CleanupStatements(c0, t, s, r);
  }

  lemma CleanupStatements<T>(c: State<T>, t: Tid, s: nat, r: Ring<T>)
    requires t in c.threads && WellSized(c) && c.threads[t].pc == Idle && s < c.ring.N()
    requires PlaceOf(c.ring.items[s]) == InConsumption && r == ReturnFree(c.ring, s) && SameSize(c, r)
    ensures EndsAlone(With(c, c.ring, c.free, c.item, 1, t, KAssert(s)), t, State(r, c.free + 1, c.item, 1, c.threads))
  {
    hide EndsAlone, WellSized, Advance, ReturnFree;
    var e := State(r, c.free + 1, c.item, 1, c.threads);
    CleanupLastStatements(c, t, r);
    CleanupBlock(c, t, s, r);
    EndsStep(With(c, c.ring, c.free, c.item, 0, t, KReturn(s)), t, With(c, r, c.free, c.item, 0, t, KUnlock), e);
    OwnSize(c);
    Hop(c, c.ring, c.free, c.item, 1, t, KLock(s), KReturn(s), None, e);
    CleanupAsserts(c, t, s);
    EndsStep(With(c, c.ring, c.free, c.item, 1, t, KAssert(s)), t, With(c, c.ring, c.free, c.item, 1, t, KLock(s)), e);
  }

  lemma CleanupAsserts<T>(c: State<T>, t: Tid, s: nat)
    requires t in c.threads && WellSized(c) && s < c.ring.N() && PlaceOf(c.ring.items[s]) == InConsumption
    ensures var c1 := With(c, c.ring, c.free, c.item, 1, t, KAssert(s));
            var c2 := With(c, c.ring, c.free, c.item, 1, t, KLock(s));
            WellSized(c1) && CanGo(c1, t) && Advance(c1, t) == Running(c2)
  {
    var c1 := With(c, c.ring, c.free, c.item, 1, t, KAssert(s));
    assert WellSized(c1);
    assert Advance(c1, t).state.threads == With(c, c.ring, c.free, c.item, 1, t, KLock(s)).threads;
  }

  lemma CleanupBlock<T>(c: State<T>, t: Tid, s: nat, r: Ring<T>)
    requires t in c.threads && WellSized(c) && s < c.ring.N() && r == ReturnFree(c.ring, s)
    ensures var c3 := With(c, c.ring, c.free, c.item, 0, t, KReturn(s));
            && WellSized(c3) && CanGo(c3, t) && Advance(c3, t) == Running(With(c, r, c.free, c.item, 0, t, KUnlock))
  {
    var c3 := With(c, c.ring, c.free, c.item, 0, t, KReturn(s));
    assert WellSized(c3) && Advance(c3, t).state.threads == With(c, r, c.free, c.item, 0, t, KUnlock).threads;
  }

  lemma CleanupLastStatements<T>(c: State<T>, t: Tid, r: Ring<T>)
    requires t in c.threads && SameSize(c, r) && c.threads[t].pc == Idle
    ensures EndsAlone(With(c, r, c.free, c.item, 0, t, KUnlock), t, State(r, c.free + 1, c.item, 1, c.threads))
  {
    var e := State(r, c.free + 1, c.item, 1, c.threads);
    assert c.threads[t := c.threads[t].(pc := Idle)] == c.threads;
    assert With(c, r, c.free + 1, c.item, 1, t, Idle) == e;
    EndedAlready(e, t);
    Hop(c, r, c.free, c.item, 1, t, KPost, Idle, Some(FreeSem), e);
    Hop(c, r, c.free, c.item, 0, t, KUnlock, KPost, Some(MutexSem), e);
  }
}
