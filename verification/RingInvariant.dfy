/** The invariant of the concurrent ring and its preservation by every step. */
module RingInvariant {
  import opened Prelude
  import opened RingBlocks
  import opened RingProtocol

  /* ---- who owes what to the semaphores ---- */

  datatype Role = HoldsMutex | HasItemToken | OwesItem | HasFreeToken | OwesFree

  predicate Plays(pc: PC, role: Role) {
    match role
    case HoldsMutex =>
      (pc.PTest? || pc.PUnlockFull? || pc.PEvict? || pc.PPostFree? || pc.PUnlock? || pc.PTake?
       || pc.PUnlockTaken? || pc.RStore? || pc.RUnlock? || pc.CTest? || pc.CUnlockEmpty? || pc.CUnlock?
       || pc.CTake? || pc.CUnlockTaken? || pc.KReturn? || pc.KUnlock? || pc.QRead? || pc.QUnlock?)
    case HasItemToken => pc.PLockEvict? || pc.PEvict? || pc.CLockTake? || pc.CTake?
    case OwesItem => pc.RUnlock? || pc.RPost?
    case HasFreeToken => pc.PLockTake? || pc.PTake?
    case OwesFree => pc.PPostFree? || pc.KUnlock? || pc.KPost?
  }

  ghost function Players(threads: map<Tid, Thread>, role: Role): set<Tid> {
    set t | t in threads && Plays(threads[t].pc, role)
  }

  ghost function Count(threads: map<Tid, Thread>, role: Role): nat {
    |Players(threads, role)|
  }

  function Weight(pc: PC, role: Role): int {
    if Plays(pc, role) then 1 else 0
  }

  function Delta(was: PC, now: PC, role: Role): int {
    Weight(now, role) - Weight(was, role)
  }

  lemma CountUpdate(threads: map<Tid, Thread>, t: Tid, th: Thread, role: Role)
    requires t in threads
    ensures Count(threads[t := th], role) == Count(threads, role) + Delta(threads[t].pc, th.pc, role)
  {
    var rest := Players(threads, role) - {t};
    assert Players(threads, role) == if Plays(threads[t].pc, role) then rest + {t} else rest;
    assert Players(threads[t := th], role) == if Plays(th.pc, role) then rest + {t} else rest;
  }

  lemma CountsUpdate(threads: map<Tid, Thread>, t: Tid, th: Thread)
    requires t in threads
    ensures forall role :: Count(threads[t := th], role) == Count(threads, role) + Delta(threads[t].pc, th.pc, role)
  {
    forall role {
      CountUpdate(threads, t, th, role);
    }
  }

  lemma CountPositive(threads: map<Tid, Thread>, t: Tid, role: Role)
    requires t in threads && Plays(threads[t].pc, role)
    ensures Count(threads, role) >= 1
  {
    assert t in Players(threads, role);
  }

  /** Semaphore values plus tokens in transit equal the counters. */
  ghost predicate Tokens<T>(c: State<T>) {
    && c.mutex + Count(c.threads, HoldsMutex) == 1
    && c.ring.numReleased == c.item + Count(c.threads, HasItemToken) + Count(c.threads, OwesItem)
    && c.ring.N() - c.ring.numProduced
       == c.free + Count(c.threads, HasFreeToken) + Count(c.threads, OwesFree)
  }

  /* ---- who holds which slot ---- */

  /** The slot that a running call carries, if it is in place `p`. */
  function Carried(pc: PC, p: Place): set<nat> {
    if (p == InProduction && (pc.PUnlockTaken? || pc.RAssert? || pc.RLock? || pc.RStore?))
    || (p == InConsumption && (pc.CUnlockTaken? || pc.KAssert? || pc.KLock? || pc.KReturn?))
    then InHand(pc) else {}
  }

  function Making(th: Thread): set<nat> {
    th.producing + Carried(th.pc, InProduction)
  }

  function Using(th: Thread): set<nat> {
    th.consuming + Carried(th.pc, InConsumption)
  }

  /** The places of slots that some thread holds. */
  predicate IsOut(p: Place) {
    p == InProduction || p == InConsumption
  }

  /** A slot carried by a running call is not also in the client's hands. */
  predicate HandsApart(th: Thread) {
    Carried(th.pc, InProduction) !! th.producing && Carried(th.pc, InConsumption) !! th.consuming
  }

  ghost predicate Held(threads: map<Tid, Thread>, s: nat, p: Place) {
    exists t :: t in threads && HoldsAt(threads[t], s, p)
  }

  predicate HoldsAt(th: Thread, s: nat, p: Place) {
    (p == InProduction && s in Making(th)) || (p == InConsumption && s in Using(th))
  }

  ghost predicate Ownership<T>(items: seq<Item<T>>, threads: map<Tid, Thread>) {
    && (forall t :: t in threads ==> HandsApart(threads[t]))
    && (forall t, s: nat, p :: t in threads && HoldsAt(threads[t], s, p) ==>
          s < |items| && PlaceOf(items[s]) == p)
    && (forall t, u, s: nat, p | t in threads && u in threads ::
          HoldsAt(threads[t], s, p) && HoldsAt(threads[u], s, p) ==> t == u)
    && (forall s :: 0 <= s < |items| && IsOut(PlaceOf(items[s])) ==>
          Held(threads, s, PlaceOf(items[s])))
  }

  ghost predicate Inv<T>(c: State<T>) {
    && Valid(c.ring)
    && Tokens(c)
    && Ownership(c.ring.items, c.threads)
  }

  lemma InvIsWellSized<T>(c: State<T>)
    requires Inv(c)
    ensures WellSized(c)
  {
    forall t | t in c.threads
      ensures InBounds(c.threads[t].producing, c.ring.N())
      ensures InBounds(c.threads[t].consuming, c.ring.N())
      ensures InBounds(InHand(c.threads[t].pc), c.ring.N())
    {
      var th := c.threads[t];
      assert forall s :: s in th.producing ==> HoldsAt(th, s, InProduction);
      assert forall s :: s in th.consuming ==> HoldsAt(th, s, InConsumption);
      assert forall s :: s in InHand(th.pc) ==> HoldsAt(th, s, InProduction) || HoldsAt(th, s, InConsumption);
    }
  }

  /* ---- ownership is kept ---- */

  /** A step that moves no slot. */
  lemma OwnershipUnmoved<T>(items: seq<Item<T>>, threads: map<Tid, Thread>, t: Tid, th: Thread, items': seq<Item<T>>)
    requires Ownership(items, threads) && t in threads
    requires |items'| == |items|
    requires forall x :: 0 <= x < |items| ==> PlaceOf(items'[x]) == PlaceOf(items[x])
    requires Making(th) == Making(threads[t]) && Using(th) == Using(threads[t]) && HandsApart(th)
    ensures Ownership(items', threads[t := th])
  {
    var threads' := threads[t := th];
    assert forall u, s: nat, p :: u in threads ==> (HoldsAt(threads'[u], s, p) <==> HoldsAt(threads[u], s, p));
    forall s | 0 <= s < |items| && IsOut(PlaceOf(items'[s]))
      ensures Held(threads', s, PlaceOf(items'[s]))
    {
      var p := PlaceOf(items[s]);
      var u :| u in threads && HoldsAt(threads[u], s, p);
      assert HoldsAt(threads'[u], s, p);
    }
  }

  /** A step in which thread `t` moves slot `x`, which no other thread holds. */
  lemma OwnershipMoved<T>(items: seq<Item<T>>, threads: map<Tid, Thread>, t: Tid, th: Thread,
                          items': seq<Item<T>>, x: nat)
    requires Ownership(items, threads) && t in threads
    requires |items'| == |items| && x < |items|
    requires forall s :: 0 <= s < |items| && s != x ==> PlaceOf(items'[s]) == PlaceOf(items[s])
    requires forall s: nat, p :: s != x ==> (HoldsAt(th, s, p) <==> HoldsAt(threads[t], s, p))
    requires forall p :: HoldsAt(th, x, p) <==> (p == PlaceOf(items'[x]) && IsOut(p))
    requires HoldsAt(threads[t], x, PlaceOf(items[x])) || !IsOut(PlaceOf(items[x]))
    requires HandsApart(th)
    ensures Ownership(items', threads[t := th])
  {
    var threads' := threads[t := th];
    forall u, p | u in threads && u != t
      ensures !HoldsAt(threads[u], x, p)
    {
    }
    forall s | 0 <= s < |items| && IsOut(PlaceOf(items'[s]))
      ensures Held(threads', s, PlaceOf(items'[s]))
    {
      if s == x {
        assert HoldsAt(threads'[t], x, PlaceOf(items'[x]));
      } else {
        var p := PlaceOf(items[s]);
        var u :| u in threads && HoldsAt(threads[u], s, p);
        assert HoldsAt(threads'[u], s, p);
      }
    }
  }

  /* ---- the initial state ---- */

  lemma InitialInv<T>(payloads: seq<T>, tids: set<Tid>)
    requires |payloads| >= 1
    ensures Inv(Initial(payloads, tids))
  {
    var c := Initial(payloads, tids);
    InitialIsValid(payloads);
    forall role
      ensures Count(c.threads, role) == 0
    {
      assert Players(c.threads, role) == {};
    }
    assert forall t, s: nat, p :: t in c.threads ==> !HoldsAt(c.threads[t], s, p);
  }

  /* ---- every step ---- */

  /** Statements outside the five blocks: they move the program counter of one
      thread and perhaps one semaphore, in step with the thread's roles. */
  ghost predicate PlainStep<T>(c: State<T>, t: Tid, c': State<T>) {
    && t in c.threads && t in c'.threads
    && var was, th := c.threads[t], c'.threads[t];
    && c'.ring == c.ring && c'.threads == c.threads[t := th]
    && Making(th) == Making(was) && Using(th) == Using(was) && (HandsApart(was) ==> HandsApart(th))
    && c'.mutex == c.mutex - Delta(was.pc, th.pc, HoldsMutex)
    && c'.item == c.item - Delta(was.pc, th.pc, HasItemToken) - Delta(was.pc, th.pc, OwesItem)
    && c'.free == c.free - Delta(was.pc, th.pc, HasFreeToken) - Delta(was.pc, th.pc, OwesFree)
  }

  lemma PlainStepPreserves<T>(c: State<T>, t: Tid, c': State<T>)
    requires Inv(c) && PlainStep(c, t, c')
    ensures Inv(c')
  {
    CountsUpdate(c.threads, t, c'.threads[t]);
    OwnershipUnmoved(c.ring.items, c.threads, t, c'.threads[t], c.ring.items);
  }

  /** The five blocks: under the mutex, thread `t` moves slot `x` between places. */
  ghost predicate BlockStep<T>(c: State<T>, t: Tid, c': State<T>, x: nat, from: Place, to: Place) {
    && t in c.threads && t in c'.threads
    && var was, th := c.threads[t], c'.threads[t];
    && c'.threads == c.threads[t := th]
    && c'.mutex == c.mutex && c'.item == c.item && c'.free == c.free
    && Moves(c.ring, c'.ring, x, from, to)
    && (forall s: nat, p :: s != x ==> (HoldsAt(th, s, p) <==> HoldsAt(was, s, p)))
    && (forall p :: HoldsAt(th, x, p) <==> (p == to && IsOut(p)))
    && (HoldsAt(was, x, from) || !IsOut(from))
    && (HandsApart(was) ==> HandsApart(th))
    && Delta(was.pc, th.pc, HoldsMutex) == 0
    && c'.ring.numReleased - c.ring.numReleased
       == Delta(was.pc, th.pc, HasItemToken) + Delta(was.pc, th.pc, OwesItem)
    && c.ring.numProduced - c'.ring.numProduced
       == Delta(was.pc, th.pc, HasFreeToken) + Delta(was.pc, th.pc, OwesFree)
  }

  lemma BlockStepPreserves<T>(c: State<T>, t: Tid, c': State<T>, x: nat, from: Place, to: Place)
    requires Inv(c) && Valid(c'.ring) && BlockStep(c, t, c', x, from, to)
    ensures Inv(c')
  {
    CountsUpdate(c.threads, t, c'.threads[t]);
    OwnershipMoved(c.ring.items, c.threads, t, c'.threads[t], c'.ring.items, x);
  }

  /** A thread holding an item token finds a released slot. */
  lemma ItemTokenMeansReleased<T>(c: State<T>, t: Tid)
    requires Inv(c) && t in c.threads && Plays(c.threads[t].pc, HasItemToken)
    ensures c.ring.numReleased >= 1
  {
    CountPositive(c.threads, t, HasItemToken);
  }

  /** A thread holding a free token finds a free slot. */
  lemma FreeTokenMeansFree<T>(c: State<T>, t: Tid)
    requires Inv(c) && t in c.threads && Plays(c.threads[t].pc, HasFreeToken)
    ensures c.ring.numProduced < c.ring.N()
  {
    CountPositive(c.threads, t, HasFreeToken);
  }

  lemma NotHeldUnlessOut<T>(c: State<T>, t: Tid, x: nat)
    requires Inv(c) && t in c.threads && x < c.ring.N()
    requires !IsOut(PlaceOf(c.ring.items[x]))
    ensures !HoldsAt(c.threads[t], x, InProduction) && !HoldsAt(c.threads[t], x, InConsumption)
  {
  }

  lemma EvictIsBlockStep<T>(c: State<T>, t: Tid, b: Block<T>)
    requires WellSized(c) && CanGo(c, t) && c.threads[t].pc.PEvict? && b == Evict(c.ring) && b.Done?
    requires Moves(c.ring, b.ring, b.slot, Released, Free)
    requires !HoldsAt(c.threads[t], b.slot, InProduction) && !HoldsAt(c.threads[t], b.slot, InConsumption)
    requires b.ring.numProduced == c.ring.numProduced - 1 && b.ring.numReleased == c.ring.numReleased - 1
    ensures Advance(c, t).Running? && Advance(c, t).state.ring == b.ring
    ensures BlockStep(c, t, Advance(c, t).state, b.slot, Released, Free)
  {
  }

  lemma EvictPreserves<T>(c: State<T>, t: Tid)
    requires Inv(c) && WellSized(c) && CanGo(c, t) && c.threads[t].pc.PEvict?
    ensures Advance(c, t).Running? && Inv(Advance(c, t).state)
  {
    ItemTokenMeansReleased(c, t);
    EvictIsTransfer(c.ring);
    var b := Evict(c.ring);
    NotHeldUnlessOut(c, t, b.slot);
    EvictIsBlockStep(c, t, b);
    BlockStepPreserves(c, t, Advance(c, t).state, b.slot, Released, Free);
  }

  lemma TakeIsBlockStep<T>(c: State<T>, t: Tid, b: Block<T>)
    requires WellSized(c) && CanGo(c, t) && c.threads[t].pc.PTake? && b == TakeFree(c.ring) && b.Done?
    requires Moves(c.ring, b.ring, b.slot, Free, InProduction)
    requires !HoldsAt(c.threads[t], b.slot, InProduction) && !HoldsAt(c.threads[t], b.slot, InConsumption)
    requires b.ring.numProduced == c.ring.numProduced + 1 && b.ring.numReleased == c.ring.numReleased + 0
    ensures Advance(c, t).Running? && Advance(c, t).state.ring == b.ring
    ensures BlockStep(c, t, Advance(c, t).state, b.slot, Free, InProduction)
  {
  }

  lemma TakePreserves<T>(c: State<T>, t: Tid)
    requires Inv(c) && WellSized(c) && CanGo(c, t) && c.threads[t].pc.PTake?
    ensures Advance(c, t).Running? && Inv(Advance(c, t).state)
  {
    FreeTokenMeansFree(c, t);
    TakeFreeIsDequeue(c.ring);
    var b := TakeFree(c.ring);
    NotHeldUnlessOut(c, t, b.slot);
    TakeIsBlockStep(c, t, b);
    BlockStepPreserves(c, t, Advance(c, t).state, b.slot, Free, InProduction);
  }

  lemma ConsumeIsBlockStep<T>(c: State<T>, t: Tid, b: Block<T>)
    requires WellSized(c) && CanGo(c, t) && c.threads[t].pc.CTake? && b == TakeReleased(c.ring) && b.Done?
    requires Moves(c.ring, b.ring, b.slot, Released, InConsumption)
    requires !HoldsAt(c.threads[t], b.slot, InProduction) && !HoldsAt(c.threads[t], b.slot, InConsumption)
    requires b.ring.numProduced == c.ring.numProduced + 0 && b.ring.numReleased == c.ring.numReleased - 1
    ensures Advance(c, t).Running? && Advance(c, t).state.ring == b.ring
    ensures BlockStep(c, t, Advance(c, t).state, b.slot, Released, InConsumption)
  {
    hide WellSized, TakeReleased;
  }

  lemma ConsumePreserves<T>(c: State<T>, t: Tid)
    requires Inv(c) && WellSized(c) && CanGo(c, t) && c.threads[t].pc.CTake?
    ensures Advance(c, t).Running? && Inv(Advance(c, t).state)
  {
    ItemTokenMeansReleased(c, t);
    TakeReleasedIsDequeue(c.ring);
    var b := TakeReleased(c.ring);
    NotHeldUnlessOut(c, t, b.slot);
    ConsumeIsBlockStep(c, t, b);
    BlockStepPreserves(c, t, Advance(c, t).state, b.slot, Released, InConsumption);
  }

  lemma StoreIsBlockStep<T>(c: State<T>, t: Tid, s: nat, r: Ring<T>)
    requires WellSized(c) && CanGo(c, t) && c.threads[t].pc == RStore(s) && s < c.ring.N()
    requires HandsApart(c.threads[t]) && !HoldsAt(c.threads[t], s, InConsumption)
    requires r == StoreReleased(c.ring, s) && Moves(c.ring, r, s, InProduction, Released)
    requires r.numProduced == c.ring.numProduced + 0 && r.numReleased == c.ring.numReleased + 1
    ensures Advance(c, t).Running? && Advance(c, t).state.ring == r
    ensures BlockStep(c, t, Advance(c, t).state, s, InProduction, Released)
  {
  }

  lemma StorePreserves<T>(c: State<T>, t: Tid)
    requires Inv(c) && WellSized(c) && CanGo(c, t) && c.threads[t].pc.RStore?
    ensures Advance(c, t).Running? && Inv(Advance(c, t).state)
  {
    var s := c.threads[t].pc.slot;
    assert HoldsAt(c.threads[t], s, InProduction);
    StoreReleasedIsEnqueue(c.ring, s);
    StoreIsBlockStep(c, t, s, StoreReleased(c.ring, s));
    BlockStepPreserves(c, t, Advance(c, t).state, s, InProduction, Released);
  }

  lemma ReturnIsBlockStep<T>(c: State<T>, t: Tid, s: nat, r: Ring<T>)
    requires WellSized(c) && CanGo(c, t) && c.threads[t].pc == KReturn(s) && s < c.ring.N()
    requires HandsApart(c.threads[t]) && !HoldsAt(c.threads[t], s, InProduction)
    requires r == ReturnFree(c.ring, s) && Moves(c.ring, r, s, InConsumption, Free)
    requires r.numProduced == c.ring.numProduced - 1 && r.numReleased == c.ring.numReleased + 0
    ensures Advance(c, t).Running? && Advance(c, t).state.ring == r
    ensures BlockStep(c, t, Advance(c, t).state, s, InConsumption, Free)
  {
  }

  lemma ReturnPreserves<T>(c: State<T>, t: Tid)
    requires Inv(c) && WellSized(c) && CanGo(c, t) && c.threads[t].pc.KReturn?
    ensures Advance(c, t).Running? && Inv(Advance(c, t).state)
  {
    var s := c.threads[t].pc.slot;
    assert HoldsAt(c.threads[t], s, InConsumption);
    ReturnFreeIsEnqueue(c.ring, s);
    ReturnIsBlockStep(c, t, s, ReturnFree(c.ring, s));
    BlockStepPreserves(c, t, Advance(c, t).state, s, InConsumption, Free);
  }

  predicate IsBlock(pc: PC) {
    pc.PEvict? || pc.PTake? || pc.RStore? || pc.CTake? || pc.KReturn?
  }

  /** The asserts of release() and cleanup() that run outside the mutex. */
  ghost predicate UnlockedAssertHolds<T>(c: State<T>, pc: PC)
    requires WellSized(c) && InBounds(InHand(pc), c.ring.N())
  {
    match pc
    case RAssert(s) => assert s in InHand(pc); c.ring.items[s].inUse && c.ring.items[s].inProduction
    case KAssert(s) => assert s in InHand(pc); c.ring.items[s].inUse && c.ring.items[s].inConsumption
    case _ => true
  }

  lemma UnlockedAssertsHold<T>(c: State<T>, t: Tid)
    requires Inv(c) && WellSized(c) && t in c.threads
    ensures UnlockedAssertHolds(c, c.threads[t].pc)
  {
    var th := c.threads[t];
    match th.pc
    case RAssert(s) => assert HoldsAt(th, s, InProduction);
    case KAssert(s) => assert HoldsAt(th, s, InConsumption);
    case _ =>
  }

  function Bit(b: bool): int {
    if b then 1 else 0
  }

  /** The control table keeps every thread's roles in step with the semaphores. */
  lemma ControlFollowsMutex<T>(r: Ring<T>, pc: PC)
    requires Control(r, pc).Some?
    ensures Delta(pc, Control(r, pc).value.0, HoldsMutex)
         == Bit(Awaits(pc) == Some(MutexSem)) - Bit(Control(r, pc).value.1 == Some(MutexSem))
  {
  }

  lemma ControlFollowsItem<T>(r: Ring<T>, pc: PC)
    requires Control(r, pc).Some?
    ensures Delta(pc, Control(r, pc).value.0, HasItemToken) + Delta(pc, Control(r, pc).value.0, OwesItem)
         == Bit(Awaits(pc) == Some(ItemSem)) - Bit(Control(r, pc).value.1 == Some(ItemSem))
  {
  }

  lemma ControlFollowsFree<T>(r: Ring<T>, pc: PC)
    requires Control(r, pc).Some?
    ensures Delta(pc, Control(r, pc).value.0, HasFreeToken) + Delta(pc, Control(r, pc).value.0, OwesFree)
         == Bit(Awaits(pc) == Some(FreeSem)) - Bit(Control(r, pc).value.1 == Some(FreeSem))
  {
  }

  lemma ControlCarriesOn<T>(r: Ring<T>, pc: PC, p: Place)
    requires Control(r, pc).Some?
    ensures Carried(Control(r, pc).value.0, p) == Carried(pc, p)
  {
  }

  lemma ControlIsPlain<T>(c: State<T>, t: Tid)
    requires WellSized(c) && CanGo(c, t) && Control(c.ring, c.threads[t].pc).Some?
    ensures Advance(c, t).Running? && PlainStep(c, t, Advance(c, t).state)
  {
    var pc := c.threads[t].pc;
    ControlFollowsMutex(c.ring, pc);
    ControlFollowsItem(c.ring, pc);
    ControlFollowsFree(c.ring, pc);
    ControlCarriesOn(c.ring, pc, InProduction);
    ControlCarriesOn(c.ring, pc, InConsumption);
  }

  /** produce() and consume() returning a slot to the caller. */
  lemma ReturnsArePlain<T>(c: State<T>, t: Tid)
    requires WellSized(c) && CanGo(c, t) && (c.threads[t].pc.PUnlockTaken? || c.threads[t].pc.CUnlockTaken?)
    ensures Advance(c, t).Running? && PlainStep(c, t, Advance(c, t).state)
  {
  }

  /** Moving on without touching a semaphore, a role or a slot. */
  lemma QuietMoveIsPlain<T>(c: State<T>, t: Tid, pc: PC)
    requires t in c.threads
    requires Carried(pc, InProduction) == Carried(c.threads[t].pc, InProduction)
    requires Carried(pc, InConsumption) == Carried(c.threads[t].pc, InConsumption)
    requires forall role :: Plays(pc, role) == Plays(c.threads[t].pc, role)
    ensures PlainStep(c, t, At(c, t, pc))
  {
  }

  /** The two unprotected asserts. */
  lemma AssertsArePlain<T>(c: State<T>, t: Tid)
    requires WellSized(c) && CanGo(c, t) && (c.threads[t].pc.RAssert? || c.threads[t].pc.KAssert?)
    requires UnlockedAssertHolds(c, c.threads[t].pc)
    ensures Advance(c, t).Running? && PlainStep(c, t, Advance(c, t).state)
  {
    var pc := c.threads[t].pc;
    QuietMoveIsPlain(c, t, if pc.RAssert? then RLock(pc.slot) else KLock(pc.slot));
  }

  lemma SlotlessCallsArePlain<T>(c: State<T>, a: Action<T>)
    requires WellSized(c) && Enabled(c, a) && (a.CallProduce? || a.CallConsume? || a.CallQuery?)
    ensures Next(c, a).Running? && PlainStep(c, a.tid, Next(c, a).state)
  {
    QuietMoveIsPlain(c, a.tid,
      if a.CallProduce? then PLock(a.block) else if a.CallConsume? then CLock(a.block) else QLock(a.query));
  }

  lemma ReleaseCallIsPlain<T>(c: State<T>, t: Tid, s: nat)
    requires WellSized(c) && Enabled(c, CallRelease(t, s))
    ensures Next(c, CallRelease(t, s)).Running? && PlainStep(c, t, Next(c, CallRelease(t, s)).state)
  {
  }

  lemma CleanupCallIsPlain<T>(c: State<T>, t: Tid, s: nat)
    requires WellSized(c) && Enabled(c, CallCleanup(t, s))
    ensures Next(c, CallCleanup(t, s)).Running? && PlainStep(c, t, Next(c, CallCleanup(t, s)).state)
  {
  }

  lemma WritePreserves<T>(c: State<T>, t: Tid, s: nat, v: T)
    requires Inv(c) && WellSized(c) && Enabled(c, Write(t, s, v))
    ensures Next(c, Write(t, s, v)).Running? && Inv(Next(c, Write(t, s, v)).state)
  {
    hide Represents;
    WritePayloadKeepsQueues(c.ring, s, v);
    OwnershipUnmoved(c.ring.items, c.threads, t, c.threads[t], WritePayload(c.ring, s, v).items);
    assert c.threads[t := c.threads[t]] == c.threads;
  }

  function PassedPlace(th: Thread, s: nat): Place {
    if s in th.producing then InProduction else InConsumption
  }

  /** Passing a slot changes who holds it, and nothing else. */
  lemma PassedHolders(threads: map<Tid, Thread>, t: Tid, s: nat, u: Tid)
    requires t in threads && u in threads && threads[t].pc == Idle
    requires s in threads[t].producing || s in threads[t].consuming
    requires forall v :: v in threads && v != t ==> !HoldsAt(threads[v], s, PassedPlace(threads[t], s))
    ensures var threads', p := Passed(threads, t, s, u), PassedPlace(threads[t], s);
            && threads'.Keys == threads.Keys
            && (forall v :: v in threads ==>
                  threads'[v].pc == threads[v].pc && (HandsApart(threads[v]) ==> HandsApart(threads'[v])))
            && (forall v, x: nat, q :: v in threads ==>
                  (HoldsAt(threads'[v], x, q) <==> if x == s && q == p then v == u else HoldsAt(threads[v], x, q)))
  {
  }

  lemma SamePcsSameCounts(threads: map<Tid, Thread>, threads': map<Tid, Thread>, role: Role)
    requires threads'.Keys == threads.Keys && forall v :: v in threads ==> threads'[v].pc == threads[v].pc
    ensures Count(threads', role) == Count(threads, role)
  {
    assert Players(threads', role) == Players(threads, role);
  }

  lemma OwnershipPassed<T>(items: seq<Item<T>>, threads: map<Tid, Thread>, threads': map<Tid, Thread>,
                           t: Tid, u: Tid, s: nat, p: Place)
    requires Ownership(items, threads) && t in threads && u in threads && HoldsAt(threads[t], s, p)
    requires threads'.Keys == threads.Keys && forall v :: v in threads ==> HandsApart(threads'[v])
    requires forall v, x: nat, q :: v in threads ==>
      (HoldsAt(threads'[v], x, q) <==> if x == s && q == p then v == u else HoldsAt(threads[v], x, q))
    ensures Ownership(items, threads')
  {
    forall x | 0 <= x < |items| && IsOut(PlaceOf(items[x]))
      ensures Held(threads', x, PlaceOf(items[x]))
    {
      var v :| v in threads && HoldsAt(threads[v], x, PlaceOf(items[x]));
      assert HoldsAt(threads'[if x == s then u else v], x, PlaceOf(items[x]));
    }
  }

  lemma OnlyHolder<T>(items: seq<Item<T>>, threads: map<Tid, Thread>, t: Tid, s: nat, p: Place)
    requires Ownership(items, threads) && t in threads && HoldsAt(threads[t], s, p)
    ensures forall v :: v in threads ==> HandsApart(threads[v])
    ensures forall v :: v in threads && v != t ==> !HoldsAt(threads[v], s, p)
  {
  }

  lemma PassPreserves<T>(c: State<T>, t: Tid, s: nat, u: Tid)
    requires Inv(c) && WellSized(c) && Enabled(c, Pass(t, s, u))
    ensures Next(c, Pass(t, s, u)).Running? && Inv(Next(c, Pass(t, s, u)).state)
  {
    hide Valid, Ownership, Passed, HandsApart, Count;
    var threads, p := Passed(c.threads, t, s, u), PassedPlace(c.threads[t], s);
    assert HoldsAt(c.threads[t], s, p);
    OnlyHolder(c.ring.items, c.threads, t, s, p);
    PassedHolders(c.threads, t, s, u);
    OwnershipPassed(c.ring.items, c.threads, threads, t, u, s, p);
    forall role
      ensures Count(threads, role) == Count(c.threads, role)
    {
      SamePcsSameCounts(c.threads, threads, role);
    }
  }

  lemma GoPreserves<T>(c: State<T>, t: Tid)
    requires Inv(c) && WellSized(c) && CanGo(c, t)
    ensures Advance(c, t).Running? && Inv(Advance(c, t).state)
  {
    var pc := c.threads[t].pc;
    if pc.PEvict? {
      EvictPreserves(c, t);
    } else if pc.PTake? {
      TakePreserves(c, t);
    } else if pc.RStore? {
      StorePreserves(c, t);
    } else if pc.CTake? {
      ConsumePreserves(c, t);
    } else if pc.KReturn? {
      ReturnPreserves(c, t);
    } else {
      UnlockedAssertsHold(c, t);
      if Control(c.ring, pc).Some? {
        ControlIsPlain(c, t);
      } else if pc.RAssert? || pc.KAssert? {
        AssertsArePlain(c, t);
      } else {
        ReturnsArePlain(c, t);
      }
      PlainStepPreserves(c, t, Advance(c, t).state);
    }
  }

  /** Every enabled action keeps the invariant, and no assert fires. */
  lemma StepPreserves<T>(c: State<T>, a: Action<T>)
    requires Inv(c) && WellSized(c) && Enabled(c, a)
    ensures Next(c, a).Running? && Inv(Next(c, a).state) && WellSized(Next(c, a).state)
  {
    match a {
      case Write(t, s, v) => WritePreserves(c, t, s, v);
      case Go(t) => GoPreserves(c, t);
      case Pass(t, s, u) => PassPreserves(c, t, s, u);
      case CallRelease(t, s) =>
        ReleaseCallIsPlain(c, t, s);
        PlainStepPreserves(c, t, Next(c, a).state);
      case CallCleanup(t, s) =>
        CleanupCallIsPlain(c, t, s);
        PlainStepPreserves(c, t, Next(c, a).state);
      case _ =>
        SlotlessCallsArePlain(c, a);
        PlainStepPreserves(c, a.tid, Next(c, a).state);
    }
    InvIsWellSized(Next(c, a).state);
  }
}
