/** What holds of every run of the concurrent ring, for every number of slots,
    every set of threads and every interleaving. */
module RingTheorems {
  import opened Prelude
  import opened RingBlocks
  import opened RingProtocol
  import opened RingInvariant

  /* ---- runs ---- */

  /** Run the actions in turn; `NotEnabled` if one of them could not happen. */
  ghost function Exec<T>(c: State<T>, run: seq<Action<T>>): Outcome<T> {
    if run == [] then Running(c)
    else
      match Exec(c, run[..|run| - 1])
      case Running(d) =>
        var a := run[|run| - 1];
        if WellSized(d) && Enabled(d, a) then Next(d, a) else NotEnabled
      case o => o
  }

  ghost predicate Reaches<T>(payloads: seq<T>, tids: set<Tid>, run: seq<Action<T>>, d: State<T>) {
    |payloads| >= 1 && Exec(Initial(payloads, tids), run) == Running(d)
  }

  lemma {:induction false} ExecKeepsInv<T>(c: State<T>, run: seq<Action<T>>)
    requires Inv(c)
    ensures Exec(c, run) != AssertionFailed
    ensures Exec(c, run).Running? ==> Inv(Exec(c, run).state) && WellSized(Exec(c, run).state)
  {
    if run == [] {
      InvIsWellSized(c);
    } else {
      var before := run[..|run| - 1];
      ExecKeepsInv(c, before);
      if Exec(c, before).Running? {
        var d := Exec(c, before).state;
        if Enabled(d, run[|run| - 1]) {
          StepPreserves(d, run[|run| - 1]);
        }
      }
    }
  }

  lemma ReachableInv<T>(payloads: seq<T>, tids: set<Tid>, run: seq<Action<T>>, d: State<T>)
    requires Reaches(payloads, tids, run, d)
    ensures Inv(d) && WellSized(d)
  {
    InitialInv(payloads, tids);
    ExecKeepsInv(Initial(payloads, tids), run);
  }

  /** No interleaving makes any assert of the ring fail, provided clients hand
      back only what they were handed. */
  lemma NoAssertFires<T>(payloads: seq<T>, tids: set<Tid>, run: seq<Action<T>>)
    requires |payloads| >= 1
    ensures Exec(Initial(payloads, tids), run) != AssertionFailed
  {
    InitialInv(payloads, tids);
    ExecKeepsInv(Initial(payloads, tids), run);
  }

  /* ---- slots ---- */

  ghost predicate InOnePlace<T>(d: State<T>, s: nat)
    requires CountersInRange(d.ring) && s < d.ring.N()
  {
    var fq, rq := FreeQ(d.ring), ReleasedQ(d.ring);
    var made, used := Held(d.threads, s, InProduction), Held(d.threads, s, InConsumption);
    match PlaceOf(d.ring.items[s])
    case Free => s in fq && s !in rq && !made && !used
    case Released => s !in fq && s in rq && !made && !used
    case InProduction => s !in fq && s !in rq && made && !used
    case InConsumption => s !in fq && s !in rq && !made && used
    case Inconsistent => false
  }

  /** Each slot is in exactly one of the free window, the released window, one
      thread's production and one thread's consumption; the windows are the cyclic
      ranges from `nextAdd` and `nextConsume`, and every other array entry is null. */
  lemma SlotPartition<T>(payloads: seq<T>, tids: set<Tid>, run: seq<Action<T>>, d: State<T>)
    requires Reaches(payloads, tids, run, d)
    ensures CountersInRange(d.ring)
    ensures |FreeQ(d.ring)| == d.ring.N() - d.ring.numProduced && |ReleasedQ(d.ring)| == d.ring.numReleased
    ensures Holds(d.ring.freeBuf, d.ring.nextAdd, FreeQ(d.ring)) && NoDup(FreeQ(d.ring))
    ensures Holds(d.ring.relBuf, d.ring.nextConsume, ReleasedQ(d.ring)) && NoDup(ReleasedQ(d.ring))
    ensures forall s :: 0 <= s < d.ring.N() ==> InOnePlace(d, s)
  {
    ReachableInv(payloads, tids, run, d);
  }

  /** No slot is ever in the hands of two threads, nor twice in the hands of one. */
  lemma ExclusiveOwnership<T>(payloads: seq<T>, tids: set<Tid>, run: seq<Action<T>>, d: State<T>, t: Tid, u: Tid)
    requires Reaches(payloads, tids, run, d) && t in d.threads && u in d.threads
    ensures t != u ==> Making(d.threads[t]) + Using(d.threads[t]) !! Making(d.threads[u]) + Using(d.threads[u])
    ensures Making(d.threads[t]) !! Using(d.threads[t]) && HandsApart(d.threads[t])
  {
    ReachableInv(payloads, tids, run, d);
    forall s: nat
      ensures s in Making(d.threads[t]) <==> HoldsAt(d.threads[t], s, InProduction)
      ensures s in Making(d.threads[u]) <==> HoldsAt(d.threads[u], s, InProduction)
      ensures s in Using(d.threads[t]) <==> HoldsAt(d.threads[t], s, InConsumption)
      ensures s in Using(d.threads[u]) <==> HoldsAt(d.threads[u], s, InConsumption)
    {
    }
  }

  /** The counters are the semaphore values plus the tokens in transit; so a thread
      past an acquire() always finds a slot waiting for it (`TokensFindSlots`). */
  lemma TokenAccounting<T>(payloads: seq<T>, tids: set<Tid>, run: seq<Action<T>>, d: State<T>)
    requires Reaches(payloads, tids, run, d)
    ensures d.mutex + Count(d.threads, HoldsMutex) == 1
    ensures d.ring.numReleased == d.item + Count(d.threads, HasItemToken) + Count(d.threads, OwesItem)
    ensures d.ring.N() - d.ring.numProduced
         == d.free + Count(d.threads, HasFreeToken) + Count(d.threads, OwesFree)
  {
    ReachableInv(payloads, tids, run, d);
  }

  lemma TokensFindSlots<T>(payloads: seq<T>, tids: set<Tid>, run: seq<Action<T>>, d: State<T>, t: Tid)
    requires Reaches(payloads, tids, run, d) && t in d.threads
    ensures d.ring.Shape()
    ensures Plays(d.threads[t].pc, HasItemToken) ==> d.ring.relBuf[d.ring.nextConsume].Some?
    ensures Plays(d.threads[t].pc, HasFreeToken) ==> d.ring.freeBuf[d.ring.nextAdd].Some?
  {
    ReachableInv(payloads, tids, run, d);
    if Plays(d.threads[t].pc, HasItemToken) {
      ItemTokenMeansReleased(d, t);
      PopFront(d.ring.relBuf, d.ring.nextConsume, ReleasedQ(d.ring));
    }
    if Plays(d.threads[t].pc, HasFreeToken) {
      FreeTokenMeansFree(d, t);
      PopFront(d.ring.freeBuf, d.ring.nextAdd, FreeQ(d.ring));
    }
  }

  /** At most one thread is inside a mutex-protected block. */
  lemma MutualExclusion<T>(payloads: seq<T>, tids: set<Tid>, run: seq<Action<T>>, d: State<T>, t: Tid, u: Tid)
    requires Reaches(payloads, tids, run, d) && t in d.threads && u in d.threads
    requires Plays(d.threads[t].pc, HoldsMutex) && Plays(d.threads[u].pc, HoldsMutex)
    ensures t == u
  {
    ReachableInv(payloads, tids, run, d);
    SubsetSize({t, u}, Players(d.threads, HoldsMutex));
    assert t != u ==> |{t, u}| == 2;
  }

  /** Counters count: what is produced is in production, released or in consumption. */
  lemma CountersCount<T>(payloads: seq<T>, tids: set<Tid>, run: seq<Action<T>>, d: State<T>)
    requires Reaches(payloads, tids, run, d)
    ensures 0 <= d.ring.numReleased <= d.ring.numProduced <= d.ring.N() == |payloads|
    ensures d.ring.numProduced == |SlotsAt(d.ring.items, InProduction)| + d.ring.numReleased
                                  + |SlotsAt(d.ring.items, InConsumption)|
  {
    ReachableInv(payloads, tids, run, d);
    Conservation(d.ring);
    SizeIsFixed(payloads, tids, run);
  }

  lemma {:induction false} SizeIsFixed<T>(payloads: seq<T>, tids: set<Tid>, run: seq<Action<T>>)
    requires |payloads| >= 1
    ensures var o := Exec(Initial(payloads, tids), run); o.Running? ==> o.state.ring.N() == |payloads|
  {
    if run == [] {
    } else {
      var before := run[..|run| - 1];
      SizeIsFixed(payloads, tids, before);
      if Exec(Initial(payloads, tids), before).Running? {
        var b := Exec(Initial(payloads, tids), before).state;
        ReachableInv(payloads, tids, before, b);
        if Enabled(b, run[|run| - 1]) {
          StepKeepsSize(b, run[|run| - 1]);
        }
      }
    }
  }

  lemma StepKeepsSize<T>(c: State<T>, a: Action<T>)
    requires WellSized(c) && Enabled(c, a)
    ensures Next(c, a).Running? ==> Next(c, a).state.ring.N() == c.ring.N()
  {
    if a.Go? && !IsBlock(c.threads[a.tid].pc) {
      OutsideBlocksRingUnchanged(c, a.tid);
    }
  }

  lemma OutsideBlocksRingUnchanged<T>(c: State<T>, t: Tid)
    requires WellSized(c) && CanGo(c, t) && !IsBlock(c.threads[t].pc)
    ensures Advance(c, t).Running? ==> Advance(c, t).state.ring == c.ring
  {
    assert Control(c.ring, c.threads[t].pc).Some? ==> Advance(c, t).Running? && Advance(c, t).state.ring == c.ring;
  }

  /* ---- what happened in a run ---- */

  /** A slot, with what it contained, moved from one place to another. */
  datatype Event<T> = Event(slot: nat, payload: T, from: Place, to: Place) {
    predicate IsProduction() { to == InProduction }
    predicate IsRelease() { to == Released }
    predicate IsTaking() { from == Released }
    predicate IsConsumption() { to == InConsumption }
    predicate IsEviction() { from == Released && to == Free }
    predicate IsCleaning() { from == InConsumption }
  }

  ghost function EventAt<T>(r: Ring<T>, s: nat, from: Place, to: Place): Event<T>
    requires s < r.N()
  {
    Event(s, r.items[s].payload, from, to)
  }

  /** The entry that an action adds to the history of the ring. */
  ghost function EventOf<T>(c: State<T>, a: Action<T>): Option<Event<T>>
    requires Inv(c) && WellSized(c) && Enabled(c, a)
  {
    if !a.Go? then None
    else
      match c.threads[a.tid].pc
      case PTake => FreeTokenMeansFree(c, a.tid); Some(EventAt(c.ring, FreeQ(c.ring)[0], Free, InProduction))
      case RStore(s) => assert s in InHand(RStore(s)); Some(EventAt(c.ring, s, InProduction, Released))
      case CTake =>
        ItemTokenMeansReleased(c, a.tid);
        Some(EventAt(c.ring, ReleasedQ(c.ring)[0], Released, InConsumption))
      case PEvict => ItemTokenMeansReleased(c, a.tid); Some(EventAt(c.ring, ReleasedQ(c.ring)[0], Released, Free))
      case KReturn(s) => assert s in InHand(KReturn(s)); Some(EventAt(c.ring, s, InConsumption, Free))
      case _ => None
  }

  /** `r'` is `r` after event `e`: one slot moved, leaving the front of its old queue
      and joining the back of its new one, and the counters followed. */
  ghost predicate Follows<T>(r: Ring<T>, e: Event<T>, r': Ring<T>) {
    && Valid(r) && Valid(r')
    && Moves(r, r', e.slot, e.from, e.to) && e.payload == r.items[e.slot].payload
    && (e.from == Free ==> |FreeQ(r)| > 0 && e.slot == FreeQ(r)[0])
    && (e.from == Released ==> |ReleasedQ(r)| > 0 && e.slot == ReleasedQ(r)[0])
    && FreeQ(r') == (if e.from == Free then FreeQ(r)[1..] else FreeQ(r)) + (if e.to == Free then [e.slot] else [])
    && ReleasedQ(r') == (if e.from == Released then ReleasedQ(r)[1..] else ReleasedQ(r))
                        + (if e.to == Released then [e.slot] else [])
    && r'.numProduced == r.numProduced + (if e.from == Free then 1 else 0) - (if e.to == Free then 1 else 0)
    && e.from != e.to
  }

  lemma EvictFollows<T>(r: Ring<T>)
    requires Valid(r) && r.numReleased > 0
    ensures Evict(r).Done? && ReleasedQ(r)[0] < r.N()
    ensures Follows(r, EventAt(r, ReleasedQ(r)[0], Released, Free), Evict(r).ring)
  {
    EvictIsTransfer(r);
  }

  lemma TakeFollows<T>(r: Ring<T>)
    requires Valid(r) && r.numProduced < r.N()
    ensures TakeFree(r).Done? && FreeQ(r)[0] < r.N()
    ensures Follows(r, EventAt(r, FreeQ(r)[0], Free, InProduction), TakeFree(r).ring)
  {
    TakeFreeIsDequeue(r);
  }

  lemma ConsumeFollows<T>(r: Ring<T>)
    requires Valid(r) && r.numReleased > 0
    ensures TakeReleased(r).Done? && ReleasedQ(r)[0] < r.N()
    ensures Follows(r, EventAt(r, ReleasedQ(r)[0], Released, InConsumption), TakeReleased(r).ring)
  {
    TakeReleasedIsDequeue(r);
  }

  lemma StoreFollows<T>(r: Ring<T>, s: nat)
    requires Valid(r) && s < r.N() && PlaceOf(r.items[s]) == InProduction
    ensures Follows(r, EventAt(r, s, InProduction, Released), StoreReleased(r, s))
  {
    StoreReleasedIsEnqueue(r, s);
  }

  lemma ReturnFollows<T>(r: Ring<T>, s: nat)
    requires Valid(r) && s < r.N() && PlaceOf(r.items[s]) == InConsumption
    ensures Follows(r, EventAt(r, s, InConsumption, Free), ReturnFree(r, s))
  {
    ReturnFreeIsEnqueue(r, s);
  }

  /** A block of thread `t` changes the ring as its event says. */
  ghost predicate EventFollows<T>(c: State<T>, t: Tid)
    requires Inv(c) && WellSized(c) && CanGo(c, t)
  {
    && Advance(c, t).Running? && EventOf(c, Go(t)).Some?
    && Follows(c.ring, EventOf(c, Go(t)).value, Advance(c, t).state.ring)
  }

  lemma EvictEventFollows<T>(c: State<T>, t: Tid)
    requires Inv(c) && WellSized(c) && CanGo(c, t) && c.threads[t].pc.PEvict?
    ensures EventFollows(c, t)
  {
    hide Follows;
    ItemTokenMeansReleased(c, t);
    EvictFollows(c.ring);
  }

  lemma TakeEventFollows<T>(c: State<T>, t: Tid)
    requires Inv(c) && WellSized(c) && CanGo(c, t) && c.threads[t].pc.PTake?
    ensures EventFollows(c, t)
  {
    hide Follows;
    FreeTokenMeansFree(c, t);
    TakeFollows(c.ring);
  }

  lemma ConsumeEventFollows<T>(c: State<T>, t: Tid)
    requires Inv(c) && WellSized(c) && CanGo(c, t) && c.threads[t].pc.CTake?
    ensures EventFollows(c, t)
  {
    hide Follows, Represents;
    ItemTokenMeansReleased(c, t);
    ConsumeFollows(c.ring);
  }

  lemma StoreEventFollows<T>(c: State<T>, t: Tid)
    requires Inv(c) && WellSized(c) && CanGo(c, t) && c.threads[t].pc.RStore?
    ensures EventFollows(c, t)
  {
    hide Follows;
    assert HoldsAt(c.threads[t], c.threads[t].pc.slot, InProduction);
    StoreFollows(c.ring, c.threads[t].pc.slot);
  }

  lemma ReturnEventFollows<T>(c: State<T>, t: Tid)
    requires Inv(c) && WellSized(c) && CanGo(c, t) && c.threads[t].pc.KReturn?
    ensures EventFollows(c, t)
  {
    hide Follows, Represents;
    assert HoldsAt(c.threads[t], c.threads[t].pc.slot, InConsumption);
    ReturnFollows(c.ring, c.threads[t].pc.slot);
  }

  lemma BlockEventsFollow<T>(c: State<T>, t: Tid)
    requires Inv(c) && WellSized(c) && CanGo(c, t) && IsBlock(c.threads[t].pc)
    ensures EventFollows(c, t)
  {
    match c.threads[t].pc
    case PEvict => EvictEventFollows(c, t);
    case PTake => TakeEventFollows(c, t);
    case CTake => ConsumeEventFollows(c, t);
    case RStore(_) => StoreEventFollows(c, t);
    case KReturn(_) => ReturnEventFollows(c, t);
  }

  /** What a step without an event can do: at most fill a slot that its thread holds. */
  ghost predicate Silent<T>(c: State<T>, a: Action<T>, r': Ring<T>) {
    && Valid(c.ring) && Valid(r')
    && (r' == c.ring ||
        (&& a.Write? && a.slot < c.ring.N() && r' == WritePayload(c.ring, a.slot, a.value)
         && a.tid in c.threads && HoldsAt(c.threads[a.tid], a.slot, InProduction)
         && PlaceOf(c.ring.items[a.slot]) == InProduction
         && FreeQ(r') == FreeQ(c.ring) && ReleasedQ(r') == ReleasedQ(c.ring)))
  }

  /** Every step either is silent or is one event. */
  lemma StepOnRing<T>(c: State<T>, a: Action<T>)
    requires Inv(c) && WellSized(c) && Enabled(c, a)
    ensures Next(c, a).Running?
    ensures match EventOf(c, a)
            case Some(e) => Follows(c.ring, e, Next(c, a).state.ring)
            case None => Silent(c, a, Next(c, a).state.ring)
  {
    StepPreserves(c, a);
    match a
    case Go(t) =>
      if IsBlock(c.threads[t].pc) {
        BlockEventsFollow(c, t);
      } else {
        OutsideBlocksRingUnchanged(c, t);
      }
    case Write(t, s, v) =>
      assert HoldsAt(c.threads[t], s, InProduction);
      WritePayloadKeepsQueues(c.ring, s, v);
    case _ =>
  }

  /** What a client writes into the slot it produces is in that slot, and nothing else changes. */
  lemma WriteFills<T>(c: State<T>, t: Tid, s: nat, v: T)
    requires WellSized(c) && Enabled(c, Write(t, s, v))
    ensures var o := Next(c, Write(t, s, v));
            && o.Running? && o.state == c.(ring := o.state.ring) && o.state.ring == c.ring.(items := o.state.ring.items)
            && |o.state.ring.items| == c.ring.N() && s < c.ring.N()
            && o.state.ring.items[s] == c.ring.items[s].(payload := v)
            && forall x :: 0 <= x < c.ring.N() && x != s ==> o.state.ring.items[x] == c.ring.items[x]
  {
  }

  ghost function History<T>(c: State<T>, run: seq<Action<T>>): seq<Event<T>>
    requires Inv(c) && Exec(c, run).Running?
  {
    if run == [] then []
    else
      var before := run[..|run| - 1];
      ExecKeepsInv(c, before);
      Extend(History(c, before), EventOf(Exec(c, before).state, run[|run| - 1]))
  }

  function Extend<T>(h: seq<Event<T>>, e: Option<Event<T>>): seq<Event<T>> {
    match e case None => h case Some(v) => h + [v]
  }

  /* ---- first in, first out ---- */

  /** The released slots with their contents, oldest first. */
  ghost function Pending<T>(r: Ring<T>): (p: seq<(nat, T)>)
    requires Valid(r)
    ensures |p| == |ReleasedQ(r)|
  {
    var q := ReleasedQ(r);
    seq(|q|, i requires 0 <= i < |q| => (q[i], r.items[q[i]].payload))
  }

  function ReleasesOf<T>(h: seq<Event<T>>): seq<(nat, T)> {
    if h == [] then []
    else
      var e := h[|h| - 1];
      ReleasesOf(h[..|h| - 1]) + if e.IsRelease() then [(e.slot, e.payload)] else []
  }

  /** Items that left the queue, by consumption or by eviction. */
  function TakingsOf<T>(h: seq<Event<T>>): seq<(nat, T)> {
    if h == [] then []
    else
      var e := h[|h| - 1];
      TakingsOf(h[..|h| - 1]) + if e.IsTaking() then [(e.slot, e.payload)] else []
  }

  lemma EventOnPending<T>(r: Ring<T>, e: Event<T>, r': Ring<T>)
    requires Follows(r, e, r')
    ensures (if e.IsTaking() then [(e.slot, e.payload)] else []) + Pending(r')
         == Pending(r) + (if e.IsRelease() then [(e.slot, e.payload)] else [])
  {
    hide Holds, NoDup, FlagsAgree, Contents;
    assert forall x :: 0 <= x < r.N() ==> r'.items[x].payload == r.items[x].payload;
  }

  lemma SilentOnPending<T>(c: State<T>, a: Action<T>, r': Ring<T>)
    requires Silent(c, a, r')
    ensures Pending(r') == Pending(c.ring)
  {
    if a.Write? && r' != c.ring {
      assert a.slot !in ReleasedQ(c.ring);
    }
  }

  lemma FifoHistory<T>(h: seq<Event<T>>, p: seq<(nat, T)>, e: Event<T>, p': seq<(nat, T)>)
    requires ReleasesOf(h) == TakingsOf(h) + p
    requires (if e.IsTaking() then [(e.slot, e.payload)] else []) + p'
          == p + (if e.IsRelease() then [(e.slot, e.payload)] else [])
    ensures ReleasesOf(h + [e]) == TakingsOf(h + [e]) + p'
  {
    assert (h + [e])[..|h|] == h;
    var taken := if e.IsTaking() then [(e.slot, e.payload)] else [];
    assert TakingsOf(h + [e]) + p' == TakingsOf(h) + (taken + p');
  }

  lemma FifoStep<T>(c: State<T>, a: Action<T>, h: seq<Event<T>>)
    requires Inv(c) && WellSized(c) && Enabled(c, a)
    requires ReleasesOf(h) == TakingsOf(h) + Pending(c.ring)
    ensures Next(c, a).Running? && Valid(Next(c, a).state.ring)
    ensures var h' := Extend(h, EventOf(c, a));
            ReleasesOf(h') == TakingsOf(h') + Pending(Next(c, a).state.ring)
  {
    StepOnRing(c, a);
    var r' := Next(c, a).state.ring;
    match EventOf(c, a)
    case None => SilentOnPending(c, a, r');
    case Some(e) =>
      EventOnPending(c.ring, e, r');
      FifoHistory(h, Pending(c.ring), e, Pending(r'));
  }

  /** First in, first out, over whole runs: the items released, in the order of their
      release steps, are the items taken so far followed by the items pending. */
  lemma {:induction false} Fifo<T>(payloads: seq<T>, tids: set<Tid>, run: seq<Action<T>>, d: State<T>)
    requires Reaches(payloads, tids, run, d)
    ensures Inv(Initial(payloads, tids)) && Valid(d.ring)
    ensures var h := History(Initial(payloads, tids), run);
            ReleasesOf(h) == TakingsOf(h) + Pending(d.ring)
  {
    InitialInv(payloads, tids);
    ReachableInv(payloads, tids, run, d);
    if run == [] {
      InitialIsValid(payloads);
    } else {
      var before, a := run[..|run| - 1], run[|run| - 1];
      var b := Exec(Initial(payloads, tids), before).state;
      Fifo(payloads, tids, before, b);
      ReachableInv(payloads, tids, before, b);
      FifoStep(b, a, History(Initial(payloads, tids), before));
    }
  }

  /* ---- conservation over runs ---- */

  function Productions<T>(h: seq<Event<T>>): nat {
    if h == [] then 0 else Productions(h[..|h| - 1]) + if h[|h| - 1].IsProduction() then 1 else 0
  }

  function Consumptions<T>(h: seq<Event<T>>): nat {
    if h == [] then 0 else Consumptions(h[..|h| - 1]) + if h[|h| - 1].IsConsumption() then 1 else 0
  }

  function Evictions<T>(h: seq<Event<T>>): nat {
    if h == [] then 0 else Evictions(h[..|h| - 1]) + if h[|h| - 1].IsEviction() then 1 else 0
  }

  function Cleanings<T>(h: seq<Event<T>>): nat {
    if h == [] then 0 else Cleanings(h[..|h| - 1]) + if h[|h| - 1].IsCleaning() then 1 else 0
  }

  /** Every event of the ring is one of the five kinds of the source. */
  ghost predicate Lawful<T>(e: Event<T>) {
    (e.from, e.to) in {(Free, InProduction), (InProduction, Released), (Released, InConsumption),
                       (Released, Free), (InConsumption, Free)}
  }

  lemma EventsAreLawful<T>(c: State<T>, a: Action<T>)
    requires Inv(c) && WellSized(c) && Enabled(c, a) && EventOf(c, a).Some?
    ensures Lawful(EventOf(c, a).value)
  {
  }

  ghost predicate Balanced<T>(h: seq<Event<T>>, numProduced: int) {
    && Productions(h) == numProduced + Cleanings(h) + Evictions(h)
    && |TakingsOf(h)| == Consumptions(h) + Evictions(h)
  }

  lemma BalanceStep<T>(h: seq<Event<T>>, e: Event<T>, n: int)
    requires Balanced(h, n) && Lawful(e)
    ensures Balanced(h + [e], n + (if e.from == Free then 1 else 0) - (if e.to == Free then 1 else 0))
  {
    assert (h + [e])[..|h|] == h;
  }

  /** Everything ever produced is still somewhere in the ring, was cleaned up after
      consumption, or was evicted; and what left the queue was consumed or evicted,
      never both. */
  lemma {:induction false} Accounts<T>(payloads: seq<T>, tids: set<Tid>, run: seq<Action<T>>, d: State<T>)
    requires Reaches(payloads, tids, run, d)
    ensures Inv(Initial(payloads, tids))
    ensures Balanced(History(Initial(payloads, tids), run), d.ring.numProduced)
  {
    InitialInv(payloads, tids);
    if run == [] {
    } else {
      var before, a := run[..|run| - 1], run[|run| - 1];
      var b := Exec(Initial(payloads, tids), before).state;
      Accounts(payloads, tids, before, b);
      ReachableInv(payloads, tids, before, b);
      StepOnRing(b, a);
      if EventOf(b, a).Some? {
        EventsAreLawful(b, a);
        BalanceStep(History(Initial(payloads, tids), before), EventOf(b, a).value, b.ring.numProduced);
      }
    }
  }

  /* ---- delivered or dropped ---- */

  function Deliveries<T>(h: seq<Event<T>>): seq<(nat, T)> {
    if h == [] then []
    else
      var e := h[|h| - 1];
      Deliveries(h[..|h| - 1]) + if e.IsConsumption() then [(e.slot, e.payload)] else []
  }

  function Drops<T>(h: seq<Event<T>>): seq<(nat, T)> {
    if h == [] then []
    else
      var e := h[|h| - 1];
      Drops(h[..|h| - 1]) + if e.IsEviction() then [(e.slot, e.payload)] else []
  }

  /** Of each item that left the queue, in order: whether a consumer got it. */
  function Fates<T>(h: seq<Event<T>>): seq<bool> {
    if h == [] then []
    else
      var e := h[|h| - 1];
      Fates(h[..|h| - 1]) + if e.IsTaking() then [e.IsConsumption()] else []
  }

  function Pick<A>(items: seq<A>, fates: seq<bool>, fate: bool): seq<A>
    requires |items| == |fates|
  {
    if items == [] then []
    else
      var n := |items| - 1;
      Pick(items[..n], fates[..n], fate) + if fates[n] == fate then [items[n]] else []
  }

  lemma {:induction false} FatesTell<T>(h: seq<Event<T>>)
    requires AllLawful(h)
    ensures |Fates(h)| == |TakingsOf(h)|
    ensures Deliveries(h) == Pick(TakingsOf(h), Fates(h), true) && Drops(h) == Pick(TakingsOf(h), Fates(h), false)
  {
    if h == [] {
    } else {
      var before, e := h[..|h| - 1], h[|h| - 1];
      FatesTell(before);
      if e.IsTaking() {
        var items, fates := TakingsOf(before), Fates(before);
        assert (items + [(e.slot, e.payload)])[..|items|] == items && (fates + [e.IsConsumption()])[..|fates|] == fates;
      } else {
        assert TakingsOf(h) == TakingsOf(before) && Fates(h) == Fates(before);
      }
    }
  }

  ghost predicate AllLawful<T>(h: seq<Event<T>>) {
    forall i :: 0 <= i < |h| ==> Lawful(h[i])
  }

  lemma LawfulStep<T>(c: State<T>, a: Action<T>, h: seq<Event<T>>)
    requires Inv(c) && WellSized(c) && Enabled(c, a) && AllLawful(h)
    ensures AllLawful(Extend(h, EventOf(c, a)))
  {
    if EventOf(c, a).Some? {
      EventsAreLawful(c, a);
    }
  }

  lemma {:induction false} HistoryIsLawful<T>(payloads: seq<T>, tids: set<Tid>, run: seq<Action<T>>, d: State<T>)
    requires Reaches(payloads, tids, run, d)
    ensures Inv(Initial(payloads, tids)) && AllLawful(History(Initial(payloads, tids), run))
  {
    hide AllLawful;
    InitialInv(payloads, tids);
    if run == [] {
      NoneLawful(History(Initial(payloads, tids), run));
    } else {
      var before := run[..|run| - 1];
      var b := Exec(Initial(payloads, tids), before).state;
      HistoryIsLawful(payloads, tids, before, b);
      ReachableInv(payloads, tids, before, b);
      LawfulStep(b, run[|run| - 1], History(Initial(payloads, tids), before));
    }
  }

  lemma NoneLawful<T>(h: seq<Event<T>>)
    requires h == []
    ensures AllLawful(h)
  {
  }

  /** Of the items released, in order, each one that left the queue was either delivered
      or dropped: an evicted item is never delivered, and no item is delivered twice. */
  lemma DeliveredOrDropped<T>(payloads: seq<T>, tids: set<Tid>, run: seq<Action<T>>, d: State<T>)
    requires Reaches(payloads, tids, run, d)
    ensures Inv(Initial(payloads, tids))
    ensures var h := History(Initial(payloads, tids), run);
            && |Fates(h)| <= |ReleasesOf(h)|
            && Deliveries(h) == Pick(ReleasesOf(h)[..|Fates(h)|], Fates(h), true)
            && Drops(h) == Pick(ReleasesOf(h)[..|Fates(h)|], Fates(h), false)
  {
    Fifo(payloads, tids, run, d);
    HistoryIsLawful(payloads, tids, run, d);
    var h := History(Initial(payloads, tids), run);
    FatesTell(h);
    assert (TakingsOf(h) + Pending(d.ring))[..|TakingsOf(h)|] == TakingsOf(h);
  }

  /* ---- payload integrity ---- */

  /** What slot `s` contained when it was last taken out of the queue. */
  function LastTaken<T>(h: seq<Event<T>>, s: nat): Option<T> {
    if h == [] then None
    else
      var e := h[|h| - 1];
      if e.IsTaking() && e.slot == s then Some(e.payload) else LastTaken(h[..|h| - 1], s)
  }

  ghost predicate ConsumersSeeTakings<T>(items: seq<Item<T>>, h: seq<Event<T>>) {
    forall s :: 0 <= s < |items| && PlaceOf(items[s]) == InConsumption ==>
      LastTaken(h, s) == Some(items[s].payload)
  }

  /** What slot `s` contained when its producer last released it. */
  function LastReleased<T>(h: seq<Event<T>>, s: nat): Option<T> {
    if h == [] then None
    else
      var e := h[|h| - 1];
      if e.IsRelease() && e.slot == s then Some(e.payload) else LastReleased(h[..|h| - 1], s)
  }

  ghost predicate ContentsAsReleased<T>(items: seq<Item<T>>, h: seq<Event<T>>) {
    forall s :: 0 <= s < |items| && (PlaceOf(items[s]) == Released || PlaceOf(items[s]) == InConsumption) ==>
      LastReleased(h, s) == Some(items[s].payload)
  }

  /** An event moves its slot with its contents, and leaves the others alone. */
  lemma EventKeepsContents<T>(r: Ring<T>, e: Event<T>, r': Ring<T>, h: seq<Event<T>>)
    requires Follows(r, e, r') && Lawful(e)
    ensures ConsumersSeeTakings(r.items, h) ==> ConsumersSeeTakings(r'.items, h + [e])
    ensures ContentsAsReleased(r.items, h) ==> ContentsAsReleased(r'.items, h + [e])
  {
    hide Valid;
    assert (h + [e])[..|h|] == h;
  }

  /** A client fills slots in production only. */
  lemma SilenceKeepsContents<T>(c: State<T>, a: Action<T>, r': Ring<T>, h: seq<Event<T>>)
    requires Silent(c, a, r')
    ensures ConsumersSeeTakings(c.ring.items, h) ==> ConsumersSeeTakings(r'.items, h)
    ensures ContentsAsReleased(c.ring.items, h) ==> ContentsAsReleased(r'.items, h)
  {
    hide Valid;
  }

  lemma IntegrityStep<T>(c: State<T>, a: Action<T>, h: seq<Event<T>>)
    requires Inv(c) && WellSized(c) && Enabled(c, a)
    requires ConsumersSeeTakings(c.ring.items, h) && ContentsAsReleased(c.ring.items, h)
    ensures Next(c, a).Running?
    ensures ConsumersSeeTakings(Next(c, a).state.ring.items, Extend(h, EventOf(c, a)))
    ensures ContentsAsReleased(Next(c, a).state.ring.items, Extend(h, EventOf(c, a)))
  {
    hide Follows, Silent, Lawful, ConsumersSeeTakings, ContentsAsReleased;
    StepOnRing(c, a);
    var r' := Next(c, a).state.ring;
    if EventOf(c, a).Some? {
      EventsAreLawful(c, a);
      EventKeepsContents(c.ring, EventOf(c, a).value, r', h);
    } else {
      SilenceKeepsContents(c, a, r', h);
    }
  }

  /** A slot that waits in the queue or is in consumption contains exactly what its producer
      released, and in consumption what it was taken with, under every interleaving with
      eviction and reuse. */
  lemma {:induction false} PayloadIntegrity<T>(payloads: seq<T>, tids: set<Tid>, run: seq<Action<T>>, d: State<T>)
    requires Reaches(payloads, tids, run, d)
    ensures Inv(Initial(payloads, tids))
    ensures ConsumersSeeTakings(d.ring.items, History(Initial(payloads, tids), run))
    ensures ContentsAsReleased(d.ring.items, History(Initial(payloads, tids), run))
  {
    InitialInv(payloads, tids);
    if run == [] {
      InitialIsValid(payloads);
    } else {
      var before := run[..|run| - 1];
      var b := Exec(Initial(payloads, tids), before).state;
      PayloadIntegrity(payloads, tids, before, b);
      ReachableInv(payloads, tids, before, b);
      IntegrityStep(b, run[|run| - 1], History(Initial(payloads, tids), before));
    }
  }
}
