/** The administrative data of the slot ring and the five blocks of code that
    change it, each of which the source runs while holding the ring's mutex. */
module RingBlocks {
  import opened Prelude

  /* ---- circular pointer arrays ---- */

  /** How far position `j` lies after position `start` when walking a circle of `n` places. */
  function Dist(j: nat, start: nat, n: nat): nat
    requires j < n && start < n
  {
    if j >= start then j - start else j + n - start
  }

  /** One step round the circle: `++x; x %= n`. */
  function Succ(x: nat, n: nat): (y: nat)
    requires x < n
    ensures y < n
    ensures y == if x + 1 == n then 0 else x + 1
  {
    assert x + 1 < n ==> (x + 1) % n == x + 1;
    (x + 1) % n
  }

  function Wrap(x: nat, n: nat): nat {
    if x < n then x else x - n
  }

  /** The array holds exactly the list `q`, in order, in the cyclic range that
      begins at `start`; every entry outside that range is null. */
  ghost predicate Holds(buf: seq<Option<nat>>, start: nat, q: seq<nat>) {
    && start < |buf|
    && |q| <= |buf|
    && forall j :: 0 <= j < |buf| ==>
         buf[j] == if Dist(j, start, |buf|) < |q| then Some(q[Dist(j, start, |buf|)]) else None
  }

  lemma PopFront(buf: seq<Option<nat>>, start: nat, q: seq<nat>)
    requires Holds(buf, start, q) && |q| > 0
    ensures buf[start] == Some(q[0])
    ensures Holds(buf[start := None], Succ(start, |buf|), q[1..])
    ensures Wrap(start + |q|, |buf|) == Wrap(Succ(start, |buf|) + |q[1..]|, |buf|)
  {
  }

  lemma PushBack(buf: seq<Option<nat>>, start: nat, q: seq<nat>, x: nat)
    requires Holds(buf, start, q) && |q| < |buf|
    ensures var end := Wrap(start + |q|, |buf|);
            && end < |buf| && buf[end] == None
            && Holds(buf[end := Some(x)], start, q + [x])
            && Succ(end, |buf|) == Wrap(start + |q + [x]|, |buf|)
  {
  }

  /* ---- the ring ---- */

  datatype Item<T> = Item(payload: T, inProduction: bool, inConsumption: bool, inUse: bool)

  datatype Ring<T> = Ring(
    items: seq<Item<T>>,
    freeBuf: seq<Option<nat>>,
    relBuf: seq<Option<nat>>,
    numProduced: int,
    numReleased: int,
    nextAdd: nat,
    nextRelease: nat,
    nextConsume: nat,
    nextRemoved: nat)
  {
    function N(): nat { |items| }

    /** Array sizes and index ranges: what C++ needs to stay inside its arrays. */
    ghost predicate Shape() {
      && N() >= 1
      && |freeBuf| == |relBuf| == N()
      && nextAdd < N() && nextRelease < N() && nextConsume < N() && nextRemoved < N()
      && (forall j :: 0 <= j < N() && freeBuf[j].Some? ==> freeBuf[j].value < N())
      && (forall j :: 0 <= j < N() && relBuf[j].Some? ==> relBuf[j].value < N())
    }
  }

  /** Where a slot is, read off its three flags. */
  datatype Place = Free | InProduction | Released | InConsumption | Inconsistent

  function PlaceOf<T>(it: Item<T>): Place {
    if !it.inUse && !it.inProduction && !it.inConsumption then Free
    else if it.inUse && it.inProduction && !it.inConsumption then InProduction
    else if it.inUse && !it.inProduction && !it.inConsumption then Released
    else if it.inUse && !it.inProduction && it.inConsumption then InConsumption
    else Inconsistent
  }

  function InitialRing<T>(payloads: seq<T>): Ring<T> {
    var n := |payloads|;
    Ring(seq(n, i requires 0 <= i < n => Item(payloads[i], false, false, false)),
         seq(n, i => Some(i)), seq(n, i => None), 0, 0, 0, 0, 0, 0)
  }

  /** Result of a block: the new ring and the slot it handled, or a failed `assert`. */
  datatype Block<T> = Done(ring: Ring<T>, slot: nat) | AssertFails

  /** produce(), lines 159-168. */
  function TakeFree<T>(r: Ring<T>): Block<T>
    requires r.Shape()
  {
    match r.freeBuf[r.nextAdd]
    case None => AssertFails
    case Some(s) =>
      var it := r.items[s];
      if it.inUse || it.inProduction then AssertFails
      else Done(r.(freeBuf := r.freeBuf[r.nextAdd := None],
                   items := r.items[s := it.(inProduction := true, inUse := true)],
                   nextAdd := Succ(r.nextAdd, r.N()),
                   numProduced := r.numProduced + 1), s)
  }

  /** produce(), lines 141-152: drop the oldest released item. */
  function Evict<T>(r: Ring<T>): Block<T>
    requires r.Shape()
  {
    match r.relBuf[r.nextConsume]
    case None => AssertFails
    case Some(s) =>
      var it := r.items[s];
      if it.inProduction || it.inConsumption then AssertFails
      else Done(r.(items := r.items[s := it.(inUse := false)],
                   freeBuf := r.freeBuf[r.nextRemoved := Some(s)],
                   relBuf := r.relBuf[r.nextConsume := None],
                   nextConsume := Succ(r.nextConsume, r.N()),
                   nextRemoved := Succ(r.nextRemoved, r.N()),
                   numProduced := r.numProduced - 1,
                   numReleased := r.numReleased - 1), s)
  }

  /** release(), lines 184-188. */
  function StoreReleased<T>(r: Ring<T>, s: nat): Ring<T>
    requires r.Shape() && s < r.N()
  {
    r.(items := r.items[s := r.items[s].(inProduction := false)],
       relBuf := r.relBuf[r.nextRelease := Some(s)],
       nextRelease := Succ(r.nextRelease, r.N()),
       numReleased := r.numReleased + 1)
  }

  /** consume(), lines 208-215. */
  function TakeReleased<T>(r: Ring<T>): Block<T>
    requires r.Shape()
  {
    match r.relBuf[r.nextConsume]
    case None => AssertFails
    case Some(s) =>
      var it := r.items[s];
      if !it.inUse then AssertFails
      else Done(r.(relBuf := r.relBuf[r.nextConsume := None],
                   items := r.items[s := it.(inConsumption := true)],
                   nextConsume := Succ(r.nextConsume, r.N()),
                   numReleased := r.numReleased - 1), s)
  }

  /** cleanup(), lines 231-236. */
  function ReturnFree<T>(r: Ring<T>, s: nat): Ring<T>
    requires r.Shape() && s < r.N()
  {
    r.(items := r.items[s := r.items[s].(inUse := false, inConsumption := false)],
       freeBuf := r.freeBuf[r.nextRemoved := Some(s)],
       nextRemoved := Succ(r.nextRemoved, r.N()),
       numProduced := r.numProduced - 1)
  }

  /* ---- the ring as two queues of slots ---- */

  /** `r` represents the queue `fq` of free slots and the queue `rq` of released
      slots: the two circular arrays hold them and nothing else, counters and end
      indices agree, and the flags of every slot say which of the four places it is in. */
  ghost predicate Represents<T>(r: Ring<T>, fq: seq<nat>, rq: seq<nat>) {
    && r.Shape()
    && Holds(r.freeBuf, r.nextAdd, fq) && Holds(r.relBuf, r.nextConsume, rq)
    && |fq| == r.N() - r.numProduced && |rq| == r.numReleased
    && r.nextRemoved == Wrap(r.nextAdd + |fq|, r.N())
    && r.nextRelease == Wrap(r.nextConsume + |rq|, r.N())
    && NoDup(fq) && NoDup(rq)
    && InRange(fq, r.N()) && InRange(rq, r.N())
    && FlagsAgree(r.items, fq, rq)
  }

  ghost predicate InRange(q: seq<nat>, n: nat) {
    forall i :: 0 <= i < |q| ==> q[i] < n
  }

  ghost predicate FlagsAgree<T>(items: seq<Item<T>>, fq: seq<nat>, rq: seq<nat>) {
    forall s :: 0 <= s < |items| ==>
      && PlaceOf(items[s]) != Inconsistent
      && (s in fq <==> PlaceOf(items[s]) == Free)
      && (s in rq <==> PlaceOf(items[s]) == Released)
  }

  function Entry(o: Option<nat>): nat {
    match o case Some(v) => v case None => 0
  }

  /** The queue a circular array denotes, computed from the array. */
  function Contents(buf: seq<Option<nat>>, start: nat, len: nat): (q: seq<nat>)
    requires start < |buf| && len <= |buf|
    ensures |q| == len
  {
    if len == 0 then []
    else Contents(buf, start, len - 1) + [Entry(buf[Wrap(start + len - 1, |buf|)])]
  }

  lemma {:induction false} PrefixIsContents(buf: seq<Option<nat>>, start: nat, q: seq<nat>, len: nat)
    requires Holds(buf, start, q) && len <= |q|
    ensures Contents(buf, start, len) == q[..len]
  {
    if len == 0 {
    } else {
      PrefixIsContents(buf, start, q, len - 1);
      var j := Wrap(start + len - 1, |buf|);
      assert Dist(j, start, |buf|) == len - 1;
      assert buf[j] == Some(q[len - 1]);
    }
  }


  lemma HeldIsContents(buf: seq<Option<nat>>, start: nat, q: seq<nat>)
    requires Holds(buf, start, q)
    ensures Contents(buf, start, |q|) == q
  {
    PrefixIsContents(buf, start, q, |q|);
    assert q[..|q|] == q;
  }

  ghost predicate CountersInRange<T>(r: Ring<T>) {
    r.Shape() && 0 <= r.numReleased <= r.N() && 0 <= r.numProduced <= r.N()
  }

  ghost function FreeQ<T>(r: Ring<T>): seq<nat>
    requires CountersInRange(r)
  {
    Contents(r.freeBuf, r.nextAdd, r.N() - r.numProduced)
  }

  ghost function ReleasedQ<T>(r: Ring<T>): seq<nat>
    requires CountersInRange(r)
  {
    Contents(r.relBuf, r.nextConsume, r.numReleased)
  }

  ghost predicate Valid<T>(r: Ring<T>) {
    CountersInRange(r) && Represents(r, FreeQ(r), ReleasedQ(r))
  }

  lemma RepresentedIsValid<T>(r: Ring<T>, fq: seq<nat>, rq: seq<nat>)
    requires Represents(r, fq, rq)
    ensures Valid(r) && FreeQ(r) == fq && ReleasedQ(r) == rq
  {
    HeldIsContents(r.freeBuf, r.nextAdd, fq);
    HeldIsContents(r.relBuf, r.nextConsume, rq);
  }

  lemma InitialIsValid<T>(payloads: seq<T>)
    requires |payloads| >= 1
    ensures var r := InitialRing(payloads);
            && Valid(r) && FreeQ(r) == seq(|payloads|, i => i) && ReleasedQ(r) == []
            && (forall s :: 0 <= s < r.N() ==> PlaceOf(r.items[s]) == Free)
  {
    var r := InitialRing(payloads);
    var fq: seq<nat> := seq(|payloads|, i => i);
    forall s | 0 <= s < |payloads|
      ensures s in fq
    {
      assert fq[s] == s;
    }
    assert Represents(r, fq, []);
    RepresentedIsValid(r, fq, []);
  }

  /** Only slot `s` changed, and it moved from place `from` to place `to` with its payload intact. */
  ghost predicate Moves<T>(r: Ring<T>, r': Ring<T>, s: nat, from: Place, to: Place) {
    && s < |r.items| && |r'.items| == |r.items|
    && PlaceOf(r.items[s]) == from && PlaceOf(r'.items[s]) == to
    && r'.items[s].payload == r.items[s].payload
    && r'.items == r.items[s := r'.items[s]]
  }

  lemma TakeFreeIsDequeue<T>(r: Ring<T>)
    requires Valid(r) && r.numProduced < r.N()
    ensures var b := TakeFree(r);
            && b.Done? && Valid(b.ring) && b.slot == FreeQ(r)[0]
            && FreeQ(b.ring) == FreeQ(r)[1..] && ReleasedQ(b.ring) == ReleasedQ(r)
            && b.ring.numProduced == r.numProduced + 1 && b.ring.numReleased == r.numReleased
            && Moves(r, b.ring, b.slot, Free, InProduction)
  {
    hide Holds, NoDup;
    var fq, rq := FreeQ(r), ReleasedQ(r);
    PopFront(r.freeBuf, r.nextAdd, fq);
    TailNoDup(fq);
    assert fq[0] in fq;
    var b := TakeFree(r);
    assert b.Done? && b.slot == fq[0];
    assert Represents(b.ring, fq[1..], rq);
    RepresentedIsValid(b.ring, fq[1..], rq);
  }

  lemma EvictIsTransfer<T>(r: Ring<T>)
    requires Valid(r) && r.numReleased > 0
    ensures var b := Evict(r);
            && b.Done? && Valid(b.ring) && b.slot == ReleasedQ(r)[0]
            && FreeQ(b.ring) == FreeQ(r) + [b.slot] && ReleasedQ(b.ring) == ReleasedQ(r)[1..]
            && b.ring.numProduced == r.numProduced - 1 && b.ring.numReleased == r.numReleased - 1
            && Moves(r, b.ring, b.slot, Released, Free)
  {
    hide Holds, NoDup;
    var fq, rq := FreeQ(r), ReleasedQ(r);
    var s := rq[0];
    assert s in rq;
    PopFront(r.relBuf, r.nextConsume, rq);
    TailNoDup(rq);
    MissingOneIsShorter(fq, r.N(), s);
    PushBack(r.freeBuf, r.nextAdd, fq, s);
    SnocNoDup(fq, s);
    var b := Evict(r);
    assert b.Done? && b.slot == s;
    assert Represents(b.ring, fq + [s], rq[1..]);
    RepresentedIsValid(b.ring, fq + [s], rq[1..]);
  }

  lemma StoreReleasedIsEnqueue<T>(r: Ring<T>, s: nat)
    requires Valid(r) && s < r.N() && PlaceOf(r.items[s]) == InProduction
    ensures var r' := StoreReleased(r, s);
            && Valid(r') && FreeQ(r') == FreeQ(r) && ReleasedQ(r') == ReleasedQ(r) + [s]
            && r'.numProduced == r.numProduced && r'.numReleased == r.numReleased + 1
            && Moves(r, r', s, InProduction, Released)
  {
    hide Holds, NoDup;
    var fq, rq := FreeQ(r), ReleasedQ(r);
    MissingOneIsShorter(rq, r.N(), s);
    PushBack(r.relBuf, r.nextConsume, rq, s);
    SnocNoDup(rq, s);
    assert Represents(StoreReleased(r, s), fq, rq + [s]);
    RepresentedIsValid(StoreReleased(r, s), fq, rq + [s]);
  }

  lemma TakeReleasedIsDequeue<T>(r: Ring<T>)
    requires Valid(r) && r.numReleased > 0
    ensures var b := TakeReleased(r);
            && b.Done? && Valid(b.ring) && b.slot == ReleasedQ(r)[0]
            && FreeQ(b.ring) == FreeQ(r) && ReleasedQ(b.ring) == ReleasedQ(r)[1..]
            && b.ring.numProduced == r.numProduced && b.ring.numReleased == r.numReleased - 1
            && Moves(r, b.ring, b.slot, Released, InConsumption)
  {
    hide Holds, NoDup;
    var fq, rq := FreeQ(r), ReleasedQ(r);
    assert rq[0] in rq;
    PopFront(r.relBuf, r.nextConsume, rq);
    TailNoDup(rq);
    var b := TakeReleased(r);
    assert b.Done? && b.slot == rq[0];
    assert Represents(b.ring, fq, rq[1..]);
    RepresentedIsValid(b.ring, fq, rq[1..]);
  }

  lemma ReturnFreeIsEnqueue<T>(r: Ring<T>, s: nat)
    requires Valid(r) && s < r.N() && PlaceOf(r.items[s]) == InConsumption
    ensures var r' := ReturnFree(r, s);
            && Valid(r') && FreeQ(r') == FreeQ(r) + [s] && ReleasedQ(r') == ReleasedQ(r)
            && r'.numProduced == r.numProduced - 1 && r'.numReleased == r.numReleased
            && Moves(r, r', s, InConsumption, Free)
  {
    hide Holds, NoDup;
    var fq, rq := FreeQ(r), ReleasedQ(r);
    MissingOneIsShorter(fq, r.N(), s);
    PushBack(r.freeBuf, r.nextAdd, fq, s);
    SnocNoDup(fq, s);
    assert Represents(ReturnFree(r, s), fq + [s], rq);
    RepresentedIsValid(ReturnFree(r, s), fq + [s], rq);
  }

  /** Writing a payload touches neither queues nor flags. */
  function WritePayload<T>(r: Ring<T>, s: nat, v: T): Ring<T>
    requires s < |r.items|
  {
    r.(items := r.items[s := r.items[s].(payload := v)])
  }

  lemma WritePayloadKeepsQueues<T>(r: Ring<T>, s: nat, v: T)
    requires Valid(r) && s < r.N()
    ensures var r' := WritePayload(r, s, v);
            Valid(r') && FreeQ(r') == FreeQ(r) && ReleasedQ(r') == ReleasedQ(r)
  {
    assert Represents(WritePayload(r, s, v), FreeQ(r), ReleasedQ(r));
  }

  /* ---- counting slots by place ---- */

  ghost function SlotsAt<T>(items: seq<Item<T>>, p: Place): set<nat> {
    set s: nat | s < |items| && PlaceOf(items[s]) == p
  }

  lemma DisjointSizes(a: set<nat>, b: set<nat>, c: set<nat>, d: set<nat>)
    requires a !! b && (a + b) !! c && (a + b + c) !! d
    ensures |a + b + c + d| == |a| + |b| + |c| + |d|
  {
    assert |a + b| == |a| + |b|;
    assert |a + b + c| == |a + b| + |c|;
  }

  lemma QueuesAreTheirPlaces<T>(r: Ring<T>)
    requires Valid(r)
    ensures SlotsAt(r.items, Free) == Elements(FreeQ(r))
    ensures SlotsAt(r.items, Released) == Elements(ReleasedQ(r))
  {
    var fq, rq := FreeQ(r), ReleasedQ(r);
    forall s: nat
      ensures s in SlotsAt(r.items, Free) <==> s in fq
      ensures s in SlotsAt(r.items, Released) <==> s in rq
    {
    }
  }

  lemma EverySlotIsSomewhere<T>(r: Ring<T>)
    requires Valid(r)
    ensures SlotsAt(r.items, Free) + SlotsAt(r.items, InProduction)
          + SlotsAt(r.items, Released) + SlotsAt(r.items, InConsumption) == Below(r.N())
  {
    assert forall s :: 0 <= s < r.N() ==> PlaceOf(r.items[s]) != Inconsistent;
  }

  /** Every slot is in exactly one place, and the two counters count them. */
  lemma Conservation<T>(r: Ring<T>)
    requires Valid(r)
    ensures |SlotsAt(r.items, Free)| == r.N() - r.numProduced
    ensures |SlotsAt(r.items, Released)| == r.numReleased
    ensures r.numProduced ==
            |SlotsAt(r.items, InProduction)| + r.numReleased + |SlotsAt(r.items, InConsumption)|
  {
    QueuesAreTheirPlaces(r);
    EverySlotIsSomewhere(r);
    NoDupSize(FreeQ(r));
    NoDupSize(ReleasedQ(r));
    BelowSize(r.N());
    DisjointSizes(SlotsAt(r.items, Free), SlotsAt(r.items, InProduction),
                  SlotsAt(r.items, Released), SlotsAt(r.items, InConsumption));
  }

  /* ---- whole calls, when no other thread runs ---- */

  /** A call returns, perhaps with a slot, or waits on a semaphore nobody will post. */
  datatype Call<T> = Returns(ring: Ring<T>, slot: Option<nat>) | Waits | Aborts

  function ReturnSlot<T>(b: Block<T>): Call<T> {
    match b case Done(r, s) => Returns(r, Some(s)) case AssertFails => Aborts
  }

  /** produce(block), lines 130-172. */
  function ProduceAlone<T>(r: Ring<T>, block: bool): Call<T>
    requires Valid(r)
  {
    if !block && r.N() == r.numProduced then
      if r.numReleased == 0 then Waits
      else
        EvictIsTransfer(r);
        ReturnSlot(TakeFree(Evict(r).ring))
    else if r.numProduced == r.N() then Waits
    else ReturnSlot(TakeFree(r))
  }

  /** consume(block), lines 194-219. */
  function ConsumeAlone<T>(r: Ring<T>, block: bool): Call<T>
    requires Valid(r)
  {
    if r.numReleased == 0 then if block then Waits else Returns(r, None)
    else ReturnSlot(TakeReleased(r))
  }
}
