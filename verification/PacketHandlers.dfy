/** The two users of the uml-to-slirp ring: the plug, which receives packets into
    it, and the slirp handler, which sends them out of it. */
module PacketHandlers {
  import opened Prelude
  import opened RingBlocks
  import PC = ProducerConsumer

  type Packet = seq<Byte>

  /** ETH_MAX_PACKET + ETH_ADDR_LEN + ETH_HEADER_ETHERTAP + ETH_HEADER_OTHER. */
  const CAPACITY: nat := 1500 + 6 + 16 + 26

  const ENOTCONN: int := 107

  datatype XferBuffer = XferBuffer(data: seq<Byte>, fill: nat)

  /** What one net_recvfrom() did: its result, the bytes it stored, and errno. */
  datatype Receipt = Receipt(result: int, bytes: Packet, errno: int)

  /** A positive result counts the bytes stored, which fit the buffer. */
  predicate Proper(rc: Receipt) {
    rc.result > 0 ==> |rc.bytes| == rc.result <= CAPACITY
  }

  function PacketsIn(rc: Receipt): seq<Packet> {
    if rc.result > 0 then [rc.bytes] else []
  }

  /* ---- the two handlers, as functions of the ring ---- */

  function Filled(buffer: XferBuffer, rc: Receipt): XferBuffer
    requires |buffer.data| == CAPACITY && Proper(rc)
  {
    if 0 < rc.result then XferBuffer(rc.bytes + buffer.data[rc.result..], rc.result)
    else XferBuffer(buffer.data, 0)
  }

  ghost predicate BuffersFit(r: Ring<XferBuffer>) {
    forall s :: 0 <= s < |r.items| ==> |r.items[s].payload.data| == CAPACITY && r.items[s].payload.fill <= CAPACITY
  }

  /** A valid ring of which no slot is checked out. */
  ghost predicate Settled(r: Ring<XferBuffer>) {
    && Valid(r) && BuffersFit(r)
    && forall s :: 0 <= s < |r.items| ==> PlaceOf(r.items[s]) == Free || PlaceOf(r.items[s]) == Released
  }

  /** The packets waiting in the ring, oldest first; empty buffers are no packets. */
  ghost function Waiting(r: Ring<XferBuffer>): seq<Packet>
    requires Valid(r) && BuffersFit(r)
  {
    PacketsOf(r.items, ReleasedQ(r))
  }

  ghost function PacketsOf(items: seq<Item<XferBuffer>>, q: seq<nat>): seq<Packet>
    requires InRange(q, |items|)
    requires forall i :: 0 <= i < |q| ==> items[q[i]].payload.fill <= |items[q[i]].payload.data|
  {
    if q == [] then []
    else
      assert forall i :: 0 <= i < |q| - 1 ==> q[..|q| - 1][i] == q[i];
      var b := items[q[|q| - 1]].payload;
      PacketsOf(items, q[..|q| - 1]) + if b.fill != 0 then [b.data[..b.fill]] else []
  }

  lemma {:induction false} PacketsFront(items: seq<Item<XferBuffer>>, q: seq<nat>)
    requires InRange(q, |items|) && q != []
    requires forall i :: 0 <= i < |q| ==> items[q[i]].payload.fill <= |items[q[i]].payload.data|
    ensures InRange(q[1..], |items|)
    ensures var b := items[q[0]].payload;
            PacketsOf(items, q) == (if b.fill != 0 then [b.data[..b.fill]] else []) + PacketsOf(items, q[1..])
  {
    if |q| == 1 {
      assert q[..0] == [] && q[1..] == [];
    } else {
      var front := q[..|q| - 1];
      PacketsFront(items, front);
      assert front[1..] == q[1..][..|q| - 2];
    }
  }

  lemma {:induction false} PacketsSame(items: seq<Item<XferBuffer>>, items': seq<Item<XferBuffer>>, q: seq<nat>)
    requires InRange(q, |items|) && |items'| == |items|
    requires forall i :: 0 <= i < |q| ==> items'[q[i]].payload == items[q[i]].payload
    requires forall i :: 0 <= i < |q| ==> items[q[i]].payload.fill <= |items[q[i]].payload.data|
    ensures PacketsOf(items', q) == PacketsOf(items, q)
  {
    if q == [] {
    } else {
      PacketsSame(items, items', q[..|q| - 1]);
    }
  }

  /** The readable half of UmlNetworkSocketPlug::execute(). */
  function Receive(r: Ring<XferBuffer>, rc: Receipt): Call<XferBuffer>
    requires Valid(r) && BuffersFit(r) && Proper(rc)
  {
    match ProduceAlone(r, false)
    case Returns(r1, Some(s)) =>
      ProducedSlot(r);
      Returns(StoreReleased(WritePayload(r1, s, Filled(r1.items[s].payload, rc)), s), None)
    case c => c
  }

  /** The writable half of SlirpHandler::execute(), and what it sends. */
  function Send(r: Ring<XferBuffer>): (Ring<XferBuffer>, seq<Packet>)
    requires Valid(r) && BuffersFit(r)
  {
    match ConsumeAlone(r, false)
    case Returns(r1, Some(s)) =>
      ConsumedSlot(r);
      var b := r1.items[s].payload;
      (ReturnFree(r1, s), if b.fill != 0 then [b.data[..b.fill]] else [])
    case _ => (r, [])
  }

  lemma MovesKeepBuffers(r: Ring<XferBuffer>, r': Ring<XferBuffer>, s: nat, from: Place, to: Place)
    requires Moves(r, r', s, from, to) && BuffersFit(r)
    ensures BuffersFit(r')
  {
  }

  lemma TakenSlot(r: Ring<XferBuffer>)
    requires Valid(r) && BuffersFit(r) && r.numProduced < r.N()
    ensures var b := TakeFree(r);
            b.Done? && Valid(b.ring) && BuffersFit(b.ring) && b.slot < b.ring.N() == r.N()
            && PlaceOf(b.ring.items[b.slot]) == InProduction
  {
    TakeFreeIsDequeue(r);
    MovesKeepBuffers(r, TakeFree(r).ring, TakeFree(r).slot, Free, InProduction);
  }

  lemma EvictedRing(r: Ring<XferBuffer>)
    requires Valid(r) && BuffersFit(r) && r.numReleased > 0 && r.numProduced == r.N()
    ensures var b := Evict(r);
            b.Done? && Valid(b.ring) && BuffersFit(b.ring) && b.ring.N() == r.N() && b.ring.numProduced < r.N()
  {
    EvictIsTransfer(r);
    MovesKeepBuffers(r, Evict(r).ring, Evict(r).slot, Released, Free);
  }

  /** What produce(false) hands out, when it returns. */
  lemma ProducedSlot(r: Ring<XferBuffer>)
    requires Valid(r) && BuffersFit(r)
    ensures match ProduceAlone(r, false)
            case Returns(r1, Some(s)) =>
              Valid(r1) && BuffersFit(r1) && s < r1.N() == r.N() && PlaceOf(r1.items[s]) == InProduction
            case Returns(_, None) => false
            case Waits => r.numProduced == r.N() && r.numReleased == 0
            case Aborts => false
  {
    if r.N() == r.numProduced {
      if r.numReleased > 0 {
        EvictedRing(r);
        TakenSlot(Evict(r).ring);
      }
    } else {
      TakenSlot(r);
    }
  }

  lemma ConsumedSlot(r: Ring<XferBuffer>)
    requires Valid(r) && BuffersFit(r)
    ensures match ConsumeAlone(r, false)
            case Returns(r1, Some(s)) =>
              && Valid(r1) && BuffersFit(r1) && s < r1.N() == r.N() && PlaceOf(r1.items[s]) == InConsumption
              && r.numReleased > 0 && s == ReleasedQ(r)[0] && r1.items[s].payload == r.items[s].payload
            case Returns(r1, None) => r1 == r && r.numReleased == 0
            case _ => false
  {
    if r.numReleased > 0 {
      TakeReleasedIsDequeue(r);
    }
  }

  /** Both halves keep the ring valid and the buffers as large as they were. */
  lemma ReceiveFits(r: Ring<XferBuffer>, rc: Receipt)
    requires Valid(r) && BuffersFit(r) && Proper(rc)
    ensures match Receive(r, rc) case Returns(r', _) => Valid(r') && BuffersFit(r') && r'.N() == r.N() case _ => true
  {
    hide Represents;
    ProducedSlot(r);
    match ProduceAlone(r, false)
    case Returns(r1, Some(s)) =>
      FilledContents(r1.items[s].payload, rc);
      var v := Filled(r1.items[s].payload, rc);
      WritePayloadKeepsQueues(r1, s, v);
      var r2 := WritePayload(r1, s, v);
      assert BuffersFit(r2) && PlaceOf(r2.items[s]) == InProduction;
      StoreReleasedIsEnqueue(r2, s);
      MovesKeepBuffers(r2, StoreReleased(r2, s), s, InProduction, Released);
    case _ =>
  }

  lemma SendFits(r: Ring<XferBuffer>)
    requires Valid(r) && BuffersFit(r)
    ensures Valid(Send(r).0) && BuffersFit(Send(r).0) && Send(r).0.N() == r.N()
  {
    hide Represents;
    ConsumedSlot(r);
    match ConsumeAlone(r, false)
    case Returns(r1, Some(s)) =>
      ReturnFreeIsEnqueue(r1, s);
      MovesKeepBuffers(r1, ReturnFree(r1, s), s, InConsumption, Free);
    case _ =>
  }

  /* ---- no packet is lost in either half ---- */

  /** A ring of which only slot `s` is checked out. */
  ghost predicate OnlyOut(r: Ring<XferBuffer>, s: nat, p: Place) {
    && Valid(r) && BuffersFit(r) && s < r.N() && PlaceOf(r.items[s]) == p
    && forall x :: 0 <= x < |r.items| && x != s ==> PlaceOf(r.items[x]) == Free || PlaceOf(r.items[x]) == Released
  }

  lemma TakeFromSettled(r: Ring<XferBuffer>)
    requires Settled(r) && r.numProduced < r.N()
    ensures var b := TakeFree(r);
            b.Done? && b.slot < r.N() == b.ring.N() && OnlyOut(b.ring, b.slot, InProduction)
            && b.slot !in ReleasedQ(r) && Waiting(b.ring) == Waiting(r) && b.ring.numReleased == r.numReleased
  {
    TakeFreeIsDequeue(r);
    var b := TakeFree(r);
    MovesKeepBuffers(r, b.ring, b.slot, Free, InProduction);
    PacketsSame(r.items, b.ring.items, ReleasedQ(r));
  }

  lemma FillTaken(r: Ring<XferBuffer>, s: nat, rc: Receipt)
    requires OnlyOut(r, s, InProduction) && Proper(rc)
    ensures var v := Filled(r.items[s].payload, rc);
            var r' := WritePayload(r, s, v);
            OnlyOut(r', s, InProduction) && Waiting(r') == Waiting(r) && r'.N() == r.N()
            && PacketsIn(rc) == if v.fill != 0 then [v.data[..v.fill]] else []
  {
    FilledContents(r.items[s].payload, rc);
    WriteKeepsWaiting(r, s, Filled(r.items[s].payload, rc));
  }

  lemma FilledContents(b: XferBuffer, rc: Receipt)
    requires |b.data| == CAPACITY && Proper(rc)
    ensures var v := Filled(b, rc);
            |v.data| == CAPACITY && v.fill <= CAPACITY
            && PacketsIn(rc) == if v.fill != 0 then [v.data[..v.fill]] else []
  {
    var v := Filled(b, rc);
    assert 0 < rc.result ==> v.data[..v.fill] == rc.bytes;
  }

  lemma WriteKeepsWaiting(r: Ring<XferBuffer>, s: nat, v: XferBuffer)
    requires OnlyOut(r, s, InProduction) && |v.data| == CAPACITY && v.fill <= CAPACITY
    ensures var r' := WritePayload(r, s, v);
            OnlyOut(r', s, InProduction) && Waiting(r') == Waiting(r) && r'.N() == r.N() && r'.items[s].payload == v
  {
    WritePayloadKeepsQueues(r, s, v);
    assert s !in ReleasedQ(r);
    PacketsSame(r.items, WritePayload(r, s, v).items, ReleasedQ(r));
  }

  lemma ReleaseTaken(r: Ring<XferBuffer>, s: nat)
    requires OnlyOut(r, s, InProduction)
    ensures var r' := StoreReleased(r, s);
            var v := r.items[s].payload;
            Settled(r') && r'.N() == r.N() && r'.numReleased == r.numReleased + 1
            && Waiting(r') == Waiting(r) + if v.fill != 0 then [v.data[..v.fill]] else []
  {
    StoreReleasedIsEnqueue(r, s);
    var r' := StoreReleased(r, s);
    MovesKeepBuffers(r, r', s, InProduction, Released);
    var q := ReleasedQ(r);
    PacketsSame(r.items, r'.items, q);
    assert (q + [s])[..|q|] == q;
  }

  /** Receiving into a ring with a free slot releases one more slot, and appends the received
      packet to the waiting ones, or nothing when none was received. */
  lemma ReceiveAppends(r: Ring<XferBuffer>, rc: Receipt)
    requires Settled(r) && Proper(rc) && r.numProduced < r.N()
    ensures var c := Receive(r, rc);
            && c.Returns? && Settled(c.ring) && c.ring.N() == r.N() && c.ring.numReleased == r.numReleased + 1
            && Waiting(c.ring) == Waiting(r) + PacketsIn(rc)
  {
    hide Represents, Waiting;
    TakeFromSettled(r);
    var b := TakeFree(r);
    FillTaken(b.ring, b.slot, rc);
    ReleaseTaken(WritePayload(b.ring, b.slot, Filled(b.ring.items[b.slot].payload, rc)), b.slot);
  }

  /** The packet, if any, in the buffer released longest ago. */
  ghost function Oldest(r: Ring<XferBuffer>): seq<Packet>
    requires Valid(r) && BuffersFit(r)
  {
    if r.numReleased == 0 then []
    else
      var b := r.items[ReleasedQ(r)[0]].payload;
      if b.fill != 0 then [b.data[..b.fill]] else []
  }

  lemma EvictFromSettled(r: Ring<XferBuffer>)
    requires Settled(r) && r.numReleased > 0
    ensures var b := Evict(r);
            && b.Done? && Settled(b.ring) && b.ring.N() == r.N() && b.ring.numReleased == r.numReleased - 1
            && b.ring.numProduced < r.N() && Oldest(r) + Waiting(b.ring) == Waiting(r)
  {
    EvictIsTransfer(r);
    var b := Evict(r);
    MovesKeepBuffers(r, b.ring, b.slot, Released, Free);
    PacketsFront(r.items, ReleasedQ(r));
    PacketsSame(r.items, b.ring.items, ReleasedQ(r)[1..]);
  }

  /** Receiving into a ring full of released buffers drops the oldest packet. */
  lemma ReceiveOverwrites(r: Ring<XferBuffer>, rc: Receipt)
    requires Settled(r) && Proper(rc) && r.numProduced == r.N()
    ensures var c := Receive(r, rc);
            && c.Returns? && Settled(c.ring) && c.ring.N() == r.N() && c.ring.numReleased == r.numReleased
            && Oldest(r) + Waiting(c.ring) == Waiting(r) + PacketsIn(rc)
  {
    hide Represents, Waiting, Settled, Oldest;
    SettledFits(r);
    SettledCounters(r);
    EvictFromSettled(r);
    var r1 := Evict(r).ring;
    SettledFits(r1);
    ReceiveAppends(r1, rc);
    assert Receive(r, rc) == Receive(r1, rc);
    Regroup(Oldest(r), Waiting(r1), PacketsIn(rc));
  }

  lemma SettledFits(r: Ring<XferBuffer>)
    requires Settled(r)
    ensures Valid(r) && BuffersFit(r) && r.N() > 0
  {
  }

  lemma ConsumeFromSettled(r: Ring<XferBuffer>)
    requires Settled(r) && r.numReleased > 0
    ensures var b := TakeReleased(r);
            var v := r.items[ReleasedQ(r)[0]].payload;
            b.Done? && b.slot == ReleasedQ(r)[0] && b.ring.N() == r.N() && OnlyOut(b.ring, b.slot, InConsumption)
            && b.ring.items[b.slot].payload == v && b.ring.numReleased == r.numReleased - 1
            && (if v.fill != 0 then [v.data[..v.fill]] else []) + Waiting(b.ring) == Waiting(r)
  {
    TakeReleasedIsDequeue(r);
    var b := TakeReleased(r);
    MovesKeepBuffers(r, b.ring, b.slot, Released, InConsumption);
    PacketsFront(r.items, ReleasedQ(r));
    PacketsSame(r.items, b.ring.items, ReleasedQ(r)[1..]);
  }

  lemma CleanTaken(r: Ring<XferBuffer>, s: nat)
    requires OnlyOut(r, s, InConsumption)
    ensures var r' := ReturnFree(r, s);
            Settled(r') && r'.N() == r.N() && Waiting(r') == Waiting(r) && r'.numReleased == r.numReleased
  {
    ReturnFreeIsEnqueue(r, s);
    var r' := ReturnFree(r, s);
    MovesKeepBuffers(r, r', s, InConsumption, Free);
    PacketsSame(r.items, r'.items, ReleasedQ(r));
  }

  /** Sending takes the oldest released buffer out of the ring and hands out its packet. */
  lemma SendTakesOldest(r: Ring<XferBuffer>)
    requires Settled(r)
    ensures var (r', out) := Send(r);
            && Settled(r') && r'.N() == r.N() && out + Waiting(r') == Waiting(r) && out == Oldest(r)
            && r'.numReleased == if r.numReleased > 0 then r.numReleased - 1 else 0
  {
    if r.numReleased > 0 {
      ConsumeFromSettled(r);
      CleanTaken(TakeReleased(r).ring, TakeReleased(r).slot);
    }
  }

  /** A settled ring that is not full has room for one more packet; its counters agree. */
  lemma SettledCounters(r: Ring<XferBuffer>)
    requires Settled(r)
    ensures r.numProduced == r.numReleased
  {
    Conservation(r);
    assert SlotsAt(r.items, InProduction) == {};
    assert SlotsAt(r.items, InConsumption) == {};
  }

  /* ---- the two classes ---- */

  class UmlNetworkSocketPlug {
    const xferFd: int
    const rxPackets: PC.ProducerConsumer<XferBuffer>
    var waitForRead: bool
    var waitForWrite: bool
    var myErrno: int

    constructor (xferFd: int, rxPackets: PC.ProducerConsumer<XferBuffer>)
      ensures this.xferFd == xferFd && this.rxPackets == rxPackets
      ensures waitForRead && !waitForWrite && myErrno == 0
    {
      this.xferFd := xferFd;
      this.rxPackets := rxPackets;
      waitForRead, waitForWrite, myErrno := true, false, 0;
    }

    /** `txItems` is what the other ring's itemsAvailable() returns. */
    method Fd(txItems: int) returns (fd: int)
      requires rxPackets.Ready()
      modifies this`waitForRead, this`waitForWrite
      ensures fd == xferFd
      ensures waitForRead <==> rxPackets.View().numProduced < rxPackets.View().N()
      ensures waitForWrite <==> txItems != 0
    {
      Conservation(rxPackets.View());
      var slots := rxPackets.SlotsAvailable();
      waitForRead := slots != 0;
      waitForWrite := txItems != 0;
      fd := xferFd;
    }

    /** The readable half of execute(). The call does not end if `waits`. */
    method ExecuteReadable(rc: Receipt) returns (waits: bool)
      requires rxPackets.Ready() && BuffersFit(rxPackets.View()) && Proper(rc)
      modifies this`myErrno, rxPackets, rxPackets.itemBuffer, rxPackets.freeBuffer, rxPackets.releasedBuffer
      ensures rxPackets.SameArrays() && rxPackets.Ready()
      ensures match Receive(old(rxPackets.View()), rc)
              case Returns(r, _) => !waits && rxPackets.View() == r
              case Waits => waits && rxPackets.View() == old(rxPackets.View())
              case Aborts => false
      ensures myErrno == if waits || 0 < rc.result then old(myErrno) else if rc.result == 0 then -ENOTCONN else rc.errno
    {
      hide Represents;
      ProducedSlot(rxPackets.View());
      var slot := rxPackets.Produce(false);
      if slot == None {
        return true;
      }
      var s := slot.value;
      FilledContents(rxPackets.View().items[s].payload, rc);
      assert rxPackets.itemBuffer[s] == rxPackets.View().items[s];
      var rxBuffer := rxPackets.itemBuffer[s].payload;
      if 0 < rc.result {
        rxBuffer := XferBuffer(rc.bytes + rxBuffer.data[rc.result..], rc.result);
      } else {
        rxBuffer := rxBuffer.(fill := 0);
        var errno := if rc.result == 0 then -ENOTCONN else rc.errno;
        myErrno := errno;
      }
      rxPackets.Fill(s, rxBuffer);
      assert rxPackets.itemBuffer[s] == rxPackets.View().items[s];
      rxPackets.Release(s);
      return false;
    }
  }

  class SlirpHandler {
    const slirpFd: int
    const txPackets: PC.ProducerConsumer<XferBuffer>
    var waitForRead: bool
    var waitForWrite: bool
    var sent: seq<Packet>      // what vdeslirp_send() was given so far

    constructor (slirpFd: int, txPackets: PC.ProducerConsumer<XferBuffer>)
      ensures this.slirpFd == slirpFd && this.txPackets == txPackets
      ensures !waitForRead && !waitForWrite && sent == []
    {
      this.slirpFd := slirpFd;
      this.txPackets := txPackets;
      waitForRead, waitForWrite, sent := false, false, [];
    }

    /** `rxSlots` is what the other ring's slotsAvailable() returns. */
    method Fd(rxSlots: int) returns (fd: int)
      requires txPackets.Ready()
      modifies this`waitForRead, this`waitForWrite
      ensures fd == slirpFd
      ensures waitForRead <==> rxSlots != 0
      ensures waitForWrite <==> txPackets.View().numReleased != 0
    {
      Conservation(txPackets.View());
      waitForRead := rxSlots != 0;
      var items := txPackets.ItemsAvailable();
      waitForWrite := items != 0;
      fd := slirpFd;
    }

    /** The writable half of execute(). */
    method ExecuteWritable()
      requires txPackets.Ready() && BuffersFit(txPackets.View())
      modifies this`waitForWrite, this`sent
      modifies txPackets, txPackets.itemBuffer, txPackets.freeBuffer, txPackets.releasedBuffer
      ensures txPackets.SameArrays() && txPackets.Ready()
      ensures txPackets.View() == Send(old(txPackets.View())).0
      ensures sent == old(sent) + Send(old(txPackets.View())).1
      ensures waitForWrite == (old(waitForWrite) && old(txPackets.View()).numReleased != 0)
    {
      hide Represents;
      ConsumedSlot(txPackets.View());
      var waits, taken := txPackets.Consume(false);
      if taken != None {
        var s := taken.value;
        assert txPackets.itemBuffer[s] == txPackets.View().items[s];
        var txBuffer := txPackets.itemBuffer[s].payload;
        if txBuffer.fill != 0 {
          sent := sent + [txBuffer.data[..txBuffer.fill]];
        }
        txPackets.Cleanup(s);
      } else {
        waitForWrite := false;
      }
    }
  }
}
