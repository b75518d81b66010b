/** What forwarding does, beyond losing nothing: packets come in, wait, and go out again. */
module Delivery {
  import opened Prelude
  import opened RingBlocks
  import opened PacketHandlers
  import opened Forwarding
  import SL = SelectLoop
  import ST = SelectTheorems

  /* ---- one call of execute() ---- */

  /** A writable slirp sends the packet of the oldest released buffer, and frees the buffer. */
  lemma WritableSends(env: Environment, w: FitWorld, readable: bool)
    requires Lossless(w)
    ensures var w' := Execute(env, SLIRP, w, readable, true);
            && Lossless(w') && w'.ring.N() == w.ring.N() && w'.clock == w.clock + 1
            && w'.received == w.received && w'.sent == w.sent + Oldest(w.ring)
            && w'.ring.numReleased == if w.ring.numReleased > 0 then w.ring.numReleased - 1 else 0
  {
    SendTakesOldest(w.ring);
    SendingKeepsLossless(env, w, readable);
  }

  /** A readable plug with room in its ring receives, and releases one more buffer. */
  lemma ReadableReceives(env: Environment, w: FitWorld, writable: bool)
    requires Lossless(w) && w.ring.numProduced < w.ring.N()
    ensures var w' := Execute(env, UML, w, true, writable);
            && Lossless(w') && w'.ring.N() == w.ring.N() && w'.clock == w.clock + 1
            && w'.received == w.received + PacketsIn(env.net(w.clock)) && w'.sent == w.sent
            && w'.ring.numReleased == w.ring.numReleased + 1
  {
    ReceiveAppends(w.ring, env.net(w.clock));
    ReceivingKeepsLossless(env, w, writable);
  }

  /** Called without room it drops the oldest packet, and notes that it did. */
  lemma FullReceiveDrops(env: Environment, w: FitWorld, writable: bool)
    requires Settled(w.ring) && w.ring.numProduced == w.ring.N()
    ensures var w' := Execute(env, UML, w, true, writable);
            && Settled(w'.ring) && w'.ring.numReleased == w.ring.numReleased && w'.clock == w.clock + 1
            && w'.received == w.received + PacketsIn(env.net(w.clock)) && w'.sent == w.sent
            && w'.overwritten == w.overwritten + 1 && w'.stuck == w.stuck
            && Oldest(w.ring) + Waiting(w'.ring) == Waiting(w.ring) + PacketsIn(env.net(w.clock))
  {
    ReceiveOverwrites(w.ring, env.net(w.clock));
  }

  /** It waits for ever exactly if every slot is taken and none is released; with no slot
      checked out it never does. */
  lemma ReceiveStuckIff(env: Environment, w: FitWorld, writable: bool)
    requires !w.stuck
    ensures Execute(env, UML, w, true, writable).stuck <==> w.ring.numProduced == w.ring.N() && w.ring.numReleased == 0
  {
    ProducedSlot(w.ring);
  }

  /** The other halves of the two handlers leave this direction alone. */
  lemma OtherHalves(env: Environment, w: FitWorld, flag: bool)
    ensures Execute(env, UML, w, false, flag) == w.(clock := w.clock + 1)
    ensures Execute(env, SLIRP, w, flag, false) == w.(clock := w.clock + 1)
  {
  }

  /* ---- runs in which only one side is ready ---- */

  /** pselect() reports that slirp can write and that there is nothing to receive. */
  predicate OnlySends(env: Environment, sel: SL.Selected) {
    sel.count > 0 && env.slirpFd >= 0 && env.slirpFd in sel.write && env.umlFd !in sel.read
  }

  /** It reports something to receive, and nothing about slirp. */
  predicate OnlyReceives(env: Environment, sel: SL.Selected) {
    sel.count > 0 && env.umlFd >= 0 && env.umlFd in sel.read && env.slirpFd !in sel.read + sel.write
  }

  /** One turn of the loop over both handlers, one handler after the other. */
  lemma BothVisited(env: Environment, w: FitWorld, sel: SL.Selected)
    requires sel.count > 0 && (env.umlFd >= 0 || env.slirpFd >= 0)
    ensures var beh := Handlers(env);
            var w1 := SL.Stepped<FitWorld>(beh, SL.Visit<FitWorld>(beh, sel, UML, w), w);
            WaitOn(env, [UML, SLIRP], w, sel)
            == SL.Stepped<FitWorld>(beh, SL.Visit<FitWorld>(beh, sel, SLIRP, w1), w1)
  {
    hide SL.Visit, SL.Stepped;
    var beh, ids := Handlers(env), [UML, SLIRP];
    assert beh.fd(ids[0], w).fd == env.umlFd && beh.fd(ids[1], w).fd == env.slirpFd;
    var w1 := SL.Stepped<FitWorld>(beh, SL.Visit<FitWorld>(beh, sel, UML, w), w);
    var w2 := SL.Stepped<FitWorld>(beh, SL.Visit<FitWorld>(beh, sel, SLIRP, w1), w1);
    assert ids[1..] == [SLIRP];
    assert SL.WorldAt<FitWorld>(beh, sel, ids, w, 2) == SL.WorldAt<FitWorld>(beh, sel, [SLIRP], w1, 1);
    assert SL.WorldAt<FitWorld>(beh, sel, [SLIRP], w1, 1) == SL.WorldAt<FitWorld>(beh, sel, [], w2, 0);
    assert SL.AnyFd<FitWorld>(beh, ids, w);
  }

  /** What the turn does to the ring is what the plug and then slirp do to it. */
  lemma Visited(env: Environment, id: nat, w: FitWorld, sel: SL.Selected)
    ensures var beh, q := Handlers(env), Interest(env, id, w);
            var r, v := q.read && q.fd in sel.read, q.write && q.fd in sel.write;
            SL.Stepped<FitWorld>(beh, SL.Visit<FitWorld>(beh, sel, id, w), w)
            == if r || v then Execute(env, id, w, r, v) else w
  {
  }

  function Fewer(n: nat, k: nat): nat { if n < k then 0 else n - k }

  function Least(a: nat, b: nat): nat { if a < b then a else b }

  lemma SendingTurn(env: Environment, w: FitWorld, sel: SL.Selected)
    requires Lossless(w) && OnlySends(env, sel)
    ensures var w' := WaitOn(env, [UML, SLIRP], w, sel);
            && Lossless(w') && w'.received == w.received && w'.sent == w.sent + Oldest(w.ring)
            && w'.ring.numReleased == Fewer(w.ring.numReleased, 1)
  {
    hide Lossless, WaitOn, Execute;
    BothVisited(env, w, sel);
    Visited(env, UML, w, sel);
    var w1 := SL.Stepped<FitWorld>(Handlers(env), SL.Visit<FitWorld>(Handlers(env), sel, UML, w), w);
    OtherHalves(env, w, true);
    assert w1 == w || w1 == w.(clock := w.clock + 1);
    SameButClock(w, w1);
    Visited(env, SLIRP, w1, sel);
    WritableSends(env, w1, env.slirpFd in sel.read && env.rxSlots(w1.clock) != 0);
    OtherHalves(env, w1, true);
    SameButClock(w1, w1.(clock := w1.clock + 1));
    SettledCount(w);
  }

  lemma SameButClock(w: FitWorld, w': FitWorld)
    requires Lossless(w) && w' == w.(clock := w'.clock)
    ensures Lossless(w')
  {
  }

  lemma SettledCount(w: FitWorld)
    requires Lossless(w)
    ensures w.ring.numProduced == w.ring.numReleased >= 0
    ensures w.ring.numReleased == 0 ==> Oldest(w.ring) == [] && w.sent == w.received
  {
    SettledCounters(w.ring);
  }

  lemma LoopOnce(env: Environment, ids: seq<nat>, w: FitWorld, sels: seq<SL.Selected>)
    ensures Loop(env, ids, w, []) == w
    ensures sels != [] ==>
      Loop(env, ids, w, sels) == WaitOn(env, ids, Loop(env, ids, w, sels[..|sels| - 1]), sels[|sels| - 1])
  {
    hide WaitOn;
  }

  /** World `w'` is `w` after `k` turns in which slirp can write and nothing is received. */
  ghost predicate Drained(w: FitWorld, w': FitWorld, k: nat) {
    && Lossless(w') && w'.received == w.received && 0 <= w.ring.numReleased
    && w'.ring.numReleased == Fewer(w.ring.numReleased, k)
  }

  lemma DrainMore(env: Environment, w: FitWorld, w1: FitWorld, k: nat, sel: SL.Selected)
    requires Drained(w, w1, k) && OnlySends(env, sel)
    ensures Drained(w, WaitOn(env, [UML, SLIRP], w1, sel), k + 1)
  {
    hide Lossless, WaitOn, OnlySends, Fits;
    SendingTurn(env, w1, sel);
  }

  lemma {:induction false} Drains(env: Environment, w: FitWorld, sels: seq<SL.Selected>)
    requires Lossless(w)
    requires forall i :: 0 <= i < |sels| ==> OnlySends(env, sels[i])
    ensures Drained(w, Loop(env, [UML, SLIRP], w, sels), |sels|)
  {
    hide WaitOn, OnlySends, Drained, Loop, Lossless;
    LoopOnce(env, [UML, SLIRP], w, sels);
    if sels == [] {
      assert Drained(w, w, 0) by { NoneDrained(w); }
    } else {
      var front, last := sels[..|sels| - 1], sels[|sels| - 1];
      Drains(env, w, front);
      DrainMore(env, w, Loop(env, [UML, SLIRP], w, front), |front|, last);
    }
  }

  lemma NoneDrained(w: FitWorld)
    requires Lossless(w)
    ensures Drained(w, w, 0)
  {
    SettledCount(w);
  }

  /** As many turns in which slirp can write, and nothing is received, as buffers wait: then
      all that was ever received has been sent, and the ring is empty. */
  lemma AllIsSent(env: Environment, w: FitWorld, sels: seq<SL.Selected>)
    requires Lossless(w) && |sels| >= w.ring.numReleased
    requires forall i :: 0 <= i < |sels| ==> OnlySends(env, sels[i])
    ensures var w' := Loop(env, [UML, SLIRP], w, sels);
            w'.ring.numReleased == 0 && w'.received == w.received && w'.sent == w.received
  {
    Drains(env, w, sels);
    SettledCount(w);
    SettledCount(Loop(env, [UML, SLIRP], w, sels));
  }

  /** The packets of `n` receives from time `t` on. */
  function Arrivals(env: Environment, t: nat, n: nat): seq<Packet> {
    if n == 0 then [] else Arrivals(env, t, n - 1) + PacketsIn(env.net(t + n - 1))
  }

  lemma ReceivingTurn(env: Environment, w: FitWorld, sel: SL.Selected)
    requires Lossless(w) && OnlyReceives(env, sel)
    ensures var w' := WaitOn(env, [UML, SLIRP], w, sel);
            && Lossless(w') && w'.sent == w.sent && w'.ring.N() == w.ring.N()
            && (w.ring.numReleased < w.ring.N() ==>
                  && w'.received == w.received + PacketsIn(env.net(w.clock)) && w'.clock == w.clock + 1
                  && w'.ring.numReleased == w.ring.numReleased + 1)
            && (w.ring.numReleased == w.ring.N() ==> w'.received == w.received && w'.ring == w.ring)
  {
    hide Lossless, WaitOn, Execute;
    BothVisited(env, w, sel);
    SettledCount(w);
    Visited(env, UML, w, sel);
    var w1 := SL.Stepped<FitWorld>(Handlers(env), SL.Visit<FitWorld>(Handlers(env), sel, UML, w), w);
    var writable := env.umlFd in sel.write && env.txItems(w.clock) != 0;
    OtherHalves(env, w, writable);
    if w.ring.numReleased < w.ring.N() {
      ReadableReceives(env, w, writable);
    } else {
      SameButClock(w, w1);
    }
    Visited(env, SLIRP, w1, sel);
  }

  /** World `w'` is `w` after `k` turns in which only the plug is ready. */
  ghost predicate Filled(env: Environment, w: FitWorld, w': FitWorld, k: nat) {
    && w.ring.numReleased <= w.ring.N()
    && var m := Least(k, w.ring.N() - w.ring.numReleased);
       && Lossless(w') && w'.ring.N() == w.ring.N() && w'.sent == w.sent
       && w'.ring.numReleased == w.ring.numReleased + m
       && w'.received == w.received + Arrivals(env, w.clock, m)
       && (m == k ==> w'.clock == w.clock + k)
  }

  lemma FillMore(env: Environment, w: FitWorld, w1: FitWorld, k: nat, sel: SL.Selected)
    requires Filled(env, w, w1, k) && OnlyReceives(env, sel)
    ensures Filled(env, w, WaitOn(env, [UML, SLIRP], w1, sel), k + 1)
  {
    hide Lossless, WaitOn, OnlyReceives, Arrivals, PacketsIn, Fits;
    ReceivingTurn(env, w1, sel);
    if k < w.ring.N() - w.ring.numReleased {
      ArrivalsStep(env, w.clock, k);
      Regroup(w.received, Arrivals(env, w.clock, k), PacketsIn(env.net(w.clock + k)));
    }
  }

  lemma ArrivalsStep(env: Environment, t: nat, k: nat)
    ensures Arrivals(env, t, k + 1) == Arrivals(env, t, k) + PacketsIn(env.net(t + k))
  {
  }

  lemma FilledNone(env: Environment, w: FitWorld)
    requires Lossless(w)
    ensures Filled(env, w, w, 0)
  {
    SettledCount(w);
    assert w.received + [] == w.received;
  }

  /** Turns in which only the plug is ready fill the ring with what arrives, in order, until it
      is full; then nothing more is received. */
  lemma {:induction false} Fills(env: Environment, w: FitWorld, sels: seq<SL.Selected>)
    requires Lossless(w)
    requires forall i :: 0 <= i < |sels| ==> OnlyReceives(env, sels[i])
    ensures Filled(env, w, Loop(env, [UML, SLIRP], w, sels), |sels|)
  {
    hide WaitOn, OnlyReceives, Filled, Loop, Lossless;
    LoopOnce(env, [UML, SLIRP], w, sels);
    if sels == [] {
      FilledNone(env, w);
    } else {
      var front, last := sels[..|sels| - 1], sels[|sels| - 1];
      Fills(env, w, front);
      FillMore(env, w, Loop(env, [UML, SLIRP], w, front), |front|, last);
    }
  }

  lemma {:induction false} LoopConcat(env: Environment, ids: seq<nat>, w: FitWorld, a: seq<SL.Selected>,
                                      b: seq<SL.Selected>)
    ensures Loop(env, ids, w, a + b) == Loop(env, ids, Loop(env, ids, w, a), b)
  {
    hide WaitOn, Loop;
    LoopOnce(env, ids, w, a + b);
    LoopOnce(env, ids, Loop(env, ids, w, a), b);
    if b == [] {
      assert a + b == a;
    } else {
      var front := b[..|b| - 1];
      LoopConcat(env, ids, w, a, front);
      assert (a + b)[..|a + b| - 1] == a + front;
    }
  }

  /** From the start of the program: packets arrive for some turns, then slirp can write for
      as many. What was sent is what arrived, up to the size of the ring. */
  lemma Delivered(env: Environment, memory: seq<XferBuffer>, arriving: seq<SL.Selected>, leaving: seq<SL.Selected>)
    requires |memory| >= 1
    requires forall s :: 0 <= s < |memory| ==> |memory[s].data| == CAPACITY && memory[s].fill <= CAPACITY
    requires forall i :: 0 <= i < |arriving| ==> OnlyReceives(env, arriving[i])
    requires forall i :: 0 <= i < |leaving| ==> OnlySends(env, leaving[i])
    requires |leaving| >= Least(|arriving|, |memory|)
    ensures var w := Loop(env, [UML, SLIRP], Start(memory), arriving + leaving);
            && w.sent == w.received == Arrivals(env, 0, Least(|arriving|, |memory|))
            && w.ring.numReleased == 0
  {
    hide Loop, Lossless;
    var w := Start(memory);
    Starts(memory);
    Fills(env, w, arriving);
    AllIsSent(env, Loop(env, [UML, SLIRP], w, arriving), leaving);
    LoopConcat(env, [UML, SLIRP], w, arriving, leaving);
  }

  lemma Starts(memory: seq<XferBuffer>)
    requires |memory| >= 1
    requires forall s :: 0 <= s < |memory| ==> |memory[s].data| == CAPACITY && memory[s].fill <= CAPACITY
    ensures var w := Start(memory);
            && Lossless(w) && w.ring.numReleased == 0 && w.ring.N() == |memory|
            && w.received == [] && w.sent == [] && w.clock == 0
  {
    InitialIsValid(memory);
  }

  /* ---- the objects ---- */

  /** The two handlers share a ring, which is that of `w`, and slirp sent what `w` says. */
  ghost predicate Agree(plug: UmlNetworkSocketPlug, slirp: SlirpHandler, env: Environment, w: FitWorld)
    reads plug, slirp, plug.rxPackets
    reads plug.rxPackets.itemBuffer, plug.rxPackets.freeBuffer, plug.rxPackets.releasedBuffer
  {
    && plug.xferFd == env.umlFd && slirp.slirpFd == env.slirpFd && slirp.txPackets == plug.rxPackets
    && plug.rxPackets.Ready() && plug.rxPackets.View() == w.ring && slirp.sent == w.sent
  }

  /** fd() of either handler, with what the ring of the other direction holds. */
  method AskFd(plug: UmlNetworkSocketPlug, slirp: SlirpHandler, env: Environment, id: nat, ghost w: FitWorld,
               txItems: int, rxSlots: int) returns (q: SL.Interest)
    requires Agree(plug, slirp, env, w) && txItems == env.txItems(w.clock) && rxSlots == env.rxSlots(w.clock)
    modifies plug`waitForRead, plug`waitForWrite, slirp`waitForRead, slirp`waitForWrite
    ensures Agree(plug, slirp, env, w) && q == Interest(env, id, w)
  {
    if id == UML {
      var fd := plug.Fd(txItems);
      q := SL.Interest(fd, plug.waitForRead, plug.waitForWrite);
    } else {
      var fd := slirp.Fd(rxSlots);
      q := SL.Interest(fd, slirp.waitForRead, slirp.waitForWrite);
    }
  }

  /** execute() of either handler, as far as this ring is concerned, where the receive, if
      there is one, yields `rc`. */
  method Run(plug: UmlNetworkSocketPlug, slirp: SlirpHandler, env: Environment, id: nat, ghost w: FitWorld,
             readable: bool, writable: bool, rc: Receipt) returns (waits: bool)
    requires Agree(plug, slirp, env, w) && rc == env.net(w.clock)
    modifies plug`myErrno, slirp`waitForWrite, slirp`sent, plug.rxPackets
    modifies plug.rxPackets.itemBuffer, plug.rxPackets.freeBuffer, plug.rxPackets.releasedBuffer
    ensures plug.rxPackets.SameArrays() && Agree(plug, slirp, env, Execute(env, id, w, readable, writable))
    ensures Execute(env, id, w, readable, writable).stuck == (w.stuck || waits)
  {
    hide Represents, Valid;
    waits := false;
    if id == UML && readable {
      waits := plug.ExecuteReadable(rc);
    } else if id == SLIRP && writable {
      slirp.ExecuteWritable();
    }
  }
}
