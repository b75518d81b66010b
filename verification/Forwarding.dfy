/** Forwarding from the UML socket to slirp: driven by the select loop, the plug and
    the slirp handler lose, reorder and invent no packet, and never wait. */
module Forwarding {
  import opened Prelude
  import opened RingBlocks
  import opened PacketHandlers
  import HandlerChain
  import SL = SelectLoop

  type ProperReceipt = rc: Receipt | Proper(rc) witness Receipt(0, [], 0)

  /** Everything outside: the descriptors, what each receive yields, and how full the
      ring of the other direction is, each at a given time. */
  datatype Environment = Environment(
    umlFd: int,
    slirpFd: int,
    net: nat -> ProperReceipt,
    txItems: nat -> int,
    rxSlots: nat -> int)

  datatype World = World(
    ring: Ring<XferBuffer>,
    received: seq<Packet>,    // packets that net_recvfrom() delivered
    sent: seq<Packet>,        // packets handed to vdeslirp_send()
    clock: nat,
    overwritten: nat,         // times produce(false) met a full ring
    stuck: bool)              // some call waits for ever

  /** A start over slots whose memory is `memory`. */
  function Start(memory: seq<XferBuffer>): (w: World)
    requires |memory| >= 1
    requires forall s :: 0 <= s < |memory| ==> |memory[s].data| == CAPACITY && memory[s].fill <= CAPACITY
    ensures Fits(w)
  {
    InitialIsValid(memory);
    World(InitialRing(memory), [], [], 0, 0, false)
  }

  ghost predicate Fits(w: World) {
    Valid(w.ring) && BuffersFit(w.ring)
  }

  /** The states of a ring and its buffers that the handlers can meet. */
  type FitWorld = w: World | Fits(w) ghost witness Start([XferBuffer(seq(CAPACITY, _ => 0), 0)])

  const UML: nat := 0
  const SLIRP: nat := 1

  function Interest(env: Environment, id: nat, w: World): SL.Interest {
    if id == UML then
      SL.Interest(env.umlFd, w.ring.numProduced < w.ring.N(), env.txItems(w.clock) != 0)
    else
      SL.Interest(env.slirpFd, env.rxSlots(w.clock) != 0, w.ring.numReleased != 0)
  }

  /** execute() of either handler, as far as this ring is concerned. */
  function Execute(env: Environment, id: nat, w: FitWorld, readable: bool, writable: bool): FitWorld {
    var now := w.(clock := w.clock + 1);
    if id == UML && readable then
      var rc: Receipt := env.net(w.clock);
      var full := if w.ring.numProduced == w.ring.N() then 1 else 0;
      ReceiveFits(w.ring, rc);
      match Receive(w.ring, rc)
      case Returns(r, _) => now.(ring := r, received := w.received + PacketsIn(rc), overwritten := w.overwritten + full)
      case _ => now.(stuck := true, overwritten := w.overwritten + full)
    else if id == SLIRP && writable then
      SendFits(w.ring);
      now.(ring := Send(w.ring).0, sent := w.sent + Send(w.ring).1)
    else now
  }

  /** The two handlers as the select loop sees them; neither leaves its chain. */
  function Handlers(env: Environment): SL.Behaviour<FitWorld> {
    SL.Behaviour((id, w) => Interest(env, id, w),
                 (id, w, r, v) => Execute(env, id, w, r, v),
                 (id, w, r, v) => false)
  }

  /** One waitOn() over a chain of handlers, pselect() having answered `sel`. */
  ghost function WaitOn(env: Environment, ids: seq<nat>, w: FitWorld, sel: SL.Selected): FitWorld {
    if SL.AnyFd<FitWorld>(Handlers(env), ids, w) && sel.count > 0
    then SL.WorldAt<FitWorld>(Handlers(env), sel, ids, w, |ids|)
    else w
  }

  /** The main loop: one waitOn() after the other. */
  ghost function Loop(env: Environment, ids: seq<nat>, w: FitWorld, sels: seq<SL.Selected>): FitWorld {
    if sels == [] then w
    else WaitOn(env, ids, Loop(env, ids, w, sels[..|sels| - 1]), sels[|sels| - 1])
  }

  /** Packets are neither lost nor reordered, no item was overwritten, nobody waits,
      and between handler calls no slot is checked out. */
  ghost predicate Lossless(w: World) {
    && Settled(w.ring)
    && w.sent + Waiting(w.ring) == w.received
    && w.overwritten == 0 && !w.stuck
  }

  lemma ReceivingKeepsLossless(env: Environment, w: FitWorld, writable: bool)
    requires Lossless(w) && w.ring.numProduced < w.ring.N()
    ensures Lossless(Execute(env, UML, w, true, writable))
  {
    var rc: Receipt := env.net(w.clock);
    ReceiveAppends(w.ring, rc);
    Regroup(w.sent, Waiting(w.ring), PacketsIn(rc));
  }

  lemma SendingKeepsLossless(env: Environment, w: FitWorld, readable: bool)
    requires Lossless(w)
    ensures Lossless(Execute(env, SLIRP, w, readable, true))
  {
    SendTakesOldest(w.ring);
    Regroup(w.sent, Send(w.ring).1, Waiting(Send(w.ring).0));
  }

  /** A handler that is called for what it waits for at that moment keeps the ring lossless. */
  lemma ExecuteKeepsLossless(env: Environment, id: nat, w: FitWorld, readable: bool, writable: bool)
    requires Lossless(w)
    requires readable ==> Interest(env, id, w).read
    ensures Lossless(Execute(env, id, w, readable, writable))
  {
    if id == UML && readable {
      ReceivingKeepsLossless(env, w, writable);
    } else if id == SLIRP && writable {
      SendingKeepsLossless(env, w, readable);
    }
  }

  lemma {:induction false} PassKeepsLossless(env: Environment, ids: seq<nat>, w: FitWorld, sel: SL.Selected, i: nat)
    requires Lossless(w) && i <= |ids|
    ensures Lossless(SL.WorldAt<FitWorld>(Handlers(env), sel, ids, w, i))
    decreases i
  {
    hide Lossless;
    if i == 0 {
    } else {
      var c := SL.Visit<FitWorld>(Handlers(env), sel, ids[0], w);
      TurnKeepsLossless(env, ids[0], w, sel);
      PassKeepsLossless(env, ids[1..], SL.Stepped<FitWorld>(Handlers(env), c, w), sel, i - 1);
    }
  }

  lemma TurnKeepsLossless(env: Environment, id: nat, w: FitWorld, sel: SL.Selected)
    requires Lossless(w)
    ensures Lossless(SL.Stepped<FitWorld>(Handlers(env), SL.Visit<FitWorld>(Handlers(env), sel, id, w), w))
  {
    var c := SL.Visit<FitWorld>(Handlers(env), sel, id, w);
    if c != [] {
      ExecuteKeepsLossless(env, id, w, c[0].readable, c[0].writable);
    }
  }

  /** Whatever pselect() reports, whatever the receives yield, whatever happens in the
      other direction, for however long and over any chain of the two handlers: the
      packets sent, followed by the non-empty packets waiting, are the packets received,
      in order; the eviction branch of produce(false) is never taken, and no call waits. */
  lemma {:induction false} LosslessForwarding(env: Environment, ids: seq<nat>, memory: seq<XferBuffer>,
                                                sels: seq<SL.Selected>)
    requires |memory| >= 1
    requires forall s :: 0 <= s < |memory| ==> |memory[s].data| == CAPACITY && memory[s].fill <= CAPACITY
    ensures Lossless(Loop(env, ids, Start(memory), sels))
  {
    var w := Start(memory);
    if sels == [] {
      InitialIsValid(memory);
    } else {
      var before := sels[..|sels| - 1];
      LosslessForwarding(env, ids, memory, before);
      PassKeepsLossless(env, ids, Loop(env, ids, w, before), sels[|sels| - 1], |ids|);
    }
  }

  /** Back-pressure: the plug asks for input exactly while the ring has room, and slirp
      for output exactly while a buffer waits. */
  lemma BackPressure(env: Environment, w: FitWorld)
    requires Lossless(w)
    ensures Interest(env, UML, w).read <==> w.ring.numReleased < w.ring.N()
    ensures Interest(env, SLIRP, w).write <==> ReleasedQ(w.ring) != []
  {
    SettledCounters(w.ring);
  }

  /* ---- the main loop over the real chain ---- */

  lemma {:induction false} EverybodyStays(env: Environment, sel: SL.Selected, hs: seq<HandlerChain.FdSelectHandler>,
                                          w: FitWorld)
    ensures SL.Staying<FitWorld>(Handlers(env), sel, hs, w) == hs
  {
    if hs == [] {
    } else {
      var c := SL.Visit<FitWorld>(Handlers(env), sel, hs[0].id, w);
      EverybodyStays(env, sel, hs[1..], SL.Stepped<FitWorld>(Handlers(env), c, w));
      assert [hs[0]] + hs[1..] == hs;
    }
  }

  /** What pselect() answers in some turn, asked for what the handlers wait for. */
  function Answer(select: (nat, set<int>, set<int>, Option<nat>) -> SL.Selected, turn: nat, env: Environment,
                  ids: seq<nat>, w: FitWorld, timeout: Option<nat>): SL.Selected
  {
    select(turn, SL.ReadSet<FitWorld>(Handlers(env), ids, w), SL.WriteSet<FitWorld>(Handlers(env), ids, w), timeout)
  }

  /** The loop waits a tenth of a second at a time. */
  const TENTH: Option<nat> := Some(100_000_000)

  /** The answers are those to the questions that the loop asks, turn by turn. */
  ghost predicate Answered(select: (nat, set<int>, set<int>, Option<nat>) -> SL.Selected, turn: nat, env: Environment,
                           ids: seq<nat>, w: FitWorld, sels: seq<SL.Selected>)
  {
    forall i :: 0 <= i < |sels| ==> sels[i] == Answer(select, turn + i, env, ids, Loop(env, ids, w, sels[..i]), TENTH)
  }

  /** One turn of the dispatcher over the chain is one `WaitOn` of the model. */
  method TurnOnce(d: SL.Dispatcher<FitWorld>, head: HandlerChain.ChainHead, timeout: Option<nat>,
                  ghost env: Environment, ghost m: HandlerChain.Chains) returns (ghost sel: SL.Selected)
    requires d.beh == Handlers(env) && HandlerChain.AreChains(m) && head in m
    modifies d`world, d`calls, d`notes, d`turn, head, m[head]
    ensures HandlerChain.AreChains(m) && d.world == WaitOn(env, SL.Ids(m[head]), old(d.world), sel)
    ensures sel == Answer(d.select, old(d.turn), env, SL.Ids(m[head]), old(d.world), timeout)
    ensures d.turn == old(d.turn) + 1
  {
    hide SL.WorldAt, SL.Staying, SL.Ids, HandlerChain.AreChains, Fits;
    ghost var ids, w := SL.Ids(m[head]), d.world;
    sel := Answer(d.select, d.turn, env, ids, w, timeout);
    var didWork := d.WaitOn(head, timeout, m);
    if didWork {
      EverybodyStays(env, sel, m[head], w);
      assert m[head := SL.Staying<FitWorld>(d.beh, sel, m[head], w)] == m;
    }
  }

  /** main(), lines 48-51: slirp and then the plug are put into the chain. */
  method Connect() returns (head: HandlerChain.ChainHead, ghost m: HandlerChain.Chains)
    ensures HandlerChain.AreChains(m) && m.Keys == {head} && fresh(head) && fresh(m[head])
    ensures SL.Ids(m[head]) == [UML, SLIRP]
  {
    head := new HandlerChain.ChainHead();
    m := map[head := []];
    var slirp := new HandlerChain.FdSelectHandler(SLIRP);
    slirp.AddTo(head, m);
    m := m[head := [slirp] + m[head]];
    assert HandlerChain.IsChain(head, m[head]);
    var uml := new HandlerChain.FdSelectHandler(UML);
    uml.AddTo(head, m);
    m := m[head := [uml] + m[head]];
    assert m[head][1..] == [slirp] && [slirp][1..] == [];
    assert SL.Ids(m[head]) == [UML] + SL.Ids([slirp]);
  }

  lemma NothingAnswered(select: (nat, set<int>, set<int>, Option<nat>) -> SL.Selected, turn: nat, env: Environment,
                        ids: seq<nat>, w: FitWorld)
    ensures Answered(select, turn, env, ids, w, []) && Loop(env, ids, w, []) == w
  {
  }

  lemma OneMoreAnswered(select: (nat, set<int>, set<int>, Option<nat>) -> SL.Selected, turn: nat, env: Environment,
                        ids: seq<nat>, w: FitWorld, sels: seq<SL.Selected>, sel: SL.Selected)
    requires Answered(select, turn, env, ids, w, sels)
    requires sel == Answer(select, turn + |sels|, env, ids, Loop(env, ids, w, sels), TENTH)
    ensures Answered(select, turn, env, ids, w, sels + [sel])
    ensures Loop(env, ids, w, sels + [sel]) == WaitOn(env, ids, Loop(env, ids, w, sels), sel)
  {
    hide Loop, WaitOn, Answer;
    LoopSnoc(env, ids, w, sels, sel);
    var all := sels + [sel];
    forall i | 0 <= i < |all|
      ensures all[i] == Answer(select, turn + i, env, ids, Loop(env, ids, w, all[..i]), TENTH)
    {
      if i < |sels| {
        assert all[..i] == sels[..i] && all[i] == sels[i];
      } else {
        assert all[..i] == sels;
      }
    }
  }

  lemma LoopSnoc(env: Environment, ids: seq<nat>, w: FitWorld, sels: seq<SL.Selected>, sel: SL.Selected)
    ensures Loop(env, ids, w, sels + [sel]) == WaitOn(env, ids, Loop(env, ids, w, sels), sel)
  {
    assert (sels + [sel])[..|sels|] == sels;
  }

  /** main(), lines 53-61, for so many turns. */
  method Turns(d: SL.Dispatcher<FitWorld>, head: HandlerChain.ChainHead, turns: nat,
               ghost env: Environment, ghost m: HandlerChain.Chains) returns (ghost sels: seq<SL.Selected>)
    requires d.beh == Handlers(env) && HandlerChain.AreChains(m) && head in m
    modifies d`world, d`calls, d`notes, d`turn, head, m[head]
    ensures |sels| == turns && d.world == Loop(env, SL.Ids(m[head]), old(d.world), sels)
    ensures Answered(d.select, old(d.turn), env, SL.Ids(m[head]), old(d.world), sels) && d.turn == old(d.turn) + turns
  {
    hide WaitOn, HandlerChain.AreChains, SL.Ids, Answer, Answered;
    ghost var ids := SL.Ids(m[head]);
    sels := [];
    NothingAnswered(d.select, d.turn, env, ids, d.world);
    for i := 0 to turns
      invariant HandlerChain.AreChains(m) && |sels| == i
      invariant d.world == Loop(env, ids, old(d.world), sels) && d.turn == old(d.turn) + i
      invariant Answered(d.select, old(d.turn), env, ids, old(d.world), sels)
    {
      ghost var sel := TurnOnce(d, head, TENTH, env, m);
      OneMoreAnswered(d.select, old(d.turn), env, ids, old(d.world), sels, sel);
      sels := sels + [sel];
    }
  }

  /** The program: the handlers are connected, and waitOn() is called over and over. After any
      number of turns it is where `Loop` is, and nothing was lost. */
  method Forward(env: Environment, memory: seq<XferBuffer>,
                 select: (nat, set<int>, set<int>, Option<nat>) -> SL.Selected, sleep: nat -> int, turns: nat)
    returns (w: FitWorld)
    requires |memory| >= 1
    requires forall s :: 0 <= s < |memory| ==> |memory[s].data| == CAPACITY && memory[s].fill <= CAPACITY
    ensures exists sels :: |sels| == turns && Answered(select, 0, env, [UML, SLIRP], Start(memory), sels)
                        && w == Loop(env, [UML, SLIRP], Start(memory), sels)
    ensures Lossless(w)
  {
    hide Loop, Lossless, Start, Answered;
    var head, m := Connect();
    var d := new SL.Dispatcher(Handlers(env), select, sleep, Start(memory));
    ghost var sels := Turns(d, head, turns, env, m);
    w := d.world;
    LosslessForwarding(env, [UML, SLIRP], memory, sels);
  }
}
