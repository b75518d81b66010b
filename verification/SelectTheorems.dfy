/** waitOn() told by its effects: what is executed, who leaves, what is selected for. */
module SelectTheorems {
  import opened Prelude
  import opened HandlerChain
  import opened SelectLoop

  /** The recorded calls, executed one after the other. */
  function Replay<W>(beh: Behaviour<W>, calls: seq<Call>, w: W): W {
    if calls == [] then w
    else Replay(beh, calls[1..], beh.execute(calls[0].id, w, calls[0].readable, calls[0].writable))
  }

  /** What is executed is what is recorded, with the same flags and in the same order, up to
      every handler of the pass. */
  lemma {:induction false} ExecutedIsRecorded<W>(beh: Behaviour<W>, sel: Selected, ids: seq<nat>, w: W, i: nat)
    requires i <= |ids|
    ensures WorldAt(beh, sel, ids, w, i) == Replay(beh, Calls(beh, sel, ids[..i], w), w)
    decreases i
  {
    if i == 0 {
    } else {
      var c := Visit(beh, sel, ids[0], w);
      var more := Calls(beh, sel, ids[1..][..i - 1], Stepped(beh, c, w));
      ExecutedIsRecorded(beh, sel, ids[1..], Stepped(beh, c, w), i - 1);
      assert ids[..i][1..] == ids[1..][..i - 1];
      if c != [] {
        assert (c + more)[1..] == more;
      } else {
        assert [] + more == more;
      }
    }
  }

  /** Handlers that write down how they are called. */
  function Logging(fd: (nat, seq<Call>) -> Interest): Behaviour<seq<Call>> {
    Behaviour(fd, (id, log, r, v) => log + [Call(id, r, v)], (id, log, r, v) => false)
  }

  /** They find in their log the calls of the pass. */
  lemma {:induction false} LogIsCalls(fd: (nat, seq<Call>) -> Interest, sel: Selected, ids: seq<nat>, log: seq<Call>)
    ensures WorldAt(Logging(fd), sel, ids, log, |ids|) == log + Calls(Logging(fd), sel, ids, log)
  {
    if ids == [] {
    } else {
      var c := Visit(Logging(fd), sel, ids[0], log);
      var log' := Stepped(Logging(fd), c, log);
      LogIsCalls(fd, sel, ids[1..], log');
      assert log' == log + c;
      Regroup(log, c, Calls(Logging(fd), sel, ids[1..], log'));
    }
  }

  /** The handler `id` is called in state `w` and its execute() takes it out of the chain. */
  predicate Departs<W>(beh: Behaviour<W>, sel: Selected, id: nat, w: W) {
    var readable := beh.fd(id, w).read && beh.fd(id, w).fd in sel.read;
    var writable := beh.fd(id, w).write && beh.fd(id, w).fd in sel.write;
    (readable || writable) && beh.leaves(id, w, readable, writable)
  }

  function Kept<T>(q: seq<T>, keep: seq<bool>): seq<T>
    requires |keep| == |q|
  {
    if q == [] then [] else (if keep[0] then [q[0]] else []) + Kept(q[1..], keep[1..])
  }

  /** Exactly the handlers stay, in their order, that do not depart when it is their turn. */
  lemma {:induction false} StayingAre<W>(beh: Behaviour<W>, sel: Selected, hs: seq<FdSelectHandler>, ids: seq<nat>,
                                         w: W, keep: seq<bool>)
    requires ids == Ids(hs) && |keep| == |hs|
    requires forall i :: 0 <= i < |hs| ==> keep[i] == !Departs(beh, sel, ids[i], WorldAt(beh, sel, ids, w, i))
    ensures Staying(beh, sel, hs, w) == Kept(hs, keep)
  {
    if hs == [] {
    } else {
      var w' := Stepped(beh, Visit(beh, sel, ids[0], w), w);
      forall i | 0 <= i < |hs[1..]|
        ensures keep[1..][i] == !Departs(beh, sel, ids[1..][i], WorldAt(beh, sel, ids[1..], w', i))
      {
        assert keep[1..][i] == keep[i + 1] && ids[1..][i] == ids[i + 1];
        assert WorldAt(beh, sel, ids, w, i + 1) == WorldAt(beh, sel, ids[1..], w', i);
      }
      StayingAre(beh, sel, hs[1..], ids[1..], w', keep[1..]);
      assert keep[0] == !Departs(beh, sel, ids[0], WorldAt(beh, sel, ids, w, 0));
    }
  }

  /** Handlers that leave once they are writable leave exactly then. */
  lemma WriterLeavesIff<W>(fd: (nat, W) -> Interest, execute: (nat, W, bool, bool) -> W, sel: Selected,
                           h: FdSelectHandler, w: W)
    ensures var beh := Behaviour(fd, execute, (id, w, r, v) => v);
            Staying(beh, sel, [h], w) == if fd(h.id, w).write && fd(h.id, w).fd in sel.write then [] else [h]
  {
    var beh := Behaviour(fd, execute, (id, w, r, v) => v);
    assert [h][1..] == [];
  }

  /** pselect() is asked for exactly the non-negative descriptors whose handlers wait. */
  lemma SelectedFor<W>(beh: Behaviour<W>, ids: seq<nat>, w: W, fd: int)
    ensures fd in ReadSet(beh, ids, w) <==>
              fd >= 0 && exists id :: id in ids && beh.fd(id, w).fd == fd && beh.fd(id, w).read
    ensures fd in WriteSet(beh, ids, w) <==>
              fd >= 0 && exists id :: id in ids && beh.fd(id, w).fd == fd && beh.fd(id, w).write
    ensures AnyFd(beh, ids, w) <==> exists id :: id in ids && beh.fd(id, w).fd >= 0
  {
  }

  /** Without a timeout nothing is done; else it sleeps that long, and says so if that failed. */
  lemma IdleIs(t: nat, sleep: nat -> int)
    ensures IdleNotes(None, sleep) == []
    ensures sleep(t) == 0 ==> IdleNotes(Some(t), sleep) == [Slept(t)]
    ensures sleep(t) != 0 ==> IdleNotes(Some(t), sleep) == [Slept(t), SleepFailed]
  {
  }
}
