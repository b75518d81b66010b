/** waitOn(): collect what the handlers of a chain wait for, select, and dispatch. */
module SelectLoop {
  import opened Prelude
  import opened HandlerChain

  /** What a handler's fd() returns and the two flags it sets. */
  datatype Interest = Interest(fd: int, read: bool, write: bool)

  /** The virtual methods of the handlers, by handler id, over the state `W` of
      everything the handlers work on. */
  datatype Behaviour<!W> = Behaviour(
    fd: (nat, W) -> Interest,
    execute: (nat, W, bool, bool) -> W,
    leaves: (nat, W, bool, bool) -> bool)   // whether execute() takes the handler out of its chain

  /** What pselect() answers: its return value and the two sets it leaves. */
  datatype Selected = Selected(count: int, read: set<int>, write: set<int>)

  datatype Call = Call(id: nat, readable: bool, writable: bool)

  /** What waitOn() does beside calling handlers: reports on the error stream, and sleeps. */
  datatype Note = SelectFailed | Slept(nanoseconds: nat) | SleepFailed

  /* ---- the two passes, as functions of the list of handler ids ---- */

  function ReadSet<W>(beh: Behaviour<W>, ids: seq<nat>, w: W): set<int> {
    set i | 0 <= i < |ids| && beh.fd(ids[i], w).fd >= 0 && beh.fd(ids[i], w).read :: beh.fd(ids[i], w).fd
  }

  function WriteSet<W>(beh: Behaviour<W>, ids: seq<nat>, w: W): set<int> {
    set i | 0 <= i < |ids| && beh.fd(ids[i], w).fd >= 0 && beh.fd(ids[i], w).write :: beh.fd(ids[i], w).fd
  }

  predicate AnyFd<W>(beh: Behaviour<W>, ids: seq<nat>, w: W) {
    exists i :: 0 <= i < |ids| && beh.fd(ids[i], w).fd >= 0
  }

  /** The call, if any, that the second pass makes to one handler in state `w`. */
  function Visit<W>(beh: Behaviour<W>, sel: Selected, id: nat, w: W): seq<Call> {
    var q := beh.fd(id, w);
    var r, v := q.read && q.fd in sel.read, q.write && q.fd in sel.write;
    if r || v then [Call(id, r, v)] else []
  }

  function Stepped<W>(beh: Behaviour<W>, c: seq<Call>, w: W): W {
    if c == [] then w else beh.execute(c[0].id, w, c[0].readable, c[0].writable)
  }

  /** Whether the call `c` made to a handler in state `w` takes the handler out of its chain. */
  predicate Leaves<W>(beh: Behaviour<W>, id: nat, c: seq<Call>, w: W) {
    c != [] && beh.leaves(id, w, c[0].readable, c[0].writable)
  }

  /** The calls of the second pass over `ids` from state `w`. */
  function Calls<W>(beh: Behaviour<W>, sel: Selected, ids: seq<nat>, w: W): seq<Call> {
    if ids == [] then []
    else
      var c := Visit(beh, sel, ids[0], w);
      c + Calls(beh, sel, ids[1..], Stepped(beh, c, w))
  }

  /** The state in which the handler at position `i` is asked again; the state after
      the pass, for `i == |ids|`. */
  function WorldAt<W>(beh: Behaviour<W>, sel: Selected, ids: seq<nat>, w: W, i: nat): W
    requires i <= |ids|
  {
    if i == 0 then w
    else WorldAt(beh, sel, ids[1..], Stepped(beh, Visit(beh, sel, ids[0], w), w), i - 1)
  }

  ghost function Ids(hs: seq<FdSelectHandler>): (ids: seq<nat>)
    ensures |ids| == |hs|
  {
    if hs == [] then [] else [hs[0].id] + Ids(hs[1..])
  }

  /** The handlers that remain in the chain after the second pass. */
  ghost function Staying<W>(beh: Behaviour<W>, sel: Selected, hs: seq<FdSelectHandler>, w: W): seq<FdSelectHandler> {
    if hs == [] then []
    else
      var h := hs[0];
      var c := Visit(beh, sel, h.id, w);
      (if Leaves(beh, h.id, c, w) then [] else [h]) + Staying(beh, sel, hs[1..], Stepped(beh, c, w))
  }

  lemma ChainOf(m: Chains, head: ChainHead)
    requires AreChains(m) && head in m
    ensures IsChain(head, m[head]) && NoDup(m[head])
    ensures head.first == if m[head] == [] then null else m[head][0]
  {
  }

  lemma Neighbours(head: ChainHead, q: seq<FdSelectHandler>, i: nat)
    requires IsChain(head, q) && i < |q|
    ensures q[i].prev == if i == 0 then null else q[i - 1]
    ensures q[i].next == if i + 1 == |q| then null else q[i + 1]
    ensures q[i] in q && (q[i].prev == null || q[i].prev in q) && (q[i].next == null || q[i].next in q)
  {
    assert Linked(head, q, i);
  }

  lemma NothingToDo<W>(beh: Behaviour<W>, sel: Selected, w: W)
    ensures Calls(beh, sel, Ids([]), w) == [] && Staying(beh, sel, [], w) == []
    ensures WorldAt(beh, sel, Ids([]), w, 0) == w
  {
  }

  /** One turn taken off the front of the remaining pass. */
  lemma CallsTurn<W>(beh: Behaviour<W>, sel: Selected, made: seq<Call>, todo: seq<FdSelectHandler>, w: W)
    requires todo != []
    ensures var c := Visit(beh, sel, todo[0].id, w);
            && made + Calls(beh, sel, Ids(todo), w) == (made + c) + Calls(beh, sel, Ids(todo[1..]), Stepped(beh, c, w))
            && WorldAt(beh, sel, Ids(todo), w, |todo|)
               == WorldAt(beh, sel, Ids(todo[1..]), Stepped(beh, c, w), |todo| - 1)
  {
    var c := Visit(beh, sel, todo[0].id, w);
    assert Ids(todo)[1..] == Ids(todo[1..]);
    Regroup(made, c, Calls(beh, sel, Ids(todo[1..]), Stepped(beh, c, w)));
  }

  lemma StayingTurn<W>(beh: Behaviour<W>, sel: Selected, left: seq<FdSelectHandler>, todo: seq<FdSelectHandler>, w: W)
    requires todo != []
    ensures var c := Visit(beh, sel, todo[0].id, w);
            var left' := if Leaves(beh, todo[0].id, c, w) then left else left + [todo[0]];
            left + Staying(beh, sel, todo, w) == left' + Staying(beh, sel, todo[1..], Stepped(beh, c, w))
  {
    hide Visit, Stepped, Leaves;
    var c := Visit(beh, sel, todo[0].id, w);
    var rest := Staying(beh, sel, todo[1..], Stepped(beh, c, w));
    if Leaves(beh, todo[0].id, c, w) {
      assert [] + rest == rest;
    } else {
      Regroup(left, [todo[0]], rest);
    }
  }

  /** A chain split before its next handler. */
  lemma SplitStep(left: seq<FdSelectHandler>, todo: seq<FdSelectHandler>)
    requires todo != [] && todo[0] !in left
    ensures (left + [todo[0]]) + todo[1..] == left + todo
    ensures Without(left + todo, todo[0]) == left + todo[1..]
    ensures (left + todo)[|left|] == todo[0]
  {
    hide Without;
    assert todo == [todo[0]] + todo[1..];
    Regroup(left, [todo[0]], todo[1..]);
    WithoutMiddle(left, todo[0], todo[1..]);
  }

  lemma NextIsNew(left: seq<FdSelectHandler>, todo: seq<FdSelectHandler>)
    requires todo != [] && NoDup(left + todo)
    ensures todo[0] !in left
  {
    forall i | 0 <= i < |left|
      ensures left[i] != todo[0]
    {
      assert (left + todo)[i] == left[i] && (left + todo)[|left|] == todo[0];
    }
  }

  /* ---- the loop itself ---- */

  class Dispatcher<W(==)> {
    const beh: Behaviour<W>
    const select: (nat, set<int>, set<int>, Option<nat>) -> Selected   // may answer differently each turn
    const sleep: nat -> int
    var turn: nat            // the calls of waitOn() made so far
    var world: W
    var calls: seq<Call>     // the calls of execute() made so far
    var notes: seq<Note>

    constructor (beh: Behaviour<W>, select: (nat, set<int>, set<int>, Option<nat>) -> Selected,
                 sleep: nat -> int, world: W)
      ensures this.beh == beh && this.select == select && this.sleep == sleep && this.world == world
      ensures calls == [] && notes == [] && turn == 0
    {
      turn := 0;
      this.beh := beh;
      this.select := select;
      this.sleep := sleep;
      this.world := world;
      calls := [];
      notes := [];
    }

    /** First pass, lines 61-82. */
    method Collect(head: ChainHead, ghost m: Chains)
      returns (readSet: set<int>, writeSet: set<int>, fdMax: int)
      requires AreChains(m) && head in m
      modifies m[head]
      ensures AreChains(m)
      ensures readSet == ReadSet(beh, Ids(m[head]), world) && writeSet == WriteSet(beh, Ids(m[head]), world)
      ensures fdMax >= -1 && (fdMax > -1 <==> AnyFd(beh, Ids(m[head]), world))
    {
      hide ReadSet, WriteSet, AnyFd;
      ghost var hs := m[head];
      ghost var todo := hs;
      ghost var ids := Ids(hs);
      readSet, writeSet, fdMax := {}, {}, -1;
      assert IsChain(head, hs);
      var h := head.first;
      while h != null
        invariant |todo| <= |hs| && todo == hs[|hs| - |todo|..] && h == if todo == [] then null else todo[0]
        invariant AreChains(m)
        invariant fdMax >= -1
        invariant ids == Ids(todo)
        invariant (fdMax > -1 || AnyFd(beh, ids, world)) <==> AnyFd(beh, Ids(hs), world)
        invariant readSet + ReadSet(beh, ids, world) == ReadSet(beh, Ids(hs), world)
        invariant writeSet + WriteSet(beh, ids, world) == WriteSet(beh, Ids(hs), world)
        decreases |todo|
      {
        assert IsChain(head, hs);
        Neighbours(head, hs, |hs| - |todo|);
        var q := beh.fd(h.id, world);
        CollectOne(beh, ids, world);
        h.SetInterest(q.read, q.write, m);
        var fd := q.fd;
        if 0 <= fd {
          if fdMax < fd {
            fdMax := fd;
          }
          if h.waitForRead {
            readSet := readSet + {fd};
          }
          if h.waitForWrite {
            writeSet := writeSet + {fd};
          }
        }
        h := h.next;
        todo := todo[1..];
        ids := ids[1..];
      }
      NothingToCollect(beh, ids, world);
    }

    /** One turn of the second pass, lines 96-108, with the removal that execute() may make. */
    method DispatchOne(h: FdSelectHandler, head: ChainHead, sel: Selected, ghost m: Chains,
                       ghost q: seq<FdSelectHandler>) returns (next: FdSelectHandler?)
      requires head in m && AreChains(m[head := q]) && h in q
      modifies this`world, this`calls, h, h.prev, h.next, head
      ensures var c := Visit(beh, sel, h.id, old(world));
              && calls == old(calls) + c
              && world == Stepped(beh, c, old(world))
              && AreChains(m[head := if Leaves(beh, h.id, c, old(world)) then Without(q, h) else q])
      ensures next == old(h.next)
    {
      ghost var now := m[head := q];
      assert now[head] == q;
      assert h.chain == head by { MembersKnowTheirChain(now); }
      var interest := beh.fd(h.id, world);
      h.SetInterest(interest.read, interest.write, now);
      var readable := h.waitForRead && interest.fd in sel.read;
      var writable := h.waitForWrite && interest.fd in sel.write;
      // kept, as execute() may take the handler out of the chain
      next := h.next;
      if readable || writable {
        var leaves := beh.leaves(h.id, world, readable, writable);
        world := beh.execute(h.id, world, readable, writable);
        calls := calls + [Call(h.id, readable, writable)];
        if leaves {
          h.RemoveFromChain(now);
          assert Removed(now, head, h) == m[head := Without(q, h)];
        }
      }
    }

    /** Second pass, lines 94-109. */
    method DispatchAll(head: ChainHead, sel: Selected, ghost m: Chains)
      requires AreChains(m) && head in m
      modifies this`world, this`calls, head, m[head]
      ensures calls == old(calls) + Calls(beh, sel, Ids(m[head]), old(world))
      ensures world == WorldAt(beh, sel, Ids(m[head]), old(world), |m[head]|)
      ensures AreChains(m[head := Staying(beh, sel, m[head], old(world))])
    {
      hide Visit, Calls, WorldAt, Staying, Ids, AreChains, IsChain, NoDup, Without, Stepped;
      ghost var hs := m[head];
      ghost var w := world;
      ghost var left: seq<FdSelectHandler> := [];
      ghost var todo := hs;
      assert left + todo == hs && m[head := hs] == m;
      ChainOf(m, head);
      var h := head.first;
      while h != null
        invariant h == if todo == [] then null else todo[0]
        invariant AreChains(m[head := left + todo])
        invariant forall x :: x in left + todo ==> x in hs
        invariant left + Staying(beh, sel, todo, world) == Staying(beh, sel, hs, w)
        invariant calls + Calls(beh, sel, Ids(todo), world) == old(calls) + Calls(beh, sel, Ids(hs), w)
        invariant WorldAt(beh, sel, Ids(todo), world, |todo|) == WorldAt(beh, sel, Ids(hs), w, |hs|)
        decreases |todo|
      {
        ChainOf(m[head := left + todo], head);
        NextIsNew(left, todo);
        SplitStep(left, todo);
        Neighbours(head, left + todo, |left|);
        ghost var leaves := Leaves(beh, h.id, Visit(beh, sel, h.id, world), world);
        assert h in hs && (h.prev == null || h.prev in hs) && (h.next == null || h.next in hs);
        assert h.next == if |todo| == 1 then null else todo[1];
        CallsTurn(beh, sel, calls, todo, world);
        StayingTurn(beh, sel, left, todo, world);
        h := DispatchOne(h, head, sel, m, left + todo);
        left := if leaves then left else left + [todo[0]];
        todo := todo[1..];
      }
      NothingToDo(beh, sel, world);
      assert left + todo == left && calls + [] == calls && left + [] == left;
    }

    /** The two copies of lines 118-125 and 128-135. */
    method Idle(timeout: Option<nat>)
      modifies this`notes
      ensures notes == old(notes) + IdleNotes(timeout, sleep)
    {
      if timeout.Some? {
        notes := notes + [Slept(timeout.value)];
        if 0 != sleep(timeout.value) {
          notes := notes + [SleepFailed];
        }
      }
    }

    /** waitOn(). It sleeps exactly when no handler has a descriptor. */
    method WaitOn(head: ChainHead, timeout: Option<nat>, ghost m: Chains) returns (didWork: bool)
      requires AreChains(m) && head in m
      modifies this`world, this`calls, this`notes, this`turn, head, m[head]
      ensures turn == old(turn) + 1
      ensures var ids := Ids(m[head]);
              var any := AnyFd(beh, ids, old(world));
              var sel := select(old(turn), ReadSet(beh, ids, old(world)), WriteSet(beh, ids, old(world)), timeout);
              && (didWork <==> any && sel.count > 0)
              && (didWork ==>
                    && calls == old(calls) + Calls(beh, sel, ids, old(world))
                    && world == WorldAt(beh, sel, ids, old(world), |ids|)
                    && AreChains(m[head := Staying(beh, sel, m[head], old(world))]))
              && (!didWork ==> calls == old(calls) && world == old(world) && AreChains(m))
              && notes == old(notes)
                          + (if !any then IdleNotes(timeout, sleep) else if sel.count < 0 then [SelectFailed] else [])
    {
      didWork := false;
      turn := turn + 1;
      if head.first != null {
        var readSet, writeSet, fdMax := Collect(head, m);
        if fdMax > -1 {
          var ready := select(turn - 1, readSet, writeSet, timeout);
          if ready.count > 0 {
            DispatchAll(head, ready, m);
            didWork := true;
          } else if ready.count < 0 {
            notes := notes + [SelectFailed];
          }
        } else {
          Idle(timeout);
        }
      } else {
        assert IsChain(head, m[head]);
        Idle(timeout);
      }
    }
  }

  function IdleNotes(timeout: Option<nat>, sleep: nat -> int): seq<Note> {
    if timeout.None? then []
    else [Slept(timeout.value)] + if sleep(timeout.value) != 0 then [SleepFailed] else []
  }

  lemma NothingToCollect<W>(beh: Behaviour<W>, ids: seq<nat>, w: W)
    requires ids == []
    ensures ReadSet(beh, ids, w) == {} && WriteSet(beh, ids, w) == {} && !AnyFd(beh, ids, w)
  {
  }

  lemma CollectOne<W>(beh: Behaviour<W>, ids: seq<nat>, w: W)
    requires ids != []
    ensures var q := beh.fd(ids[0], w);
            && ReadSet(beh, ids, w) == (if q.fd >= 0 && q.read then {q.fd} else {}) + ReadSet(beh, ids[1..], w)
            && WriteSet(beh, ids, w) == (if q.fd >= 0 && q.write then {q.fd} else {}) + WriteSet(beh, ids[1..], w)
            && (AnyFd(beh, ids, w) <==> q.fd >= 0 || AnyFd(beh, ids[1..], w))
  {
    assert forall i :: 0 <= i < |ids| - 1 ==> ids[1..][i] == ids[i + 1];
    assert forall i :: 0 < i < |ids| ==> ids[i] == ids[1..][i - 1];
  }

  /* ---- who is called ---- */

  /** pselect() only ever leaves descriptors in a set that were in it. */
  predicate Answers<W>(sel: Selected, beh: Behaviour<W>, ids: seq<nat>, w: W) {
    sel.read <= ReadSet(beh, ids, w) && sel.write <= WriteSet(beh, ids, w)
  }

  /** The descriptor of each handler does not change while the loop runs. */
  ghost predicate StableFds<W(!new)>(beh: Behaviour<W>, ids: seq<nat>, fds: seq<int>) {
    && |fds| == |ids|
    && (forall i, v :: 0 <= i < |ids| ==> beh.fd(ids[i], v).fd == fds[i])
  }

  /** The calls to the handler at position `i`. */
  function CallsTo<W>(beh: Behaviour<W>, sel: Selected, ids: seq<nat>, w: W, i: nat): seq<Call>
    requires i < |ids|
  {
    Visit(beh, sel, ids[i], WorldAt(beh, sel, ids, w, i))
  }

  function Concat<T>(parts: seq<seq<T>>): seq<T> {
    if parts == [] then [] else parts[0] + Concat(parts[1..])
  }

  /** Every handler is visited once, in chain order: the calls are the visits, strung together. */
  lemma {:induction false} VisitsInOrder<W>(beh: Behaviour<W>, sel: Selected, ids: seq<nat>, w: W)
    ensures Calls(beh, sel, ids, w)
         == Concat(seq(|ids|, i requires 0 <= i < |ids| => CallsTo(beh, sel, ids, w, i)))
  {
    if ids == [] {
    } else {
      var rest, w' := ids[1..], Stepped(beh, Visit(beh, sel, ids[0], w), w);
      VisitsInOrder(beh, sel, rest, w');
      var visits := seq(|ids|, i requires 0 <= i < |ids| => CallsTo(beh, sel, ids, w, i));
      assert visits[1..] == seq(|rest|, i requires 0 <= i < |rest| => CallsTo(beh, sel, rest, w', i));
    }
  }

  /** A handler is told that it is readable exactly when some handler with its
      descriptor waited to read before the select, the descriptor was reported, and the
      handler still waits to read when asked again; likewise for writing. Descriptors
      shared between handlers are what "some handler" is about: see `CalledIffOwnInterest`. */
  lemma CalledIff<W(!new)>(beh: Behaviour<W>, sel: Selected, ids: seq<nat>, fds: seq<int>, w: W, i: nat)
    requires i < |ids| && StableFds(beh, ids, fds) && Answers(sel, beh, ids, w)
    ensures var v := WorldAt(beh, sel, ids, w, i);
            var c := CallsTo(beh, sel, ids, w, i);
            var readable := (exists j :: 0 <= j < |ids| && fds[j] == fds[i] && fds[j] >= 0 && beh.fd(ids[j], w).read)
                            && fds[i] in sel.read && beh.fd(ids[i], v).read;
            var writable := (exists j :: 0 <= j < |ids| && fds[j] == fds[i] && fds[j] >= 0 && beh.fd(ids[j], w).write)
                            && fds[i] in sel.write && beh.fd(ids[i], v).write;
            c == if readable || writable then [Call(ids[i], readable, writable)] else []
  {
    if fds[i] in sel.read {
      assert fds[i] in ReadSet(beh, ids, w);
    }
    if fds[i] in sel.write {
      assert fds[i] in WriteSet(beh, ids, w);
    }
  }

  /** With distinct, non-negative descriptors it is the handler's own interest that counts. */
  lemma CalledIffOwnInterest<W(!new)>(beh: Behaviour<W>, sel: Selected, ids: seq<nat>, fds: seq<int>, w: W, i: nat)
    requires i < |ids| && StableFds(beh, ids, fds) && Answers(sel, beh, ids, w)
    requires NoDup(fds) && forall j :: 0 <= j < |fds| ==> fds[j] >= 0
    ensures var v := WorldAt(beh, sel, ids, w, i);
            var readable := beh.fd(ids[i], w).read && fds[i] in sel.read && beh.fd(ids[i], v).read;
            var writable := beh.fd(ids[i], w).write && fds[i] in sel.write && beh.fd(ids[i], v).write;
            CallsTo(beh, sel, ids, w, i) == if readable || writable then [Call(ids[i], readable, writable)] else []
  {
    CalledIff(beh, sel, ids, fds, w, i);
  }
}
