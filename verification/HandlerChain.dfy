/** The intrusive chain of handlers and the select loop over it. */
module HandlerChain {
  import opened Prelude

  /** The variable that holds the first handler of a chain; handlers keep its address. */
  class ChainHead {
    var first: FdSelectHandler?

    constructor ()
      ensures first == null && fresh(this)
    {
      first := null;
    }
  }

  /** `hs` are the handlers of the chain, in order, and the pointers say so. */
  ghost predicate IsChain(head: ChainHead, hs: seq<FdSelectHandler>)
    reads head, hs
  {
    && head.first == (if hs == [] then null else hs[0])
    && NoDup(hs)
    && forall i :: 0 <= i < |hs| ==> Linked(head, hs, i)
  }

  ghost predicate Linked(head: ChainHead, hs: seq<FdSelectHandler>, i: nat)
    requires i < |hs|
    reads hs
  {
    && hs[i].chain == head
    && hs[i].prev == (if i == 0 then null else hs[i - 1])
    && hs[i].next == (if i + 1 == |hs| then null else hs[i + 1])
  }

  type Chains = map<ChainHead, seq<FdSelectHandler>>

  ghost function Members(m: Chains): (s: set<FdSelectHandler>)
    ensures forall k, h :: k in m && h in m[k] ==> h in s
  {
    set k, h | k in m && h in m[k] :: h
  }

  ghost predicate AreChains(m: Chains)
    reads m.Keys, Members(m)
  {
    forall k :: k in m ==> IsChain(k, m[k])
  }

  /** Every handler knows the chain it is in, so no handler is in two chains. */
  lemma MembersKnowTheirChain(m: Chains)
    requires AreChains(m)
    ensures forall k, h :: k in m && h in m[k] ==> h.chain == k
  {
    forall k, h | k in m && h in m[k]
      ensures h.chain == k
    {
      assert IsChain(k, m[k]);
      var i :| 0 <= i < |m[k]| && m[k][i] == h;
      assert Linked(k, m[k], i);
    }
  }

  function Without<T(==)>(q: seq<T>, x: T): seq<T> {
    if q == [] then [] else if q[0] == x then q[1..] else [q[0]] + Without(q[1..], x)
  }

  lemma {:induction false} WithoutMiddle<T>(left: seq<T>, x: T, rest: seq<T>)
    requires x !in left
    ensures Without(left + [x] + rest, x) == left + rest
  {
    var q := left + [x] + rest;
    if left == [] {
      assert q[1..] == rest;
    } else {
      var tail := left[1..];
      assert forall y :: y in tail ==> y in left;
      assert q[0] == left[0] && left[0] in left;
      assert q[1..] == tail + [x] + rest;
      WithoutMiddle(tail, x, rest);
      assert [left[0]] + (tail + rest) == left + rest;
    }
  }

  lemma WithoutAt<T>(q: seq<T>, i: nat)
    requires i < |q| && NoDup(q)
    ensures Without(q, q[i]) == q[..i] + q[i + 1..]
  {
    assert q == q[..i] + [q[i]] + q[i + 1..];
    WithoutMiddle(q[..i], q[i], q[i + 1..]);
  }

  /** The chains after taking handler `h` out of chain `k`. */
  ghost function Removed(m: Chains, k: ChainHead, h: FdSelectHandler): Chains
    requires k in m
  {
    m[k := Without(m[k], h)]
  }

  class FdSelectHandler {
    const id: nat
    var waitForRead: bool
    var waitForWrite: bool
    var prev: FdSelectHandler?
    var next: FdSelectHandler?
    var chain: ChainHead?

    constructor (id: nat)
      ensures this.id == id && Loose() && chain == null && !waitForRead && !waitForWrite
    {
      this.id := id;
      waitForRead, waitForWrite := false, false;
      prev, next, chain := null, null, null;
    }

    /** A handler outside every chain has no neighbours. */
    ghost predicate Loose()
      reads this
    {
      chain == null ==> prev == null && next == null
    }

    /** The flags are not part of the chain. */
    method SetInterest(read: bool, write: bool, ghost m: Chains)
      requires AreChains(m)
      modifies this`waitForRead, this`waitForWrite
      ensures AreChains(m) && waitForRead == read && waitForWrite == write
    {
      waitForRead, waitForWrite := read, write;
      forall k | k in m
        ensures IsChain(k, m[k])
      {
        forall i | 0 <= i < |m[k]|
          ensures Linked(k, m[k], i)
        {
          assert old(Linked(k, m[k], i));
        }
      }
    }

    /** Prepend this handler to a chain; every other chain stays as it was. */
    method AddTo(head: ChainHead, ghost m: Chains)
      requires AreChains(m) && head in m && chain == null
      modifies this, head, head.first
      ensures AreChains(m[head := [this] + m[head]])
      ensures chain == head && waitForRead == old(waitForRead) && waitForWrite == old(waitForWrite)
    {
      ghost var hs := m[head];
      assert IsChain(head, hs);
      MembersKnowTheirChain(m);
      prev := null;
      next := head.first;
      chain := head;
      if next != null {
        next.prev := this;
      }
      head.first := this;
      ghost var hs' := [this] + hs;
      assert NoDup(hs');
      forall i | 0 <= i < |hs'|
        ensures Linked(head, hs', i)
      {
        if i > 0 {
          assert hs'[i] == hs[i - 1];
          assert old(Linked(head, hs, i - 1));
        }
      }
      assert IsChain(head, hs');
      forall k | k in m && k != head
        ensures IsChain(k, m[k])
      {
        forall i | 0 <= i < |m[k]|
          ensures Linked(k, m[k], i)
        {
          assert old(Linked(k, m[k], i));
          assert m[k][i] in m[k];
        }
      }
    }

    /** Take this handler out of its chain, if it is in one; every other chain stays as it was. */
    method RemoveFromChain(ghost m: Chains)
      requires AreChains(m) && Loose()
      requires chain != null ==> chain in m && this in m[chain]
      modifies this, prev, next, chain
      ensures chain == null && Loose()
      ensures waitForRead == old(waitForRead) && waitForWrite == old(waitForWrite)
      ensures AreChains(if old(chain) == null then m else Removed(m, old(chain), this))
    {
      ghost var head := chain;
      MembersKnowTheirChain(m);
      ghost var hs := if head == null then [] else m[head];
      ghost var i := if head == null then 0 else PositionOf(head, hs, this);
      Unlink(head, hs, i);
      if head != null {
        WithoutAt(hs, i);
      }
      forall k | k in m && k != head
        ensures IsChain(k, m[k])
      {
        forall i | 0 <= i < |m[k]|
          ensures Linked(k, m[k], i)
        {
          assert old(Linked(k, m[k], i));
          assert m[k][i] in m[k];
        }
      }
    }

    /** The statements of removeFromChain(), for a handler at position `i` of its chain. */
    method Unlink(ghost head: ChainHead?, ghost hs: seq<FdSelectHandler>, ghost i: nat)
      requires chain == head && Loose()
      requires head != null ==> i < |hs| && hs[i] == this && IsChain(head, hs) && Linked(head, hs, i)
      modifies this, prev, next, chain
      ensures chain == null && Loose()
      ensures waitForRead == old(waitForRead) && waitForWrite == old(waitForWrite)
      ensures head != null ==> IsChain(head, hs[..i] + hs[i + 1..])
    {
      if prev != null {
        prev.next := next;
      } else if chain != null {
        chain.first := next;
      }
      if next != null {
        next.prev := prev;
      }
      prev := null;
      next := null;
      chain := null;
      if head != null {
        ghost var rest := hs[..i] + hs[i + 1..];
        forall j | 0 <= j < |rest|
          ensures Linked(head, rest, j)
        {
          ghost var j' := if j < i then j else j + 1;
          assert rest[j] == hs[j'];
          assert old(Linked(head, hs, j'));
          assert j' > 0 ==> old(Linked(head, hs, j' - 1));
        }
      }
    }
  }

  /** Where a handler is in its chain, and that its neighbours point back at it. */
  ghost function PositionOf(head: ChainHead, hs: seq<FdSelectHandler>, h: FdSelectHandler): (i: nat)
    requires IsChain(head, hs) && h in hs
    reads head, hs
    ensures i < |hs| && hs[i] == h && Linked(head, hs, i)
    ensures i > 0 ==> Linked(head, hs, i - 1)
    ensures i + 1 < |hs| ==> Linked(head, hs, i + 1)
  {
    var i :| 0 <= i < |hs| && hs[i] == h;
    i
  }

  /* ---- any sequence of operations on any number of chains ---- */

  datatype Operation = Add(handler: FdSelectHandler, head: ChainHead) | Remove(handler: FdSelectHandler)

  ghost predicate Unchained(m: Chains, h: FdSelectHandler) {
    forall k :: k in m ==> h !in m[k]
  }

  /** Handlers are added only while they are in no chain. */
  ghost predicate Permitted(m: Chains, ops: seq<Operation>)
    decreases |ops|
  {
    ops == [] ||
    (&& (ops[0].Add? ==> ops[0].head in m && Unchained(m, ops[0].handler))
     && Permitted(Apply(m, ops[0]), ops[1..]))
  }

  ghost function Apply(m: Chains, op: Operation): Chains {
    match op
    case Add(h, k) => if k in m then m[k := [h] + m[k]] else m
    case Remove(h) => map k | k in m :: Without(m[k], h)
  }

  ghost function ApplyAll(m: Chains, ops: seq<Operation>): Chains
    decreases |ops|
  {
    if ops == [] then m else ApplyAll(Apply(m, ops[0]), ops[1..])
  }

  /** The handlers of `world` know which chain they are in, or that they are in none. */
  ghost predicate Tracks(world: set<FdSelectHandler>, m: Chains)
    reads m.Keys, world
  {
    && Members(m) <= world
    && forall h :: h in world ==> h.Loose() && (h.chain != null ==> h.chain in m && h in m[h.chain])
  }

  lemma {:induction false} WithoutAbsent<T>(q: seq<T>, x: T)
    requires x !in q
    ensures Without(q, x) == q
  {
    if q == [] {
    } else {
      assert q[0] in q;
      assert forall y :: y in q[1..] ==> y in q;
      WithoutAbsent(q[1..], x);
    }
  }

  lemma RemovingTouchesOneChain(m: Chains, h: FdSelectHandler)
    requires AreChains(m)
    ensures h.chain != null && h.chain in m && h in m[h.chain] ==> Apply(m, Remove(h)) == Removed(m, h.chain, h)
    ensures h.chain == null ==> Apply(m, Remove(h)) == m
  {
    MembersKnowTheirChain(m);
    forall k | k in m && k != h.chain
      ensures Without(m[k], h) == m[k]
    {
      WithoutAbsent(m[k], h);
    }
  }

  lemma {:induction false} WithoutMembers<T>(q: seq<T>, x: T)
    requires NoDup(q)
    ensures forall y :: y in Without(q, x) <==> y in q && y != x
  {
    if x in q {
      var i :| 0 <= i < |q| && q[i] == x;
      WithoutAt(q, i);
      forall y | y in q && y != x
        ensures y in q[..i] + q[i + 1..]
      {
        var j :| 0 <= j < |q| && q[j] == y;
        assert j < i ==> (q[..i] + q[i + 1..])[j] == y;
        assert j > i ==> (q[..i] + q[i + 1..])[j - 1] == y;
      }
    } else {
      WithoutAbsent(q, x);
    }
  }

  /** One operation. */
  method PerformOne(op: Operation, ghost world: set<FdSelectHandler>, ghost m: Chains)
    requires AreChains(m) && Tracks(world, m) && Permitted(m, [op]) && op.handler in world
    modifies m.Keys, world
    ensures AreChains(Apply(m, op)) && Tracks(world, Apply(m, op))
  {
    MembersKnowTheirChain(m);
    match op
    case Add(handler, head) =>
      assert handler.chain == null;
      assert head.first != null ==> head.first in m[head] by { assert IsChain(head, m[head]); }
      handler.AddTo(head, m);
      MembersKnowTheirChain(Apply(m, op));
      forall h | h in world
        ensures h.Loose() && (h.chain != null ==> h.chain in m && h in Apply(m, op)[h.chain])
      {
        if h != handler && h in Members(m) {
          var k :| k in m && h in m[k];
          assert h in Apply(m, op)[k];
        }
      }
    case Remove(handler) =>
      RemovingTouchesOneChain(m, handler);
      ghost var home := handler.chain;
      if home != null {
        ghost var i := PositionOf(home, m[home], handler);
        WithoutMembers(m[home], handler);
        assert Apply(m, op) == m[home := Without(m[home], handler)];
      } else {
        assert Apply(m, op) == m;
      }
      assert Members(Apply(m, op)) <= Members(m);
      handler.RemoveFromChain(m);
      MembersKnowTheirChain(Apply(m, op));
      forall h | h in world
        ensures h.Loose() && (h.chain != null ==> h.chain in m && h in Apply(m, op)[h.chain])
      {
        if h != handler && h in Members(m) {
          var k :| k in m && h in m[k];
          assert h in Apply(m, op)[k];
        }
      }
  }

  /** Any permitted sequence of operations leaves well-formed, disjoint chains that hold
      what the operations say: each addition at the front of its chain, each removal
      from the chain the handler was in. */
  method Perform(ops: seq<Operation>, ghost world: set<FdSelectHandler>, ghost m: Chains)
    requires AreChains(m) && Tracks(world, m) && Permitted(m, ops)
    requires forall op :: op in ops ==> op.handler in world
    modifies m.Keys, world
    ensures AreChains(ApplyAll(m, ops)) && Tracks(world, ApplyAll(m, ops))
  {
    ghost var now := m;
    for i := 0 to |ops|
      invariant now.Keys == m.Keys
      invariant AreChains(now) && Tracks(world, now) && Permitted(now, ops[i..])
      invariant ApplyAll(now, ops[i..]) == ApplyAll(m, ops)
    {
      assert ops[i..][0] == ops[i] && ops[i..][1..] == ops[i + 1..];
      PerformOne(ops[i], world, now);
      now := Apply(now, ops[i]);
    }
  }
}
