/** What slotsAvailable() and itemsAvailable() return beside other threads. */
module RingQueries {
  import opened Prelude
  import opened RingBlocks
  import opened RingProtocol
  import opened RingInvariant
  import opened RingTheorems

  ghost function Asked<T>(r: Ring<T>, q: Query): int {
    match q
    case SlotsAvailable => |SlotsAt(r.items, Free)|
    case ItemsAvailable => |SlotsAt(r.items, Released)|
  }

  /** A query that was answered, and did not return yet, has the right answer. */
  ghost predicate AnswersRight<T>(c: State<T>) {
    forall t :: t in c.threads && c.threads[t].pc.QUnlock? ==>
      c.threads[t].pc.result == Asked(c.ring, c.threads[t].pc.query)
  }

  /** The answer depends on the counters. */
  lemma AskedIsCounted<T>(r: Ring<T>, q: Query)
    requires Valid(r)
    ensures Asked(r, q) == if q == SlotsAvailable then r.N() - r.numProduced else r.numReleased
  {
    Conservation(r);
  }

  lemma ReadAdvances<T>(c: State<T>, t: Tid)
    requires CanGo(c, t) && WellSized(c) && c.threads[t].pc.QRead?
    ensures var q := c.threads[t].pc.query;
            var n := if q == SlotsAvailable then c.ring.N() - c.ring.numProduced else c.ring.numReleased;
            Advance(c, t) == Running(At(c, t, QUnlock(q, n)))
  {
    hide WellSized;
  }

  /** The read itself. */
  lemma ReadIsRight<T>(c: State<T>, t: Tid)
    requires Inv(c) && CanGo(c, t) && WellSized(c) && c.threads[t].pc.QRead?
    ensures var q := c.threads[t].pc.query;
            Advance(c, t) == Running(At(c, t, QUnlock(q, Asked(c.ring, q))))
  {
    hide WellSized, Advance, At, Asked, Represents, Ownership, Tokens;
    ReadAdvances(c, t);
    AskedIsCounted(c.ring, c.threads[t].pc.query);
  }

  /** Nobody else changes the ring while a thread holds the mutex. */
  lemma OthersAreOutside<T>(c: State<T>, t: Tid, u: Tid)
    requires Inv(c) && t in c.threads && u in c.threads && t != u && Plays(c.threads[t].pc, HoldsMutex)
    ensures !IsBlock(c.threads[u].pc)
  {
    if IsBlock(c.threads[u].pc) {
      SubsetSize({t, u}, Players(c.threads, HoldsMutex));
    }
  }

  /** Actions that are no block leave the counters alone. */
  lemma CountersStay<T>(c: State<T>, a: Action<T>)
    requires WellSized(c) && Enabled(c, a) && Next(c, a).Running? && (a.Go? ==> !IsBlock(c.threads[a.tid].pc))
    ensures var r, r' := c.ring, Next(c, a).state.ring;
            r'.N() == r.N() && r'.numProduced == r.numProduced && r'.numReleased == r.numReleased
  {
    if a.Go? {
      OutsideBlocksRingUnchanged(c, a.tid);
    }
  }

  /** A thread that is about to return from a query was there already, or has just read. */
  lemma AnsweredBefore<T>(c: State<T>, a: Action<T>, t: Tid)
    requires WellSized(c) && Enabled(c, a) && Next(c, a).Running?
    requires t in Next(c, a).state.threads && Next(c, a).state.threads[t].pc.QUnlock?
    ensures t in c.threads
    ensures if a.tid == t then a.Go? && c.threads[t].pc.QRead? else c.threads[t].pc == Next(c, a).state.threads[t].pc
  {
  }

  /** What one thread was answered stays right when another one moves. */
  lemma AnswerStays<T>(c: State<T>, a: Action<T>, t: Tid)
    requires Inv(c) && WellSized(c) && Enabled(c, a) && Next(c, a).Running? && Valid(Next(c, a).state.ring)
    requires t in c.threads && c.threads[t].pc.QUnlock? && a.tid != t
    ensures forall q :: Asked(Next(c, a).state.ring, q) == Asked(c.ring, q)
  {
    hide WellSized, Next, Asked, Represents, Ownership, Tokens;
    assert a.tid in c.threads;
    OthersAreOutside(c, t, a.tid);
    CountersStay(c, a);
    forall q
      ensures Asked(Next(c, a).state.ring, q) == Asked(c.ring, q)
    {
      AskedIsCounted(c.ring, q);
      AskedIsCounted(Next(c, a).state.ring, q);
    }
  }

  lemma JustRead<T>(c: State<T>, t: Tid)
    requires Inv(c) && CanGo(c, t) && WellSized(c) && c.threads[t].pc.QRead?
    ensures var d := Advance(c, t);
            && d.Running? && t in d.state.threads && d.state.threads[t].pc.QUnlock?
            && d.state.threads[t].pc.result == Asked(d.state.ring, d.state.threads[t].pc.query)
  {
    hide WellSized, Advance, Asked, Inv;
    ReadIsRight(c, t);
  }

  lemma StepKeepsAnswers<T>(c: State<T>, a: Action<T>)
    requires Inv(c) && WellSized(c) && Enabled(c, a) && AnswersRight(c) && Next(c, a).Running?
    ensures AnswersRight(Next(c, a).state)
  {
    hide WellSized, Asked, Advance, Represents, Ownership, Tokens;
    var d := Next(c, a).state;
    StepPreserves(c, a);
    forall t | t in d.threads && d.threads[t].pc.QUnlock?
      ensures d.threads[t].pc.result == Asked(d.ring, d.threads[t].pc.query)
    {
      AnsweredBefore(c, a, t);
      if a.tid == t {
        JustRead(c, t);
      } else {
        AnswerStays(c, a, t);
      }
    }
  }

  /** The result of a query is the number of free, or of released, slots at the moment of the
      read; and it still is when the query returns, as it holds the mutex in between. */
  lemma {:induction false} QueriesCount<T>(payloads: seq<T>, tids: set<Tid>, run: seq<Action<T>>, d: State<T>)
    requires Reaches(payloads, tids, run, d)
    ensures AnswersRight(d)
  {
    if run == [] {
    } else {
      hide AnswersRight, WellSized, Enabled, Next;
      var before := run[..|run| - 1];
      var b := Exec(Initial(payloads, tids), before).state;
      QueriesCount(payloads, tids, before, b);
      ReachableInv(payloads, tids, before, b);
      StepKeepsAnswers(b, run[|run| - 1]);
    }
  }
}
