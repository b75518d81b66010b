/** The producer-consumer ring as it runs: any number of threads, each with a
    program counter, interleaving one semaphore operation, one mutex-protected
    block or one unprotected assertion at a time. */
module RingProtocol {
  import opened Prelude
  import opened RingBlocks

  type Tid = nat

  datatype Query = SlotsAvailable | ItemsAvailable

  /** Where a thread is inside a call. The comment gives the statement it is about to run. */
  datatype PC =
    | Idle                        // outside the ring
    // produce(block)
    | PLock(block: bool)          // 134 mutex.acquire()
    | PTest(block: bool)          // 135 full check
    | PUnlockFull                 // 137 mutex.release()
    | PWaitItem                   // 139 item.acquire()
    | PLockEvict                  // 140 mutex.acquire()
    | PEvict                      // 141-152
    | PPostFree                   // 153 free.release(), still holding the mutex
    | PUnlock(block: bool)        // 155 mutex.release()
    | PWaitFree(block: bool)      // 157 free.acquire()
    | PLockTake                   // 158 mutex.acquire()
    | PTake                       // 159-168
    | PUnlockTaken(slot: nat)     // 169 mutex.release(), 171 return
    // release(p)
    | RAssert(slot: nat)          // 180-181
    | RLock(slot: nat)            // 183 mutex.acquire()
    | RStore(slot: nat)           // 184-188
    | RUnlock                     // 189 mutex.release()
    | RPost                       // 190 item.release()
    // consume(block)
    | CLock(block: bool)          // 198 mutex.acquire()
    | CTest(block: bool)          // 199 empty check
    | CUnlockEmpty                // 201 mutex.release(), 202 return 0
    | CUnlock(block: bool)        // 204 mutex.release()
    | CWaitItem(block: bool)      // 206 item.acquire()
    | CLockTake                   // 207 mutex.acquire()
    | CTake                       // 208-215
    | CUnlockTaken(slot: nat)     // 216 mutex.release(), 218 return
    // cleanup(o)
    | KAssert(slot: nat)          // 226-228
    | KLock(slot: nat)            // 230 mutex.acquire()
    | KReturn(slot: nat)          // 231-236
    | KUnlock                     // 237 mutex.release()
    | KPost                       // 238 free.release()
    // slotsAvailable(), itemsAvailable()
    | QLock(query: Query)         // 246, 258 mutex.acquire()
    | QRead(query: Query)         // 247, 259
    | QUnlock(query: Query, result: int)  // 248, 260 mutex.release(), return

  /** A thread, with the slots that its finished calls handed to it, or that other
      threads gave to it, and that it has not handed back or given away. */
  datatype Thread = Thread(pc: PC, producing: set<nat>, consuming: set<nat>)

  datatype State<T> = State(
    ring: Ring<T>,
    free: nat,
    item: nat,
    mutex: nat,
    threads: map<Tid, Thread>)

  datatype Action<T> =
    | CallProduce(tid: Tid, block: bool)
    | CallRelease(tid: Tid, slot: nat)
    | CallConsume(tid: Tid, block: bool)
    | CallCleanup(tid: Tid, slot: nat)
    | CallQuery(tid: Tid, query: Query)
    | Write(tid: Tid, slot: nat, value: T)   // the client fills the slot it produces
    | Pass(tid: Tid, slot: nat, to: Tid)     // the client gives a slot to another thread
    | Go(tid: Tid)                           // the thread runs its next statement

  datatype Outcome<T> = Running(state: State<T>) | AssertionFailed | NotEnabled

  datatype Semaphore = FreeSem | ItemSem | MutexSem

  function Value<T>(c: State<T>, sem: Semaphore): nat {
    match sem
    case FreeSem => c.free
    case ItemSem => c.item
    case MutexSem => c.mutex
  }

  /** The semaphore a statement waits on, if it is an acquire(). */
  function Awaits(pc: PC): Option<Semaphore> {
    match pc
    case PWaitItem => Some(ItemSem)
    case CWaitItem(_) => Some(ItemSem)
    case PWaitFree(_) => Some(FreeSem)
    case PLock(_) => Some(MutexSem)
    case PLockEvict => Some(MutexSem)
    case PLockTake => Some(MutexSem)
    case RLock(_) => Some(MutexSem)
    case CLock(_) => Some(MutexSem)
    case CLockTake => Some(MutexSem)
    case KLock(_) => Some(MutexSem)
    case QLock(_) => Some(MutexSem)
    case _ => None
  }

  predicate CanGo<T>(c: State<T>, t: Tid) {
    && t in c.threads && c.threads[t].pc != Idle
    && (Awaits(c.threads[t].pc).Some? ==> Value(c, Awaits(c.threads[t].pc).value) > 0)
  }

  /** Calls start from outside the ring, and clients hand back only what was handed
      out, perhaps to another thread: the contract of release() and cleanup(). */
  predicate Enabled<T>(c: State<T>, a: Action<T>) {
    && a.tid in c.threads
    && var th := c.threads[a.tid];
       match a
       case CallProduce(_, _) => th.pc == Idle
       case CallRelease(_, s) => th.pc == Idle && s in th.producing
       case CallConsume(_, _) => th.pc == Idle
       case CallCleanup(_, s) => th.pc == Idle && s in th.consuming
       case CallQuery(_, _) => th.pc == Idle
       case Write(_, s, _) => th.pc == Idle && s in th.producing
       case Pass(_, s, u) => th.pc == Idle && (s in th.producing || s in th.consuming) && u in c.threads
       case Go(t) => CanGo(c, t)
  }

  function At<T>(c: State<T>, t: Tid, pc: PC): State<T>
    requires t in c.threads
  {
    c.(threads := c.threads[t := c.threads[t].(pc := pc)])
  }

  function Take<T>(c: State<T>, sem: Semaphore): State<T>
    requires Value(c, sem) > 0
  {
    match sem
    case FreeSem => c.(free := c.free - 1)
    case ItemSem => c.(item := c.item - 1)
    case MutexSem => c.(mutex := c.mutex - 1)
  }

  function Post<T>(c: State<T>, sem: Semaphore): State<T> {
    match sem
    case FreeSem => c.(free := c.free + 1)
    case ItemSem => c.(item := c.item + 1)
    case MutexSem => c.(mutex := c.mutex + 1)
  }

  ghost predicate WellSized<T>(c: State<T>) {
    && c.ring.Shape()
    && forall t :: t in c.threads ==>
         && InBounds(c.threads[t].producing, c.ring.N())
         && InBounds(c.threads[t].consuming, c.ring.N())
         && InBounds(InHand(c.threads[t].pc), c.ring.N())
  }

  ghost predicate InBounds(slots: set<nat>, n: nat) {
    forall s :: s in slots ==> s < n
  }

  /** The slot a running call carries in its local variable. */
  function InHand(pc: PC): set<nat> {
    match pc
    case PUnlockTaken(s) => {s}
    case RAssert(s) => {s}
    case RLock(s) => {s}
    case RStore(s) => {s}
    case CUnlockTaken(s) => {s}
    case KAssert(s) => {s}
    case KLock(s) => {s}
    case KReturn(s) => {s}
    case _ => {}
  }

  /** Where a statement that only moves control and semaphores leads, and the
      semaphore it posts, if any. (The semaphore it takes is given by `Awaits`.) */
  function Control<T>(r: Ring<T>, pc: PC): Option<(PC, Option<Semaphore>)> {
    match pc
    case PLock(b) => Some((PTest(b), None))
    case PTest(b) => Some((if !b && r.N() == r.numProduced then PUnlockFull else PUnlock(b), None))
    case PUnlockFull => Some((PWaitItem, Some(MutexSem)))
    case PWaitItem => Some((PLockEvict, None))
    case PLockEvict => Some((PEvict, None))
    case PPostFree => Some((PUnlock(false), Some(FreeSem)))
    case PUnlock(b) => Some((PWaitFree(b), Some(MutexSem)))
    case PWaitFree(_) => Some((PLockTake, None))
    case PLockTake => Some((PTake, None))
    case RLock(s) => Some((RStore(s), None))
    case RUnlock => Some((RPost, Some(MutexSem)))
    case RPost => Some((Idle, Some(ItemSem)))
    case CLock(b) => Some((CTest(b), None))
    case CTest(b) => Some((if !b && 0 == r.numReleased then CUnlockEmpty else CUnlock(b), None))
    case CUnlockEmpty => Some((Idle, Some(MutexSem)))
    case CUnlock(b) => Some((CWaitItem(b), Some(MutexSem)))
    case CWaitItem(_) => Some((CLockTake, None))
    case CLockTake => Some((CTake, None))
    case KLock(s) => Some((KReturn(s), None))
    case KUnlock => Some((KPost, Some(MutexSem)))
    case KPost => Some((Idle, Some(FreeSem)))
    case QLock(q) => Some((QRead(q), None))
    case QRead(q) =>
      Some((QUnlock(q, if q == SlotsAvailable then r.N() - r.numProduced else r.numReleased), None))
    case QUnlock(_, _) => Some((Idle, Some(MutexSem)))
    case _ => None
  }

  function TakeAwaited<T>(c: State<T>, pc: PC): State<T>
    requires Awaits(pc).Some? ==> Value(c, Awaits(pc).value) > 0
  {
    match Awaits(pc) case None => c case Some(sem) => Take(c, sem)
  }

  function PostIfAny<T>(c: State<T>, sem: Option<Semaphore>): State<T> {
    match sem case None => c case Some(v) => Post(c, v)
  }

  function Finish<T>(c: State<T>, t: Tid, b: Block<T>, pc: nat -> PC): Outcome<T>
    requires t in c.threads
  {
    match b
    case AssertFails => AssertionFailed
    case Done(r, s) => Running(At(c.(ring := r), t, pc(s)))
  }

  /** One statement of thread `t`. */
  function Advance<T>(c: State<T>, t: Tid): Outcome<T>
    requires WellSized(c) && CanGo(c, t)
  {
    var th := c.threads[t];
    var r := c.ring;
    match Control(r, th.pc)
    case Some((pc, posted)) => Running(At(PostIfAny(TakeAwaited(c, th.pc), posted), t, pc))
    case None =>
      match th.pc
      case PEvict => Finish(c, t, Evict(r), _ => PPostFree)
      case PTake => Finish(c, t, TakeFree(r), (s: nat) => PUnlockTaken(s))
      case CTake => Finish(c, t, TakeReleased(r), (s: nat) => CUnlockTaken(s))
      case RStore(s) => Running(At(c.(ring := StoreReleased(r, s)), t, RUnlock))
      case KReturn(s) => Running(At(c.(ring := ReturnFree(r, s)), t, KUnlock))
      case PUnlockTaken(s) =>
        Running(Post(c, MutexSem).(threads := c.threads[t := Thread(Idle, th.producing + {s}, th.consuming)]))
      case CUnlockTaken(s) =>
        Running(Post(c, MutexSem).(threads := c.threads[t := Thread(Idle, th.producing, th.consuming + {s})]))
      case RAssert(s) =>
        if r.items[s].inUse && r.items[s].inProduction then Running(At(c, t, RLock(s))) else AssertionFailed
      case KAssert(s) =>
        if r.items[s].inUse && r.items[s].inConsumption then Running(At(c, t, KLock(s))) else AssertionFailed
      case _ => NotEnabled
  }

  /** Thread `t` gives slot `s` to thread `u`, which may be inside a call. */
  function Passed(threads: map<Tid, Thread>, t: Tid, s: nat, u: Tid): map<Tid, Thread>
    requires t in threads && u in threads
  {
    if s in threads[t].producing then
      var left := threads[t := threads[t].(producing := threads[t].producing - {s})];
      left[u := left[u].(producing := left[u].producing + {s})]
    else
      var left := threads[t := threads[t].(consuming := threads[t].consuming - {s})];
      left[u := left[u].(consuming := left[u].consuming + {s})]
  }

  function Next<T>(c: State<T>, a: Action<T>): Outcome<T>
    requires WellSized(c) && Enabled(c, a)
  {
    var th := c.threads[a.tid];
    match a
    case CallProduce(t, b) => Running(At(c, t, PLock(b)))
    case CallRelease(t, s) =>
      Running(c.(threads := c.threads[t := th.(pc := RAssert(s), producing := th.producing - {s})]))
    case CallConsume(t, b) => Running(At(c, t, CLock(b)))
    case CallCleanup(t, s) =>
      Running(c.(threads := c.threads[t := th.(pc := KAssert(s), consuming := th.consuming - {s})]))
    case CallQuery(t, q) => Running(At(c, t, QLock(q)))
    case Write(t, s, v) => Running(c.(ring := WritePayload(c.ring, s, v)))
    case Pass(t, s, u) => Running(c.(threads := Passed(c.threads, t, s, u)))
    case Go(t) => Advance(c, t)
  }

  /** The constructor's state, with some set of threads standing by. */
  function Initial<T>(payloads: seq<T>, tids: set<Tid>): State<T> {
    State(InitialRing(payloads), |payloads|, 0, 1, map t | t in tids :: Thread(Idle, {}, {}))
  }
}
