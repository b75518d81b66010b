/** The ring as the C++ class: arrays, indices and counters updated in place.
    A pointer to an item is its index in `itemBuffer`. The methods run without
    other threads, so a wait on a semaphore at zero never ends; such a call is
    reported by the result `None`. */
module ProducerConsumer {
  import opened Prelude
  import opened RingBlocks

  class ProducerConsumer<T(0)> {
    var itemBuffer: array<Item<T>>
    var freeBuffer: array<Option<nat>>
    var releasedBuffer: array<Option<nat>>
    var numProducedItems: int
    var numReleasedItems: int
    var free: nat
    var item: nat
    var mutex: nat
    var nextAdd: nat
    var nextRelease: nat
    var nextConsume: nat
    var nextRemoved: nat

    /** The fields as a value. */
    ghost function View(): Ring<T>
      reads this, itemBuffer, freeBuffer, releasedBuffer
    {
      Ring(itemBuffer[..], freeBuffer[..], releasedBuffer[..], numProducedItems, numReleasedItems,
           nextAdd, nextRelease, nextConsume, nextRemoved)
    }

    /** What holds between calls: a valid ring, and semaphores that show the counters. */
    ghost predicate Ready()
      reads this, itemBuffer, freeBuffer, releasedBuffer
    {
      && freeBuffer != releasedBuffer
      && Valid(View())
      && mutex == 1 && item == numReleasedItems && free == itemBuffer.Length - numProducedItems
    }

    /** `payloads` are the contents that the memory of the items happens to have. */
    constructor (payloads: seq<T>)
      requires |payloads| >= 1
      ensures Ready() && View() == InitialRing(payloads)
      ensures fresh(itemBuffer) && fresh(freeBuffer) && fresh(releasedBuffer)
    {
      hide Represents, Valid;
      mutex := 0;
      nextAdd, nextRelease, nextConsume, nextRemoved := 0, 0, 0, 0;
      numProducedItems, numReleasedItems := 0, 0;
      free, item := |payloads|, 0;
      itemBuffer := new Item<T>[|payloads|](i requires 0 <= i < |payloads| => Item(payloads[i], true, true, true));
      freeBuffer := new Option<nat>[|payloads|](_ => None);
      releasedBuffer := new Option<nat>[|payloads|](_ => None);
      new;
      ClearSlots();
      mutex := 1;
      InitialIsValid(payloads);
      assert View() == InitialRing(payloads);
    }

    /** The loop of lines 112-120. */
    method ClearSlots()
      requires itemBuffer.Length == freeBuffer.Length == releasedBuffer.Length && freeBuffer != releasedBuffer
      modifies itemBuffer, freeBuffer, releasedBuffer
      ensures forall j :: 0 <= j < itemBuffer.Length ==>
        && itemBuffer[j] == Item(old(itemBuffer[j].payload), false, false, false)
        && freeBuffer[j] == Some(j) && releasedBuffer[j] == None
    {
      for i := 0 to itemBuffer.Length
        invariant forall j :: 0 <= j < itemBuffer.Length ==> itemBuffer[j].payload == old(itemBuffer[j].payload)
        invariant forall j :: 0 <= j < i ==>
          && itemBuffer[j] == Item(old(itemBuffer[j].payload), false, false, false)
          && freeBuffer[j] == Some(j) && releasedBuffer[j] == None
      {
        itemBuffer[i] := itemBuffer[i].(inConsumption := false, inProduction := false, inUse := false);
        freeBuffer[i] := Some(i);
        releasedBuffer[i] := None;
      }
    }

    /** What a call may change, and what stays. */
    twostate predicate SameArrays()
      reads this
    {
      itemBuffer == old(itemBuffer) && freeBuffer == old(freeBuffer) && releasedBuffer == old(releasedBuffer)
    }

    method Produce(block: bool) returns (slot: Option<nat>)
      requires Ready()
      modifies this, itemBuffer, freeBuffer, releasedBuffer
      ensures SameArrays() && Ready()
      ensures match ProduceAlone(old(View()), block)
              case Returns(r, s) => slot == s && View() == r
              case Waits => slot == None && View() == old(View())
              case Aborts => false
    {
      hide Represents, Holds;
      mutex := mutex - 1;
      if !block && itemBuffer.Length == numProducedItems {
        mutex := mutex + 1;
        assert View() == old(View());
        if item == 0 {
          return None;
        }
        EvictIsTransfer(View());
        DropOldest();
      } else {
        mutex := mutex + 1;
        assert View() == old(View());
      }
      if free == 0 {
        return None;
      }
      TakeFreeIsDequeue(View());
      var p := TakeSlot();
      return Some(p);
    }

    /** produce() from line 139 to line 155. */
    method DropOldest()
      requires View().Shape() && Evict(View()).Done? && freeBuffer != releasedBuffer
      requires item > 0 && mutex == 1
      modifies this, itemBuffer, freeBuffer, releasedBuffer
      ensures SameArrays() && View() == Evict(old(View())).ring
      ensures item == old(item) - 1 && free == old(free) + 1 && mutex == 1
    {
      item := item - 1;
      mutex := mutex - 1;
      var product := PopReleased();
      assert !itemBuffer[product].inProduction;
      assert !itemBuffer[product].inConsumption;
      itemBuffer[product] := itemBuffer[product].(inUse := false);
      PutFree(product);
      free := free + 1;
      mutex := mutex + 1;
    }

    /** Lines 141, 146-148, 152, and again 208-209, 213-215. */
    method PopReleased() returns (product: nat)
      requires View().Shape() && releasedBuffer[nextConsume].Some?
      modifies this`nextConsume, this`numReleasedItems, releasedBuffer
      ensures old(releasedBuffer[nextConsume]) == Some(product)
      ensures releasedBuffer[..] == old(releasedBuffer[..][nextConsume := None])
      ensures nextConsume == Succ(old(nextConsume), itemBuffer.Length) && numReleasedItems == old(numReleasedItems) - 1
    {
      product := releasedBuffer[nextConsume].value;
      releasedBuffer[nextConsume] := None;
      nextConsume := Succ(nextConsume, itemBuffer.Length);
      numReleasedItems := numReleasedItems - 1;
    }

    /** Lines 145, 149-151, and again 233-236. */
    method PutFree(product: nat)
      requires nextRemoved < freeBuffer.Length == itemBuffer.Length
      modifies this`nextRemoved, this`numProducedItems, freeBuffer
      ensures freeBuffer[..] == old(freeBuffer[..][nextRemoved := Some(product)])
      ensures nextRemoved == Succ(old(nextRemoved), itemBuffer.Length) && numProducedItems == old(numProducedItems) - 1
    {
      freeBuffer[nextRemoved] := Some(product);
      nextRemoved := Succ(nextRemoved, itemBuffer.Length);
      numProducedItems := numProducedItems - 1;
    }

    /** produce() from line 157 on. */
    method TakeSlot() returns (product: nat)
      requires View().Shape() && TakeFree(View()).Done? && freeBuffer != releasedBuffer
      requires free > 0 && mutex == 1
      modifies this, itemBuffer, freeBuffer
      ensures SameArrays() && TakeFree(old(View())) == Done(View(), product)
      ensures item == old(item) && free == old(free) - 1 && mutex == 1
    {
      free := free - 1;
      mutex := mutex - 1;
      var p := freeBuffer[nextAdd];
      freeBuffer[nextAdd] := None;
      assert p != None;
      product := p.value;
      assert !itemBuffer[product].inUse;
      assert !itemBuffer[product].inProduction;
      itemBuffer[product] := itemBuffer[product].(inProduction := true, inUse := true);
      nextAdd := Succ(nextAdd, itemBuffer.Length);
      numProducedItems := numProducedItems + 1;
      mutex := mutex + 1;
      assert View() == TakeFree(old(View())).ring;
    }

    method Release(product: nat)
      requires Ready() && product < itemBuffer.Length && PlaceOf(itemBuffer[product]) == InProduction
      modifies this, itemBuffer, releasedBuffer
      ensures SameArrays() && Ready() && View() == StoreReleased(old(View()), product)
    {
      hide Represents;
      StoreReleasedIsEnqueue(View(), product);
      assert itemBuffer[product].inUse;
      assert itemBuffer[product].inProduction;
      mutex := mutex - 1;
      itemBuffer[product] := itemBuffer[product].(inProduction := false);
      releasedBuffer[nextRelease] := Some(product);
      nextRelease := Succ(nextRelease, itemBuffer.Length);
      numReleasedItems := numReleasedItems + 1;
      mutex := mutex + 1;
      item := item + 1;
      assert View() == StoreReleased(old(View()), product);
    }

    /** `waits` tells the call that never ends from the one that returns null. */
    method Consume(block: bool) returns (waits: bool, taken: Option<nat>)
      requires Ready()
      modifies this, itemBuffer, releasedBuffer
      ensures SameArrays() && Ready()
      ensures match ConsumeAlone(old(View()), block)
              case Returns(r, s) => !waits && taken == s && View() == r
              case Waits => waits && taken == None && View() == old(View())
              case Aborts => false
    {
      mutex := mutex - 1;
      if !block && 0 == numReleasedItems {
        mutex := mutex + 1;
        return false, None;
      }
      mutex := mutex + 1;

      assert View() == old(View());
      if item == 0 {
        return true, None;
      }
      TakeReleasedIsDequeue(View());
      var o := TakeItem();
      return false, Some(o);
    }

    /** consume() from line 206 on. */
    method TakeItem() returns (taken: nat)
      requires View().Shape() && TakeReleased(View()).Done? && freeBuffer != releasedBuffer
      requires item > 0 && mutex == 1
      modifies this, itemBuffer, releasedBuffer
      ensures SameArrays() && TakeReleased(old(View())) == Done(View(), taken)
      ensures item == old(item) - 1 && free == old(free) && mutex == 1
    {
      item := item - 1;
      mutex := mutex - 1;
      assert releasedBuffer[nextConsume] != None;
      taken := PopReleased();
      assert itemBuffer[taken].inUse;
      itemBuffer[taken] := itemBuffer[taken].(inConsumption := true);
      mutex := mutex + 1;
    }

    method Cleanup(taken: nat)
      requires Ready() && taken < itemBuffer.Length && PlaceOf(itemBuffer[taken]) == InConsumption
      modifies this, itemBuffer, freeBuffer
      ensures SameArrays() && Ready() && View() == ReturnFree(old(View()), taken)
    {
      hide Represents;
      ReturnFreeIsEnqueue(View(), taken);
      assert itemBuffer[taken].inUse;
      assert itemBuffer[taken].inConsumption;
      mutex := mutex - 1;
      itemBuffer[taken] := itemBuffer[taken].(inUse := false, inConsumption := false);
      PutFree(taken);
      mutex := mutex + 1;
      free := free + 1;
      assert View() == ReturnFree(old(View()), taken);
    }

    /** The client fills the item it was handed. */
    method Fill(product: nat, value: T)
      requires Ready() && product < itemBuffer.Length
      modifies itemBuffer
      ensures SameArrays() && Ready() && View() == WritePayload(old(View()), product, value)
    {
      WritePayloadKeepsQueues(View(), product, value);
      itemBuffer[product] := itemBuffer[product].(payload := value);
      assert View() == WritePayload(old(View()), product, value);
    }

    /** The number of slots that are in neither production, release nor consumption. */
    method SlotsAvailable() returns (n: int)
      requires Ready()
      ensures n == |SlotsAt(View().items, Free)|
    {
      n := itemBuffer.Length - numProducedItems;
      Conservation(View());
    }

    method ItemsAvailable() returns (n: int)
      requires Ready()
      ensures n == |SlotsAt(View().items, Released)|
    {
      n := numReleasedItems;
      Conservation(View());
    }
  }
}
