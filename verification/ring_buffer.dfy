/** The ring as one block sees it: the buffer, the two words and their history. */
module RingBuffer {
  import opened Ring

  lemma CopyMisses(capacity: nat, n: nat, items: nat, k: nat)
    requires 0 < capacity && n % capacity + items <= capacity
    requires k < n && n + items - k <= capacity
    ensures !(n % capacity <= k % capacity < n % capacity + items)
  {
    var at := k % capacity - n % capacity;
    if 0 <= at < items {
      SlotsConsecutive(capacity, n, at);
      SlotsDistinct(capacity, n + at, k);
    }
  }

  /** A block copied to the write position leaves the unread items in place. */
  lemma CopyKeepsContents<T>(was: seq<T>, now: seq<T>, taken: nat, written: seq<T>, block: seq<T>)
    requires |was| == |now| && 2 <= |was| && taken <= |written|
    requires |written| + |block| <= taken + |was| - 1
    requires |written| % |was| + |block| <= |was|
    requires forall k :: taken <= k < |written| ==> was[k % |was|] == written[k]
    requires forall j :: 0 <= j < |was| ==>
      var p := |written| % |was|;
      now[j] == if p <= j < p + |block| then block[j - p] else was[j]
    ensures forall k :: taken <= k < |written| + |block| ==>
      now[k % |was|] == (written + block)[k]
  {
    var n := |written|;
    forall k | taken <= k < n + |block|
      ensures now[k % |was|] == (written + block)[k]
    {
      if n <= k {
        SlotsConsecutive(|was|, n, k - n);
      } else {
        CopyMisses(|was|, n, |block|, k);
      }
    }
  }

  lemma ViewIsUnread<T>(slots: seq<T>, taken: nat, written: seq<T>, items: nat)
    requires 0 < |slots| && taken + items <= |written| && taken % |slots| + items <= |slots|
    requires forall k :: taken <= k < |written| ==> slots[k % |slots|] == written[k]
    ensures slots[taken % |slots|..taken % |slots| + items] == written[taken..taken + items]
  {
    var view, items' := slots[taken % |slots|..taken % |slots| + items], written[taken..taken + items];
    forall i | 0 <= i < |view|
      ensures view[i] == items'[i]
    {
      SlotsConsecutive(|slots|, taken, i);
      assert slots[(taken + i) % |slots|] == written[taken + i];
    }
  }

  /** A block copy into the caller's buffer. */
  method CopyOut<T>(block: seq<T>, output: array<T>, at: nat)
    requires at + |block| <= output.Length
    modifies output
    ensures output[..at] == old(output[..at]) && output[at..at + |block|] == block
  {
    forall j | 0 <= j < |block| {
      output[at + j] := block[j];
    }
  }

  class Buffer<T(0)> {
    const slots: array<T>
    var readPos: nat
    var writePos: nat
    ghost var written: seq<T>   // every item ever published, in order
    ghost var taken: nat        // how many of them have been released

    ghost predicate Valid()
      reads this, slots
    {
      && 2 <= slots.Length
      && taken <= |written| <= taken + slots.Length - 1
      && readPos == taken % slots.Length
      && writePos == |written| % slots.Length
      && forall k :: taken <= k < |written| ==> slots[k % slots.Length] == written[k]
    }

    constructor (capacity: nat)
      requires 2 <= capacity
      ensures Valid() && fresh(slots) && slots.Length == capacity
      ensures written == [] && taken == 0
    {
      slots := new T[capacity];
      readPos, writePos := 0, 0;
      written, taken := [], 0;
    }

    /** Items in flight, computed from the two words. */
    function Occupied(): (n: nat)
      requires Valid()
      reads this, slots
      ensures n == |written| - taken
    {
      UsedIsDifference(slots.Length, taken, |written|);
      Used(slots.Length, readPos, writePos)
    }

    function Free(): (n: nat)
      requires Valid()
      reads this, slots
      ensures n == slots.Length - 1 - (|written| - taken)
    {
      slots.Length - Occupied() - 1
    }

    /** A contiguous unread stretch, read in place. */
    function View(items: nat): (block: seq<T>)
      requires Valid() && items <= Occupied() && readPos + items <= slots.Length
      reads this, slots
      ensures block == written[taken..taken + items]
    {
      ViewIsUnread(slots[..], taken, written, items);
      slots[readPos..readPos + items]
    }

    /** Release `items` unread items. */
    method AdvanceRead(items: nat)
      requires Valid() && items <= Occupied()
      modifies this
      ensures Valid() && taken == old(taken) + items
      ensures written == old(written) && writePos == old(writePos)
    {
      AdvancedFits(slots.Length, taken, items);
      readPos := Advanced(slots.Length, readPos, items);
      taken := taken + items;
    }

    /** One block copy out of the buffer, stopping short of its end. */
    method Take(items: nat) returns (block: seq<T>)
      requires Valid() && items <= Occupied() && readPos + items <= slots.Length
      modifies this
      ensures Valid() && taken == old(taken) + items
      ensures written == old(written) && writePos == old(writePos)
      ensures block == written[old(taken)..taken]
    {
      block := View(items);
      AdvanceRead(items);
    }

    /** One block copy into the buffer, stopping short of its end. */
    method Put(block: seq<T>)
      requires Valid() && |block| <= Free() && writePos + |block| <= slots.Length
      modifies this, slots
      ensures Valid() && written == old(written) + block
      ensures taken == old(taken) && readPos == old(readPos)
    {
      ghost var was, n := slots[..], |written|;
      forall j | 0 <= j < |block| {
        slots[writePos + j] := block[j];
      }
      CopyKeepsContents(was, slots[..], taken, written, block);
      AdvancedFits(slots.Length, n, |block|);
      writePos := Advanced(slots.Length, writePos, |block|);
      written := written + block;
    }

    // ---- the worker at the other end ----------------------------------------

    /** A worker that produces: it publishes as much of `batch` as fits. */
    method Deliver(batch: seq<T>)
      requires Valid()
      modifies this, slots
      ensures Valid() && taken == old(taken) && readPos == old(readPos)
      ensures written == old(written) + batch[..Min(|batch|, old(Free()))]
    {
      var left := batch[..Min(|batch|, Free())];
      while left != []
        invariant Valid() && taken == old(taken) && readPos == old(readPos)
        invariant |left| <= Free()
        invariant written + left == old(written) + batch[..Min(|batch|, old(Free()))]
        decreases |left|
      {
        var n := Min(|left|, slots.Length - writePos);
        Put(left[..n]);
        left := left[n..];
      }
    }

    /** A worker that consumes: it takes up to `items` unread items. */
    method Drain(items: nat) returns (block: seq<T>)
      requires Valid()
      modifies this
      ensures Valid() && written == old(written) && writePos == old(writePos)
      ensures taken == old(taken) + Min(items, old(Occupied()))
      ensures block == written[old(taken)..taken]
    {
      var left := Min(items, Occupied());
      block := [];
      while left > 0
        invariant Valid() && written == old(written) && writePos == old(writePos)
        invariant taken + left == old(taken) + Min(items, old(Occupied()))
        invariant old(taken) <= taken && block == written[old(taken)..taken]
      {
        var n := Min(left, slots.Length - readPos);
        var part := Take(n);
        block := block + part;
        left := left - n;
      }
    }
  }
}
