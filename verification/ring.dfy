/**
 The single-producer, single-consumer ring every browser-backed block shares
 with its worker: two position words, one slot kept empty, copies that stop at
 the end of the buffer.
 */
module Ring {
  import opened Arithmetic

  // ---- positions ------------------------------------------------------------

  /** The `used` computation, from the two loaded position words alone. */
  function Used(capacity: nat, readPos: nat, writePos: nat): nat
    requires readPos < capacity && writePos < capacity
  {
    if writePos >= readPos then writePos - readPos else capacity - (readPos - writePos)
  }

  function Advanced(capacity: nat, pos: nat, items: nat): (next: nat)
    requires 0 < capacity
    ensures next < capacity
  {
    (pos + items) % capacity
  }

  function Min(a: nat, b: nat): nat {
    if a <= b then a else b
  }

  lemma AdvancedFits(capacity: nat, total: nat, items: nat)
    requires 0 < capacity
    ensures Advanced(capacity, total % capacity, items) == (total + items) % capacity
  {
    var q := total / capacity;
    ModShift(total % capacity + items, q, capacity);
    assert total % capacity + items + q * capacity == total + items;
  }

  /** Distinct indices less than a lap apart use distinct slots. */
  lemma SlotsDistinct(capacity: nat, a: int, b: int)
    requires 0 < a - b < capacity
    ensures a % capacity != b % capacity
  {
    if a % capacity == b % capacity {
      var q, p := a / capacity, b / capacity;
      assert a - b == (q - p) * capacity && b - a == (p - q) * capacity;
      if q - p >= 1 {
        ScaleUp(q - p, capacity);
      } else if q - p <= -1 {
        ScaleUp(p - q, capacity);
      }
    }
  }

  /** Within one lap-limited copy the slots are consecutive. */
  lemma SlotsConsecutive(capacity: nat, total: nat, j: nat)
    requires 0 < capacity && total % capacity + j < capacity
    ensures (total + j) % capacity == total % capacity + j
  {
    ModUnique(total + j, capacity, total / capacity, total % capacity + j);
  }

  /** The loaded words determine the number of items in flight. */
  lemma UsedIsDifference(capacity: nat, released: nat, published: nat)
    requires released <= published < released + capacity
    ensures Used(capacity, released % capacity, published % capacity) == published - released
  {
    var d := published - released;
    if released % capacity + d < capacity {
      SlotsConsecutive(capacity, released, d);
    } else {
      ModUnique(published, capacity, released / capacity + 1, released % capacity + d - capacity);
    }
  }
}
