/** The doubling loop that the growing buffers share. Sizes have 64 bits and wrap. */
module Growth {
  import opened Bytes

  /** start * 2^k, without wrapping. */
  ghost function Times(start: nat, k: nat): nat {
    if k == 0 then start else 2 * Times(start, k - 1)
  }

  /** The k-th doubling is the first one that is enough, and a 64-bit size can hold it. */
  ghost predicate First(start: nat, needed: nat, k: nat) {
    needed <= Times(start, k) < TWO_TO_THE_64 && (k > 0 ==> Times(start, k - 1) < needed)
  }

  /** The first doubling that is enough, if there is one in 64 bits, and otherwise just what is needed. */
  ghost predicate Grown(start: nat, needed: nat, size: nat) {
    && (forall k: nat :: First(start, needed, k) ==> size == Times(start, k))
    && ((forall k: nat :: !First(start, needed, k)) ==> size == needed)
  }

  lemma {:induction false} TimesGrows(start: nat, j: nat, k: nat)
    requires j <= k
    ensures Times(start, j) <= Times(start, k)
    ensures start == 0 ==> Times(start, k) == 0
    decreases k
  {
    if k > 0 {
      TimesGrows(start, if j < k then j else k - 1, k - 1);
    }
  }

  lemma FirstUnique(start: nat, needed: nat, j: nat, k: nat)
    requires First(start, needed, j) && First(start, needed, k)
    ensures j == k
  {
    if j < k {
      TimesGrows(start, j, k - 1);
    } else if k < j {
      TimesGrows(start, k, j - 1);
    }
  }

  /** When the doubling after the k-th wraps, and the k-th was not enough, no doubling is. */
  lemma NoneIsFirst(start: nat, needed: nat, k: nat)
    requires Times(start, k) < needed && (start == 0 || Times(start, k + 1) >= TWO_TO_THE_64)
    ensures forall j: nat :: !First(start, needed, j)
  {
    forall j: nat ensures !First(start, needed, j) {
      if j <= k {
        TimesGrows(start, j, k);
      } else {
        TimesGrows(start, k + 1, j);
        TimesGrows(start, j, j);
      }
    }
  }

  method Doubled(start: nat, needed: nat) returns (size: nat)
    requires start < TWO_TO_THE_64 && needed < TWO_TO_THE_64
    ensures needed <= size < TWO_TO_THE_64
    ensures Grown(start, needed, size) && (start >= needed ==> size == start)
    ensures size == start || size < 2 * needed
  {
    size := start;
    ghost var k := 0;
    while size < needed
      invariant size == Times(start, k) < TWO_TO_THE_64 && (k > 0 ==> Times(start, k - 1) < needed)
      decreases needed - size
    {
      var tmp := size * 2 % TWO_TO_THE_64;
      if tmp <= size {
        TimesGrows(start, 0, k);
        NoneIsFirst(start, needed, k);
        size := needed;
        return;
      }
      size := tmp;
      k := k + 1;
    }
    assert First(start, needed, k);
    forall j: nat | First(start, needed, j) ensures j == k {
      FirstUnique(start, needed, j, k);
    }
    if start >= needed {
      FirstUnique(start, needed, 0, k);
    }
  }
}
