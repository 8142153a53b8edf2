/** A flat memory of bytes: what is allocated is what has a cell. */
module Memory {
  import opened Bytes

  type Cells = map<nat, byte>

  predicate In(a: nat, base: nat, len: nat) {
    base <= a < base + len
  }

  ghost predicate Readable(cells: Cells, base: nat, len: nat) {
    forall a | In(a, base, len) :: a in cells
  }

  /** The len bytes at base. */
  function Slice(cells: Cells, base: nat, len: nat): (s: seq<byte>)
    ensures |s| == len && forall i | 0 <= i < len && base + i in cells :: s[i] == cells[base + i]
  {
    seq(len, i requires 0 <= i < len => if base + i in cells then cells[base + i] else 0)
  }

  function Poke(cells: Cells, at: nat, bytes: seq<byte>): Cells {
    map a | a in cells :: if In(a, at, |bytes|) then bytes[a - at] else cells[a]
  }

  lemma SliceFrame(cells: Cells, cells': Cells, base: nat, len: nat)
    requires forall a | In(a, base, len) :: a in cells && a in cells' && cells'[a] == cells[a]
    ensures Slice(cells', base, len) == Slice(cells, base, len)
  {
    forall i | 0 <= i < len ensures Slice(cells', base, len)[i] == Slice(cells, base, len)[i] {
      assert In(base + i, base, len);
    }
  }

  lemma SlicePoke(cells: Cells, at: nat, bytes: seq<byte>)
    requires Readable(cells, at, |bytes|)
    ensures Slice(Poke(cells, at, bytes), at, |bytes|) == bytes
  {
    forall i | 0 <= i < |bytes| ensures Slice(Poke(cells, at, bytes), at, |bytes|)[i] == bytes[i] {
      assert In(at + i, at, |bytes|);
    }
  }

  lemma SliceJoin(cells: Cells, base: nat, n: nat, len: nat)
    ensures Slice(cells, base, n + len) == Slice(cells, base, n) + Slice(cells, base + n, len)
  {
  }

  class Space {
    var cells: Cells
    var top: nat

    ghost predicate Valid()
      reads this
    {
      forall a | a in cells :: a < top
    }

    constructor ()
      ensures Valid() && cells == map[]
    {
      cells, top := map[], 0;
    }

    /** Some addresses that were not in use; where they are is the allocator's business. */
    method Malloc(n: nat) returns (p: nat)
      requires Valid()
      modifies this
      ensures Valid() && Readable(cells, p, n)
      ensures forall a | In(a, p, n) :: a !in old(cells)
      ensures forall a | a in old(cells) :: a in cells && cells[a] == old(cells)[a]
      ensures forall a | a in cells :: a in old(cells) || In(a, p, n)
    {
      p := top;
      cells := cells + map a | p <= a < p + n && In(a, p, n) :: 0;
      top := top + n;
    }

    method Free(p: nat, n: nat)
      requires Valid()
      modifies this`cells
      ensures Valid()
      ensures forall a :: a in cells <==> a in old(cells) && !In(a, p, n)
      ensures forall a | a in cells :: cells[a] == old(cells)[a]
    {
      cells := map a | a in cells && !In(a, p, n) :: cells[a];
    }

    method Write(at: nat, bytes: seq<byte>)
      requires Valid() && Readable(cells, at, |bytes|)
      modifies this`cells
      ensures Valid() && cells == Poke(old(cells), at, bytes)
    {
      cells := Poke(cells, at, bytes);
    }
  }
}
