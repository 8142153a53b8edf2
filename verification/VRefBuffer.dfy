/**
 vrefbuffer: writes are gathered in an iovec array. Short ones are copied to chunks, and those that follow each other
 in a chunk share an entry; long ones are only pointed to.
 */
module VRefBuffer {
  import opened Bytes
  import opened Memory
  import opened Packing

  const PACKER_MAX_BUFFER_SIZE: nat := 9
  const CHUNK_HEADER: nat := 8
  /** 72 / sizeof(iovec). */
  const NFIRST: nat := 4

  datatype IoVec = IoVec(base: nat, len: nat)

  datatype Chunk = Chunk(base: nat, size: nat)

  /** The bytes that an iovec array describes. */
  ghost function Gather(cells: Cells, vec: seq<IoVec>): seq<byte> {
    if vec == [] then []
    else Gather(cells, vec[..|vec| - 1]) + Slice(cells, vec[|vec| - 1].base, vec[|vec| - 1].len)
  }

  /** What the entries point to is allocated, and not in the room that the next copies go to. */
  ghost predicate Settled(cells: Cells, vec: seq<IoVec>, ptr: nat, free: nat) {
    forall i, a | 0 <= i < |vec| && In(a, vec[i].base, vec[i].len) :: a in cells && !In(a, ptr, free)
  }

  /** The allocation of a chunk, its header included. */
  ghost predicate InChunk(a: nat, c: Chunk) {
    In(a, c.base, CHUNK_HEADER + c.size)
  }

  ghost predicate ChunksOk(cells: Cells, chunks: seq<Chunk>, chunkSize: nat) {
    && chunks != []
    && (forall i | 0 <= i < |chunks| :: chunks[i].size >= chunkSize)
    && (forall i, a | 0 <= i < |chunks| && InChunk(a, chunks[i]) :: a in cells)
    && (forall i, j, a | 0 <= i < j < |chunks| && InChunk(a, chunks[i]) :: !InChunk(a, chunks[j]))
  }

  /** The memory that the entries point to is as it was. */
  ghost predicate Kept(cells: Cells, cells': Cells, vec: seq<IoVec>) {
    forall i, a | 0 <= i < |vec| && In(a, vec[i].base, vec[i].len) :: a in cells && a in cells' && cells'[a] == cells[a]
  }

  lemma {:induction false} GatherFrame(cells: Cells, cells': Cells, vec: seq<IoVec>)
    requires Kept(cells, cells', vec)
    ensures Gather(cells', vec) == Gather(cells, vec)
  {
    if vec != [] {
      var last := vec[|vec| - 1];
      GatherFrame(cells, cells', vec[..|vec| - 1]);
      SliceFrame(cells, cells', last.base, last.len);
    }
  }

  lemma GatherSnoc(cells: Cells, vec: seq<IoVec>, v: IoVec)
    ensures Gather(cells, vec + [v]) == Gather(cells, vec) + Slice(cells, v.base, v.len)
  {
    assert (vec + [v])[..|vec|] == vec;
  }

  /** The last entry grows by what follows it in memory. */
  lemma GatherGrow(cells: Cells, vec: seq<IoVec>, len: nat)
    requires vec != []
    ensures var (n, last) := (|vec| - 1, vec[|vec| - 1]);
            Gather(cells, vec[n := IoVec(last.base, last.len + len)]) ==
            Gather(cells, vec) + Slice(cells, last.base + last.len, len)
  {
    var last := vec[|vec| - 1];
    var grown := vec[|vec| - 1 := IoVec(last.base, last.len + len)];
    SliceJoin(cells, last.base, last.len, len);
    assert grown[..|vec| - 1] == vec[..|vec| - 1];
  }

  /** Memory that nobody else has: free to copy to, or not allocated. */
  ghost predicate Spare(cells: Cells, ptr: nat, free: nat, a: nat) {
    a !in cells || In(a, ptr, free)
  }

  /** Only spare memory was written, and the new room is made of it. */
  ghost predicate OnlySpare(cells: Cells, ptr: nat, free: nat, cells': Cells, ptr': nat, free': nat) {
    && (forall a | !Spare(cells, ptr, free, a) :: a in cells' && cells'[a] == cells[a])
    && (forall a | In(a, ptr', free') :: Spare(cells, ptr, free, a))
  }

  lemma OnlySpareOn(cells: Cells, ptr: nat, free: nat, cells1: Cells, ptr1: nat, free1: nat, cells2: Cells, ptr2: nat,
                    free2: nat)
    requires OnlySpare(cells, ptr, free, cells1, ptr1, free1) && OnlySpare(cells1, ptr1, free1, cells2, ptr2, free2)
    ensures OnlySpare(cells, ptr, free, cells2, ptr2, free2)
  {
    forall a | !Spare(cells, ptr, free, a) ensures a in cells2 && cells2[a] == cells[a] {
      assert !Spare(cells1, ptr1, free1, a);
    }
    forall a | In(a, ptr2, free2) ensures Spare(cells, ptr, free, a) {
      assert Spare(cells1, ptr1, free1, a);
    }
  }

  /** What the entries describe survives writes to spare memory. */
  lemma SettledOn(cells: Cells, ptr: nat, free: nat, cells': Cells, ptr': nat, free': nat, vec: seq<IoVec>)
    requires Settled(cells, vec, ptr, free) && OnlySpare(cells, ptr, free, cells', ptr', free')
    ensures Settled(cells', vec, ptr', free') && Gather(cells', vec) == Gather(cells, vec)
  {
    hide Gather;
    forall i, a | 0 <= i < |vec| && In(a, vec[i].base, vec[i].len)
      ensures a in cells && a in cells' && cells'[a] == cells[a] && !In(a, ptr', free')
    {
      assert !Spare(cells, ptr, free, a);
    }
    GatherFrame(cells, cells', vec);
  }

  lemma SettledSnoc(cells: Cells, vec: seq<IoVec>, ptr: nat, free: nat, v: IoVec)
    requires Settled(cells, vec, ptr, free)
    requires forall a | In(a, v.base, v.len) :: a in cells && !In(a, ptr, free)
    ensures Settled(cells, vec + [v], ptr, free)
  {
  }

  lemma SettledGrow(cells: Cells, vec: seq<IoVec>, ptr: nat, free: nat, len: nat)
    requires Settled(cells, vec, ptr, free) && vec != []
    requires var end := vec[|vec| - 1].base + vec[|vec| - 1].len;
             forall a | In(a, end, len) :: a in cells && !In(a, ptr, free)
    ensures var (n, last) := (|vec| - 1, vec[|vec| - 1]);
            Settled(cells, vec[n := IoVec(last.base, last.len + len)], ptr, free)
  {
    var n := |vec| - 1;
    var grown := vec[n := IoVec(vec[n].base, vec[n].len + len)];
    forall i, a | 0 <= i < |grown| && In(a, grown[i].base, grown[i].len) ensures a in cells && !In(a, ptr, free) {
      if i < n {
        assert In(a, vec[i].base, vec[i].len);
      } else {
        assert In(a, vec[n].base, vec[n].len) || In(a, vec[n].base + vec[n].len, len);
      }
    }
  }

  lemma ChunksOn(cells: Cells, cells': Cells, chunks: seq<Chunk>, chunkSize: nat)
    requires ChunksOk(cells, chunks, chunkSize) && forall a | a in cells :: a in cells'
    ensures ChunksOk(cells', chunks, chunkSize)
  {
  }

  lemma ChunksNew(cells: Cells, cells': Cells, chunks: seq<Chunk>, chunkSize: nat, c: Chunk)
    requires ChunksOk(cells, chunks, chunkSize) && c.size >= chunkSize
    requires forall a | a in cells || InChunk(a, c) :: a in cells'
    requires forall a | InChunk(a, c) :: a !in cells
    ensures ChunksOk(cells', [c] + chunks, chunkSize)
  {
  }

  // ---------------------------------------------------------------- what the vrefbuffer holds on to

  /** An entry points to a, or a chunk has it. */
  ghost predicate Touched(vec: seq<IoVec>, chunks: seq<Chunk>, a: nat) {
    || (exists i :: 0 <= i < |vec| && In(a, vec[i].base, vec[i].len))
    || (exists i :: 0 <= i < |chunks| && InChunk(a, chunks[i]))
  }

  /** What is newly held on to was not allocated before. */
  ghost predicate TouchesNew(vec: seq<IoVec>, chunks: seq<Chunk>, cells: Cells, vec': seq<IoVec>, chunks': seq<Chunk>) {
    forall a | Touched(vec', chunks', a) :: Touched(vec, chunks, a) || a !in cells
  }

  lemma TouchedChunk(vec: seq<IoVec>, chunks: seq<Chunk>, cells: Cells, c: Chunk)
    requires forall a | InChunk(a, c) :: a !in cells
    ensures TouchesNew(vec, chunks, cells, vec, [c] + chunks)
  {
    forall a | Touched(vec, [c] + chunks, a) ensures Touched(vec, chunks, a) || a !in cells {
      if i :| 0 <= i < |[c] + chunks| && InChunk(a, ([c] + chunks)[i]) {
        if i > 0 {
          assert InChunk(a, chunks[i - 1]);
        }
      }
    }
  }

  /** Entries that are new or have grown point into the head chunk only. */
  lemma TouchedCopy(vec: seq<IoVec>, chunks: seq<Chunk>, vec': seq<IoVec>, base: nat, len: nat)
    requires chunks != [] && forall a | In(a, base, len) :: InChunk(a, chunks[0])
    requires || vec' == vec + [IoVec(base, len)]
             || (vec != [] && var (n, last) := (|vec| - 1, vec[|vec| - 1]);
                 base == last.base + last.len && vec' == vec[n := IoVec(last.base, last.len + len)])
    ensures forall a | Touched(vec', chunks, a) :: Touched(vec, chunks, a)
  {
    forall a | Touched(vec', chunks, a) ensures Touched(vec, chunks, a) {
      if i :| 0 <= i < |vec'| && In(a, vec'[i].base, vec'[i].len) {
        if In(a, base, len) {
          assert InChunk(a, chunks[0]);
        } else {
          assert In(a, vec[i].base, vec[i].len);
        }
      }
    }
  }

  lemma TouchedAllocated(cells: Cells, vec: seq<IoVec>, ptr: nat, free: nat, chunks: seq<Chunk>, chunkSize: nat)
    requires Settled(cells, vec, ptr, free) && ChunksOk(cells, chunks, chunkSize)
    ensures forall a | Touched(vec, chunks, a) :: a in cells
  {
  }

  /** Memory that is not held on to can go. */
  lemma Freed(cells: Cells, cells': Cells, vec: seq<IoVec>, ptr: nat, free: nat, chunks: seq<Chunk>, chunkSize: nat)
    requires Settled(cells, vec, ptr, free) && ChunksOk(cells, chunks, chunkSize)
    requires forall a | Touched(vec, chunks, a) && a in cells :: a in cells' && cells'[a] == cells[a]
    ensures Settled(cells', vec, ptr, free) && ChunksOk(cells', chunks, chunkSize)
    ensures Gather(cells', vec) == Gather(cells, vec)
  {
    hide Gather;
    forall i, a | 0 <= i < |vec| && In(a, vec[i].base, vec[i].len)
      ensures a in cells && a in cells' && cells'[a] == cells[a] && !In(a, ptr, free)
    {
      assert Touched(vec, chunks, a);
    }
    forall i, a | 0 <= i < |chunks| && InChunk(a, chunks[i]) ensures a in cells' {
      assert Touched(vec, chunks, a);
    }
    GatherFrame(cells, cells', vec);
  }

  lemma KeepHead(cells: Cells, cells': Cells, chunks: seq<Chunk>, chunkSize: nat)
    requires ChunksOk(cells, chunks, chunkSize)
    requires forall a :: a in cells' <==> a in cells && forall j | 1 <= j < |chunks| :: !InChunk(a, chunks[j])
    ensures ChunksOk(cells', chunks[..1], chunkSize)
    ensures forall a | a in cells && !Touched([], chunks, a) :: a in cells'
  {
  }

  class VRefBuffer {
    const space: Space
    const refSize: nat
    const chunkSize: nat
    var vec: array<IoVec>
    var tail: nat
    var free: nat
    var ptr: nat
    var chunks: seq<Chunk>

    ghost function Entries(): seq<IoVec>
      requires tail <= vec.Length
      reads this, vec
    {
      vec[..tail]
    }

    ghost predicate Valid()
      reads this, vec, space
    {
      && refSize > PACKER_MAX_BUFFER_SIZE
      && 0 < vec.Length && tail <= vec.Length
      && space.Valid() && ChunksOk(space.cells, chunks, chunkSize) && chunks != []
      && chunks[0].base + CHUNK_HEADER <= ptr && ptr + free <= chunks[0].base + CHUNK_HEADER + chunks[0].size
      && Settled(space.cells, Entries(), ptr, free)
    }

    ghost function Contents(): seq<byte>
      requires Valid()
      reads this, vec, space
    {
      Gather(space.cells, Entries())
    }

    /** Nothing of the vrefbuffer is at base, which can be read. */
    ghost predicate Foreign(base: nat, len: nat)
      reads this, space
    {
      forall a | In(a, base, len) :: !Spare(space.cells, ptr, free, a)
    }

    constructor (space: Space, refSize: nat, chunkSize: nat)
      requires space.Valid()
      modifies space
      ensures this.space == space && fresh(vec) && Valid() && Contents() == []
      ensures this.chunkSize == chunkSize && this.refSize >= refSize
      ensures OnlySpare(old(space.cells), 0, 0, space.cells, ptr, free)
    {
      this.space, this.chunkSize := space, chunkSize;
      this.refSize := if refSize < PACKER_MAX_BUFFER_SIZE + 1 then PACKER_MAX_BUFFER_SIZE + 1 else refSize;
      vec := new IoVec[NFIRST](_ => IoVec(0, 0));
      tail := 0;
      var c := space.Malloc(CHUNK_HEADER + chunkSize);
      free, ptr, chunks := chunkSize, c + CHUNK_HEADER, [Chunk(c, chunkSize)];
    }

    /** A long write is only pointed to; the array doubles when it is full. */
    method AppendRef(buf: nat, len: nat)
      requires Valid() && Foreign(buf, len)
      modifies this`vec, this`tail, vec
      ensures Valid() && (vec == old(vec) || fresh(vec))
      ensures Entries() == old(Entries()) + [IoVec(buf, len)]
      ensures Contents() == old(Contents()) + Slice(space.cells, buf, len)
    {
      hide ChunksOk, Settled, Gather;
      ghost var was := Entries();
      if tail == vec.Length {
        var nvec := new IoVec[tail * 2](_ => IoVec(0, 0));
        forall i | 0 <= i < tail {
          nvec[i] := vec[i];
        }
        assert nvec[..tail] == was;
        vec := nvec;
      }
      vec[tail] := IoVec(buf, len);
      tail := tail + 1;
      assert Entries() == was + [IoVec(buf, len)];
      GatherSnoc(space.cells, was, IoVec(buf, len));
      SettledSnoc(space.cells, was, ptr, free, IoVec(buf, len));
    }

    /** A chunk of its own for what does not fit the room that is left. */
    method NewChunk(size: nat)
      requires Valid() && size >= chunkSize
      modifies this`free, this`ptr, this`chunks, space
      ensures Valid() && Entries() == old(Entries()) && Contents() == old(Contents()) && free == size
      ensures OnlySpare(old(space.cells), old(ptr), old(free), space.cells, ptr, free)
      ensures TouchesNew(old(Entries()), old(chunks), old(space.cells), Entries(), chunks)
      ensures chunks != [] && chunks == [Chunk(chunks[0].base, size)] + old(chunks)
      ensures ptr == chunks[0].base + CHUNK_HEADER
    {
      hide ChunksOk, Settled, Gather, Touched;
      ghost var cells0 := space.cells;
      var c := space.Malloc(CHUNK_HEADER + size);
      TouchedChunk(Entries(), chunks, cells0, Chunk(c, size));
      ChunksNew(cells0, space.cells, chunks, chunkSize, Chunk(c, size));
      SettledOn(cells0, ptr, free, space.cells, c + CHUNK_HEADER, size, Entries());
      chunks := [Chunk(c, size)] + chunks;
      free, ptr := size, c + CHUNK_HEADER;
    }

    /** memcpy to the room in the chunk. */
    method Copy(buf: nat, len: nat) returns (m: nat)
      requires Valid() && len <= free && Foreign(buf, len)
      modifies this`free, this`ptr, space
      ensures Valid() && Entries() == old(Entries()) && Contents() == old(Contents())
      ensures m == old(ptr) && ptr == m + len && free == old(free) - len && Foreign(m, len)
      ensures Slice(space.cells, m, len) == Slice(old(space.cells), buf, len)
      ensures OnlySpare(old(space.cells), old(ptr), old(free), space.cells, ptr, free)
    {
      hide Settled, Gather;
      ghost var cells0 := space.cells;
      m := ptr;
      var bytes := Slice(space.cells, buf, len);
      RoomIsThere();
      SlicePoke(space.cells, m, bytes);
      SettledOn(cells0, ptr, free, Poke(cells0, m, bytes), ptr + len, free - len, Entries());
      ChunksOn(cells0, Poke(cells0, m, bytes), chunks, chunkSize);
      hide ChunksOk;
      space.Write(m, bytes);
      free := free - len;
      ptr := ptr + len;
    }

    lemma RoomIsThere()
      requires Valid()
      ensures Readable(space.cells, ptr, free)
    {
      forall a | In(a, ptr, free) ensures a in space.cells {
        assert InChunk(a, chunks[0]);
      }
    }

    /** The last entry grows by what was copied behind it. */
    method Join(len: nat)
      requires Valid() && tail != 0 && Foreign(vec[tail - 1].base + vec[tail - 1].len, len)
      modifies vec
      ensures Valid()
      ensures var n := tail - 1; Entries() == old(Entries()[n := IoVec(vec[n].base, vec[n].len + len)])
      ensures Contents() == old(Contents()) + Slice(space.cells, old(vec[tail - 1].base + vec[tail - 1].len), len)
    {
      hide ChunksOk, Settled, Gather;
      ghost var was := Entries();
      GatherGrow(space.cells, was, len);
      SettledGrow(space.cells, was, ptr, free, len);
      vec[tail - 1] := IoVec(vec[tail - 1].base, vec[tail - 1].len + len);
      assert Entries() == was[tail - 1 := IoVec(was[tail - 1].base, was[tail - 1].len + len)];
    }

    /** What was copied to m joins the last entry if it follows it in memory, or gets its own. */
    method AppendCopied(m: nat, len: nat)
      requires Valid() && Foreign(m, len) && forall a | In(a, m, len) :: InChunk(a, chunks[0])
      modifies this`vec, this`tail, vec
      ensures Valid() && (vec == old(vec) || fresh(vec))
      ensures Contents() == old(Contents()) + Slice(space.cells, m, len)
      ensures forall a | Touched(Entries(), chunks, a) :: old(Touched(Entries(), chunks, a))
      ensures Entries() == old(if tail != 0 && m == vec[tail - 1].base + vec[tail - 1].len
                               then Entries()[tail - 1 := IoVec(vec[tail - 1].base, vec[tail - 1].len + len)]
                               else Entries() + [IoVec(m, len)])
    {
      hide ChunksOk, Settled, Gather, Touched, InChunk;
      ghost var was := Entries();
      if tail != 0 && m == vec[tail - 1].base + vec[tail - 1].len {
        Join(len);
      } else {
        AppendRef(m, len);
      }
      TouchedCopy(was, chunks, Entries(), m, len);
    }

    /** A short write is copied, to a chunk of its own only if it does not fit the last one. */
    method AppendCopy(buf: nat, len: nat)
      requires Valid() && Foreign(buf, len)
      modifies this`vec, this`tail, this`free, this`ptr, this`chunks, vec, space
      ensures Valid() && (vec == old(vec) || fresh(vec))
      ensures Contents() == old(Contents()) + Slice(old(space.cells), buf, len)
      ensures OnlySpare(old(space.cells), old(ptr), old(free), space.cells, ptr, free)
      ensures TouchesNew(old(Entries()), old(chunks), old(space.cells), Entries(), chunks)
      ensures if len <= old(free) then chunks == old(chunks) && ptr == old(ptr) + len && free == old(free) - len
              else
                && |chunks| == |old(chunks)| + 1 && chunks[1..] == old(chunks)
                && free == (if chunkSize < len then len else chunkSize) - len
    {
      hide ChunksOk, Settled, Gather, Touched;
      ghost var cells0, ptr0, free0 := space.cells, ptr, free;
      if free < len {
        NewChunk(if chunkSize < len then len else chunkSize);
      }
      SliceFrame(cells0, space.cells, buf, len);
      ghost var cells1, ptr1, free1 := space.cells, ptr, free;
      var m := Copy(buf, len);
      OnlySpareOn(cells0, ptr0, free0, cells1, ptr1, free1, space.cells, ptr, free);
      assert forall a | In(a, m, len) :: InChunk(a, chunks[0]);
      AppendCopied(m, len);
    }

    method Write(buf: nat, len: nat)
      requires Valid() && Foreign(buf, len)
      modifies this`vec, this`tail, this`free, this`ptr, this`chunks, vec, space
      ensures Valid() && (vec == old(vec) || fresh(vec))
      ensures Contents() == old(Contents()) + Slice(old(space.cells), buf, len)
      ensures OnlySpare(old(space.cells), old(ptr), old(free), space.cells, ptr, free)
      ensures len < refSize ==> TouchesNew(old(Entries()), old(chunks), old(space.cells), Entries(), chunks)
      ensures len >= refSize ==> Entries() == old(Entries()) + [IoVec(buf, len)] && space.cells == old(space.cells)
      ensures len < refSize && len <= old(free) ==> chunks == old(chunks) && ptr == old(ptr) + len
    {
      hide ChunksOk, Settled, Gather, Touched;
      if len < refSize {
        AppendCopy(buf, len);
      } else {
        AppendRef(buf, len);
      }
    }

    lemma HasHead()
      requires Valid()
      ensures chunks != [] && forall a | In(a, ptr, free) :: InChunk(a, chunks[0])
    {
    }

    /** Keeps the head chunk, of which it uses no more than the usual size again, and forgets the rest. */
    method Clear()
      requires Valid()
      modifies this`tail, this`free, this`ptr, this`chunks, space
      ensures Valid() && Contents() == [] && vec == old(vec) && chunks == old(chunks)[..1] && free == chunkSize
      ensures forall a | a in old(space.cells) && !old(Touched([], chunks, a)) ::
                a in space.cells && space.cells[a] == old(space.cells)[a]
    {
      hide ChunksOk, Touched;
      var i := 1;
      HasHead();
      while i < |chunks|
        modifies space
        invariant 1 <= i <= |chunks| && space.Valid()
        invariant forall a ::
                    a in space.cells <==> a in old(space.cells) && forall j | 1 <= j < i :: !InChunk(a, chunks[j])
        invariant forall a | a in space.cells :: space.cells[a] == old(space.cells)[a]
      {
        space.Free(chunks[i].base, CHUNK_HEADER + chunks[i].size);
        i := i + 1;
      }
      KeepHead(old(space.cells), space.cells, chunks, chunkSize);
      chunks := chunks[..1];
      free, ptr := chunkSize, chunks[0].base + CHUNK_HEADER;
      tail := 0;
    }

    /** An array of somebody else's, in memory that was not in use. */
    method Stash(bytes: seq<byte>) returns (buf: nat)
      requires Valid()
      modifies space
      ensures Valid() && Contents() == old(Contents()) && Entries() == old(Entries()) && chunks == old(chunks)
      ensures Foreign(buf, |bytes|) && Slice(space.cells, buf, |bytes|) == bytes
      ensures forall a | In(a, buf, |bytes|) :: !Touched(Entries(), chunks, a) && a !in old(space.cells)
      ensures forall a | a in old(space.cells) :: a in space.cells && space.cells[a] == old(space.cells)[a]
      ensures forall a | a in space.cells :: a in old(space.cells) || In(a, buf, |bytes|)
    {
      hide ChunksOk, Settled, Gather, Touched;
      RoomIsThere();
      ghost var cells0 := space.cells;
      TouchedAllocated(cells0, Entries(), ptr, free, chunks, chunkSize);
      buf := space.Malloc(|bytes|);
      SlicePoke(space.cells, buf, bytes);
      space.Write(buf, bytes);
      SettledOn(cells0, ptr, free, space.cells, ptr, free, Entries());
      ChunksOn(cells0, space.cells, chunks, chunkSize);
    }

    /** The array goes away again. */
    method Unstash(buf: nat, len: nat)
      requires Valid() && forall a | In(a, buf, len) :: !Touched(Entries(), chunks, a)
      modifies space
      ensures Valid() && Contents() == old(Contents())
      ensures forall a :: a in space.cells <==> a in old(space.cells) && !In(a, buf, len)
      ensures forall a | a in space.cells :: space.cells[a] == old(space.cells)[a]
    {
      hide ChunksOk, Settled, Gather, Touched;
      ghost var cells0 := space.cells;
      space.Free(buf, len);
      Freed(cells0, space.cells, Entries(), ptr, free, chunks, chunkSize);
    }

    /** A packer's local array lives in the same memory, and is gone when the packer returns. */
    method WriteLocal(bytes: seq<byte>)
      requires Valid() && |bytes| <= PACKER_MAX_BUFFER_SIZE
      modifies this`vec, this`tail, this`free, this`ptr, this`chunks, vec, space
      ensures Valid() && (vec == old(vec) || fresh(vec))
      ensures Contents() == old(Contents()) + bytes
      ensures OnlySpare(old(space.cells), old(ptr), old(free), space.cells, ptr, free)
    {
      hide ChunksOk, Settled, Gather, Touched;
      ghost var cells0, ptr0, free0 := space.cells, ptr, free;
      var buf := Stash(bytes);
      ghost var cells1 := space.cells;
      Write(buf, |bytes|);
      ghost var cells2 := space.cells;
      Unstash(buf, |bytes|);
      OnlySpareLocal(cells0, cells1, cells2, space.cells, ptr0, free0, ptr, free, buf, |bytes|);
    }

    /**
     A packer's writes, in order. Every body is at its place in at, in memory that the caller keeps; the local arrays
     are gone, and the contents are still all that was written.
     */
    method WriteAll(ws: seq<Write>, at: seq<nat>)
      requires Valid() && SmallLocals(ws) && |at| == |ws|
      requires Bodies(space.cells, ptr, free, ws, at, 0)
      modifies this`vec, this`tail, this`free, this`ptr, this`chunks, vec, space
      ensures Valid() && (vec == old(vec) || fresh(vec))
      ensures Contents() == old(Contents()) + Concat(ws)
    {
      hide Concat, ChunksOk, Settled, Gather, OnlySpare, Bodies;
      var i := 0;
      ConcatNext(ws, 0);
      while i < |ws|
        invariant i <= |ws| && Valid() && (vec == old(vec) || fresh(vec))
        invariant Contents() == old(Contents()) + Concat(ws[..i])
        invariant Bodies(space.cells, ptr, free, ws, at, i)
      {
        ghost var cells0, ptr0, free0 := space.cells, ptr, free;
        ConcatNext(ws, i);
        Appended(old(Contents()), Concat(ws[..i]), ws[i].bytes);
        if ws[i].Local? {
          WriteLocal(ws[i].bytes);
        } else {
          BodyAt(cells0, ptr0, free0, ws, at, i);
          Write(at[i], |ws[i].bytes|);
        }
        BodiesOn(cells0, ptr0, free0, space.cells, ptr, free, ws, at, i);
        i := i + 1;
      }
      assert ws[..i] == ws;
    }
  }

  /** The bodies from the i-th write on are where at says, and not in memory of the vrefbuffer. */
  ghost predicate Bodies(cells: Cells, ptr: nat, free: nat, ws: seq<Write>, at: seq<nat>, i: nat)
    requires |at| == |ws|
  {
    forall j | i <= j < |ws| && ws[j].Body? ::
      && (forall a | In(a, at[j], |ws[j].bytes|) :: !Spare(cells, ptr, free, a))
      && Slice(cells, at[j], |ws[j].bytes|) == ws[j].bytes
  }

  lemma BodyAt(cells: Cells, ptr: nat, free: nat, ws: seq<Write>, at: seq<nat>, i: nat)
    requires |at| == |ws| && Bodies(cells, ptr, free, ws, at, i) && i < |ws| && ws[i].Body?
    ensures forall a | In(a, at[i], |ws[i].bytes|) :: !Spare(cells, ptr, free, a)
    ensures Slice(cells, at[i], |ws[i].bytes|) == ws[i].bytes
  {
  }

  lemma BodiesOn(cells: Cells, ptr: nat, free: nat, cells': Cells, ptr': nat, free': nat, ws: seq<Write>, at: seq<nat>,
                 i: nat)
    requires |at| == |ws| && Bodies(cells, ptr, free, ws, at, i) && OnlySpare(cells, ptr, free, cells', ptr', free')
    ensures Bodies(cells', ptr', free', ws, at, i + 1)
  {
    forall j | i + 1 <= j < |ws| && ws[j].Body?
      ensures (forall a | In(a, at[j], |ws[j].bytes|) :: !Spare(cells', ptr', free', a))
      ensures Slice(cells', at[j], |ws[j].bytes|) == ws[j].bytes
    {
      SliceFrame(cells, cells', at[j], |ws[j].bytes|);
    }
  }

  lemma OnlySpareLocal(cells0: Cells, cells1: Cells, cells2: Cells, cells3: Cells, ptr: nat, free: nat, ptr': nat,
                       free': nat, buf: nat, len: nat)
    requires forall a | In(a, buf, len) :: a !in cells0
    requires forall a | a in cells0 :: a in cells1 && cells1[a] == cells0[a]
    requires OnlySpare(cells1, ptr, free, cells2, ptr', free')
    requires forall a :: a in cells3 <==> a in cells2 && !In(a, buf, len)
    requires forall a | a in cells3 :: cells3[a] == cells2[a]
    ensures OnlySpare(cells0, ptr, free, cells3, ptr', free')
  {
    forall a | !Spare(cells0, ptr, free, a) ensures a in cells3 && cells3[a] == cells0[a] {
      assert !Spare(cells1, ptr, free, a);
    }
    forall a | In(a, ptr', free') ensures Spare(cells0, ptr, free, a) {
      assert Spare(cells1, ptr, free, a);
    }
  }
}
