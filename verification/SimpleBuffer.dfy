/**
 sbuffer: one growing allocation. Sizes are 64-bit and wrap, so doubling the allocation can come out smaller;
 an allocation that fails is not part of this model.
 */
module SimpleBuffer {
  import opened Bytes
  import opened Growth
  import opened Packing

  const INIT_SIZE: nat := 8192

  method Memcpy(to: array<byte>, at: nat, buf: seq<byte>)
    requires at + |buf| <= to.Length
    modifies to
    ensures to[..at] == old(to[..at]) && to[at..at + |buf|] == buf
    ensures to[..at + |buf|] == old(to[..at]) + buf
  {
    forall i | 0 <= i < |buf| {
      to[at + i] := buf[i];
    }
    assert forall i | 0 <= i < |buf| :: to[at + i] == buf[i];
    assert forall i | at <= i < at + |buf| :: to[i] == buf[i - at];
  }

  /** m_data is null exactly when nothing is allocated, which is an empty array here. */
  class SBuffer {
    var data: array<byte>
    var size: nat
    var alloc: nat

    ghost predicate Valid()
      reads this
    {
      size <= alloc == data.Length < TWO_TO_THE_64
    }

    ghost function Contents(): seq<byte>
      requires Valid()
      reads this, data
    {
      data[..size]
    }

    constructor (initsz: nat := INIT_SIZE)
      requires initsz < TWO_TO_THE_64
      ensures Valid() && fresh(data) && Contents() == [] && alloc == initsz
    {
      size, alloc := 0, initsz;
      data := new byte[initsz](_ => 0);
    }

    method Write(buf: seq<byte>)
      requires Valid() && size + |buf| < TWO_TO_THE_64
      modifies this, data
      ensures Valid() && (data == old(data) || fresh(data)) && alloc >= old(alloc)
      ensures Contents() == old(Contents()) + buf
      ensures |buf| <= old(alloc) - old(size) ==> data == old(data) && alloc == old(alloc)
    {
      if alloc - size < |buf| {
        ExpandBuffer(|buf|);
      }
      Memcpy(data, size, buf);
      size := size + |buf|;
    }

    /** The allocation becomes at least what is asked for, and larger than it was, whether or not doubling wraps. */
    method ExpandBuffer(len: nat)
      requires Valid() && size + len < TWO_TO_THE_64 && alloc - size < len
      modifies this`data, this`alloc
      ensures Valid() && fresh(data) && Contents() == old(Contents())
      ensures alloc >= size + len && alloc > old(alloc)
      ensures Grown(if old(alloc) > 0 then old(alloc) * 2 % TWO_TO_THE_64 else INIT_SIZE, size + len, alloc)
    {
      hide Grown;
      var nsize := Doubled(if alloc > 0 then alloc * 2 % TWO_TO_THE_64 else INIT_SIZE, size + len);
      var tmp := new byte[nsize](_ => 0);
      Memcpy(tmp, 0, data[..]);
      assert tmp[..size] == tmp[..alloc][..size] == data[..size];
      data := tmp;
      alloc := nsize;
    }

    /** Gives the allocation away and starts on nothing. */
    method Release() returns (buf: array<byte>, ghost written: nat)
      requires Valid()
      modifies this
      ensures Valid() && Contents() == [] && alloc == 0 && fresh(data)
      ensures buf == old(data) && written == old(size) && buf[..written] == old(Contents())
    {
      buf, written := data, size;
      data := new byte[0];
      size, alloc := 0, 0;
    }

    method Clear()
      requires Valid()
      modifies this`size
      ensures Valid() && Contents() == [] && data == old(data)
    {
      size := 0;
    }

    /** A packer's writes, in order. */
    method WriteAll(ws: seq<Write>)
      requires Valid() && size + |Concat(ws)| < TWO_TO_THE_64
      modifies this, data
      ensures Valid() && (data == old(data) || fresh(data))
      ensures Contents() == old(Contents()) + Concat(ws)
    {
      hide Concat;
      var i := 0;
      ConcatNext(ws, 0);
      while i < |ws|
        invariant i <= |ws| && Valid() && (data == old(data) || fresh(data))
        invariant Contents() == old(Contents()) + Concat(ws[..i])
      {
        ConcatNext(ws, i);
        Appended(old(Contents()), Concat(ws[..i]), ws[i].bytes);
        Write(ws[i].bytes);
        i := i + 1;
      }
      assert ws[..i] == ws;
    }
  }
}
