/**
 The packer. Its stream is any sink with a write, so it is modelled by the writes it makes: those from a local array
 of a pack function, which is gone when the function returns, and those straight from the packed object.
 */
module Packing {
  import opened Bytes
  import opened Format
  import opened Encoding
  import opened Arena
  import opened Wire

  datatype Write = Local(bytes: seq<byte>) | Body(bytes: seq<byte>)

  ghost function Concat(ws: seq<Write>): seq<byte> {
    if ws == [] then [] else Concat(ws[..|ws| - 1]) + ws[|ws| - 1].bytes
  }

  /** No local array is longer than the largest number with its header. */
  ghost predicate SmallLocals(ws: seq<Write>) {
    forall i | 0 <= i < |ws| :: ws[i].Local? ==> |ws[i].bytes| <= 9
  }

  lemma ConcatOne(ws: seq<Write>, w: Write)
    ensures Concat(ws + [w]) == Concat(ws) + w.bytes
    ensures SmallLocals(ws) && (w.Local? ==> |w.bytes| <= 9) ==> SmallLocals(ws + [w])
  {
    assert (ws + [w])[..|ws|] == ws;
  }

  lemma Appended(a: seq<byte>, b: seq<byte>, c: seq<byte>)
    ensures (a + b) + c == a + (b + c)
  {}

  lemma {:induction false} ConcatNext(ws: seq<Write>, i: nat)
    requires i <= |ws|
    decreases |ws| - i
    ensures Concat(ws[..0]) == []
    ensures |Concat(ws[..i])| <= |Concat(ws)|
    ensures i < |ws| ==> Concat(ws[..i + 1]) == Concat(ws[..i]) + ws[i].bytes && |Concat(ws[..i + 1])| <= |Concat(ws)|
  {
    if i == |ws| {
      assert ws[..i] == ws;
    } else {
      assert ws[..i + 1] == ws[..i] + [ws[i]];
      ConcatOne(ws[..i], ws[i]);
      ConcatNext(ws, i + 1);
    }
  }

  lemma {:induction false} EncodeAllSnoc(vs: seq<Value>, v: Value)
    requires AllWellFormed(vs) && WellFormed(v)
    ensures AllWellFormed(vs + [v]) && EncodeAll(vs + [v]) == EncodeAll(vs) + Encode(v)
  {
    if vs == [] {
      assert vs + [v] == [v];
      assert Encode(v) + [] == [] + Encode(v);
    } else {
      EncodeAllSnoc(vs[1..], v);
      assert (vs + [v])[1..] == vs[1..] + [v];
      assert (vs + [v])[0] == vs[0];
    }
  }

  lemma {:induction false} AllWellFormedAt(vs: seq<Value>, i: nat)
    requires AllWellFormed(vs) && i < |vs|
    ensures WellFormed(vs[i]) && AllWellFormed(vs[..i])
  {
    if i > 0 {
      AllWellFormedAt(vs[1..], i - 1);
      assert vs[..i][1..] == vs[1..][..i - 1];
    }
  }

  class Packer {
    var stream: seq<Write>

    constructor ()
      ensures stream == []
    {
      stream := [];
    }

    method AppendBuffer(w: Write)
      modifies this
      ensures stream == old(stream) + [w]
    {
      stream := stream + [w];
    }

    method PackUint8(d: nat)
      requires d < 0x100
      modifies this
      ensures stream == old(stream) + [Local(EncodeInt(d))]
    {
      if d < 0x80 {
        AppendBuffer(Local([d]));
      } else {
        ByteStore(0xcc, d);
        AppendBuffer(Local([0xcc, d]));
      }
    }

    method PackUint16(d: nat)
      requires d < 0x1_0000
      modifies this
      ensures stream == old(stream) + [Local(EncodeInt(d))]
      ensures 0x100 <= d ==> stream == old(stream) + [Local([0xcd, d / 0x100, d % 0x100])]
    {
      hide Store, Big4, Big8;
      WritesInteger(d);
      Pow256Widths();
      if d < 0x80 {
        AppendBuffer(Local([d]));
      } else if d < 0x100 {
        ByteStore(0xcc, d);
        AppendBuffer(Local([0xcc, d]));
      } else {
        AppendBuffer(Local([0xcd] + Store(d, 2)));
      }
    }

    method PackUint32(d: nat)
      requires d < TWO_TO_THE_32
      modifies this
      ensures stream == old(stream) + [Local(EncodeInt(d))]
      ensures 0x100 <= d < 0x1_0000 ==> stream == old(stream) + [Local([0xcd, d / 0x100, d % 0x100])]
      ensures 0x1_0000 <= d ==> stream == old(stream) + [Local([0xce] + Big4(d))]
    {
      hide Store, Big4, Big8;
      WritesInteger(d);
      Pow256Widths();
      if d < 0x100 {
        if d < 0x80 {
          AppendBuffer(Local([d]));
        } else {
          ByteStore(0xcc, d);
          AppendBuffer(Local([0xcc, d]));
        }
      } else {
        if d < 0x1_0000 {
          AppendBuffer(Local([0xcd] + Store(d, 2)));
        } else {
          AppendBuffer(Local([0xce] + Store(d, 4)));
        }
      }
    }

    method PackUint64(d: nat)
      requires d < TWO_TO_THE_64
      modifies this
      ensures stream == old(stream) + [Local(EncodeInt(d))]
      ensures 0x100 <= d < 0x1_0000 ==> stream == old(stream) + [Local([0xcd, d / 0x100, d % 0x100])]
      ensures 0x1_0000 <= d < TWO_TO_THE_32 ==> stream == old(stream) + [Local([0xce] + Big4(d))]
      ensures TWO_TO_THE_32 <= d ==> stream == old(stream) + [Local([0xcf] + Big8(d))]
    {
      hide Store, Big4, Big8;
      WritesInteger(d);
      Pow256Widths();
      if d < 0x100 {
        if d < 0x80 {
          AppendBuffer(Local([d]));
        } else {
          ByteStore(0xcc, d);
          AppendBuffer(Local([0xcc, d]));
        }
      } else {
        if d < 0x1_0000 {
          AppendBuffer(Local([0xcd] + Store(d, 2)));
        } else if d < TWO_TO_THE_32 {
          AppendBuffer(Local([0xce] + Store(d, 4)));
        } else {
          AppendBuffer(Local([0xcf] + Store(d, 8)));
        }
      }
    }

    method PackInt8(d: int)
      requires -0x80 <= d < 0x80
      modifies this
      ensures stream == old(stream) + [Local(EncodeInt(d))]
    {
      Pow256Widths();
      if d < -0x20 {
        ByteStore(0xd0, d + 256);
        AppendBuffer(Local([0xd0, d + 256]));
      } else {
        AppendBuffer(Local([if d < 0 then d + 256 else d]));
      }
    }

    method PackInt16(d: int)
      requires -0x8000 <= d < 0x8000
      modifies this
      ensures stream == old(stream) + [Local(EncodeInt(d))]
      ensures 0x100 <= d ==> stream == old(stream) + [Local([0xcd, d / 0x100, d % 0x100])]
      ensures d < -0x80 ==> stream == old(stream) + [Local([0xd1, (0x1_0000 + d) / 0x100, (0x1_0000 + d) % 0x100])]
    {
      hide Store, Big4, Big8;
      WritesInteger(d);
      Pow256Widths();
      if d < -0x20 {
        if d < -0x80 {
          AppendBuffer(Local([0xd1] + Store(d + 0x1_0000, 2)));
        } else {
          ByteStore(0xd0, d + 256);
          AppendBuffer(Local([0xd0, d + 256]));
        }
      } else if d < 0x80 {
        AppendBuffer(Local([if d < 0 then d + 256 else d]));
      } else {
        if d < 0x100 {
          ByteStore(0xcc, d);
          AppendBuffer(Local([0xcc, d]));
        } else {
          AppendBuffer(Local([0xcd] + Store(d, 2)));
        }
      }
    }

    method PackInt32(d: int)
      requires -0x8000_0000 <= d < 0x8000_0000
      modifies this
      ensures stream == old(stream) + [Local(EncodeInt(d))]
      ensures 0x100 <= d < 0x1_0000 ==> stream == old(stream) + [Local([0xcd, d / 0x100, d % 0x100])]
      ensures 0x1_0000 <= d ==> stream == old(stream) + [Local([0xce] + Big4(d))]
      ensures -0x8000 <= d < -0x80 ==>
                stream == old(stream) + [Local([0xd1, (0x1_0000 + d) / 0x100, (0x1_0000 + d) % 0x100])]
      ensures d < -0x8000 ==> stream == old(stream) + [Local([0xd2] + Big4(TWO_TO_THE_32 + d))]
    {
      hide Store, Big4, Big8;
      WritesInteger(d);
      Pow256Widths();
      if d < -0x20 {
        if d < -0x8000 {
          AppendBuffer(Local([0xd2] + Store(d + TWO_TO_THE_32, 4)));
        } else if d < -0x80 {
          AppendBuffer(Local([0xd1] + Store(d + 0x1_0000, 2)));
        } else {
          ByteStore(0xd0, d + 256);
          AppendBuffer(Local([0xd0, d + 256]));
        }
      } else if d < 0x80 {
        AppendBuffer(Local([if d < 0 then d + 256 else d]));
      } else {
        if d < 0x100 {
          ByteStore(0xcc, d);
          AppendBuffer(Local([0xcc, d]));
        } else if d < 0x1_0000 {
          AppendBuffer(Local([0xcd] + Store(d, 2)));
        } else {
          AppendBuffer(Local([0xce] + Store(d, 4)));
        }
      }
    }

    method PackInt64(d: int)
      requires -(TWO_TO_THE_63 as int) <= d < TWO_TO_THE_63
      modifies this
      ensures stream == old(stream) + [Local(EncodeInt(d))]
      ensures 0x100 <= d < 0x1_0000 ==> stream == old(stream) + [Local([0xcd, d / 0x100, d % 0x100])]
      ensures 0x1_0000 <= d < TWO_TO_THE_32 ==> stream == old(stream) + [Local([0xce] + Big4(d))]
      ensures TWO_TO_THE_32 <= d ==> stream == old(stream) + [Local([0xcf] + Big8(d))]
      ensures -0x8000 <= d < -0x80 ==>
                stream == old(stream) + [Local([0xd1, (0x1_0000 + d) / 0x100, (0x1_0000 + d) % 0x100])]
      ensures -0x8000_0000 <= d < -0x8000 ==> stream == old(stream) + [Local([0xd2] + Big4(TWO_TO_THE_32 + d))]
      ensures d < -0x8000_0000 ==> stream == old(stream) + [Local([0xd3] + Big8(TWO_TO_THE_64 + d))]
    {
      hide Store, Big4, Big8;
      WritesInteger(d);
      Pow256Widths();
      if d < -0x20 {
        if d < -0x8000 {
          if d < -0x8000_0000 {
            AppendBuffer(Local([0xd3] + Store(d + TWO_TO_THE_64, 8)));
          } else {
            AppendBuffer(Local([0xd2] + Store(d + TWO_TO_THE_32, 4)));
          }
        } else {
          if d < -0x80 {
            AppendBuffer(Local([0xd1] + Store(d + 0x1_0000, 2)));
          } else {
            ByteStore(0xd0, d + 256);
            AppendBuffer(Local([0xd0, d + 256]));
          }
        }
      } else if d < 0x80 {
        AppendBuffer(Local([if d < 0 then d + 256 else d]));
      } else {
        if d < 0x1_0000 {
          if d < 0x100 {
            ByteStore(0xcc, d);
            AppendBuffer(Local([0xcc, d]));
          } else {
            AppendBuffer(Local([0xcd] + Store(d, 2)));
          }
        } else {
          if d < TWO_TO_THE_32 {
            AppendBuffer(Local([0xce] + Store(d, 4)));
          } else {
            AppendBuffer(Local([0xcf] + Store(d, 8)));
          }
        }
      }
    }

    /** pack_nil, pack_true and pack_false. */
    method PackCode(code: byte)
      modifies this
      ensures stream == old(stream) + [Local([code])]
    {
      AppendBuffer(Local([code]));
    }

    method PackFloat(bits: nat)
      requires bits < TWO_TO_THE_32
      modifies this
      ensures stream == old(stream) + [Local(Encode(F32(bits)))]
      ensures stream == old(stream) + [Local([0xca] + Big4(bits))]
    {
      hide Store, Big4, Big8;
      WritesFloat(bits);
      Pow256Widths();
      AppendBuffer(Local([0xca] + Store(bits, 4)));
    }

    method PackDouble(bits: nat)
      requires bits < TWO_TO_THE_64
      modifies this
      ensures stream == old(stream) + [Local(Encode(F64(bits)))]
      ensures stream == old(stream) + [Local([0xcb] + Big8(bits))]
    {
      hide Store, Big4, Big8;
      WritesFloat(bits);
      Pow256Widths();
      AppendBuffer(Local([0xcb] + Store(bits, 8)));
    }

    method PackArray(n: nat)
      requires n < TWO_TO_THE_32
      modifies this
      ensures stream == old(stream) + [Local(ContHeader(false, n))]
      ensures 16 <= n < 0x1_0000 ==> stream == old(stream) + [Local([0xdc, n / 0x100, n % 0x100])]
      ensures 0x1_0000 <= n ==> stream == old(stream) + [Local([0xdd] + Big4(n))]
    {
      hide Store, Big4, Big8;
      WritesContHeader(n);
      Pow256Widths();
      if n < 16 {
        AppendBuffer(Local([0x90 + n]));
      } else if n < 0x1_0000 {
        AppendBuffer(Local([0xdc] + Store(n, 2)));
      } else {
        AppendBuffer(Local([0xdd] + Store(n, 4)));
      }
    }

    method PackMap(n: nat)
      requires n < TWO_TO_THE_32
      modifies this
      ensures stream == old(stream) + [Local(ContHeader(true, n))]
      ensures 16 <= n < 0x1_0000 ==> stream == old(stream) + [Local([0xde, n / 0x100, n % 0x100])]
      ensures 0x1_0000 <= n ==> stream == old(stream) + [Local([0xdf] + Big4(n))]
    {
      hide Store, Big4, Big8;
      WritesContHeader(n);
      Pow256Widths();
      if n < 16 {
        AppendBuffer(Local([0x80 + n]));
      } else if n < 0x1_0000 {
        AppendBuffer(Local([0xde] + Store(n, 2)));
      } else {
        AppendBuffer(Local([0xdf] + Store(n, 4)));
      }
    }

    method PackStr(l: nat)
      requires l < TWO_TO_THE_32
      modifies this
      ensures stream == old(stream) + [Local(StrHeader(l))]
      ensures 0x100 <= l < 0x1_0000 ==> stream == old(stream) + [Local([0xda, l / 0x100, l % 0x100])]
      ensures 0x1_0000 <= l ==> stream == old(stream) + [Local([0xdb] + Big4(l))]
    {
      hide Store, Big4, Big8;
      WritesBodyHeader(l);
      Pow256Widths();
      if l < 32 {
        AppendBuffer(Local([0xa0 + l]));
      } else if l < 0x100 {
        ByteStore(0xd9, l);
        AppendBuffer(Local([0xd9, l]));
      } else if l < 0x1_0000 {
        AppendBuffer(Local([0xda] + Store(l, 2)));
      } else {
        AppendBuffer(Local([0xdb] + Store(l, 4)));
      }
    }

    method PackBin(l: nat)
      requires l < TWO_TO_THE_32
      modifies this
      ensures stream == old(stream) + [Local(BinHeader(l))]
      ensures 0x100 <= l < 0x1_0000 ==> stream == old(stream) + [Local([0xc5, l / 0x100, l % 0x100])]
      ensures 0x1_0000 <= l ==> stream == old(stream) + [Local([0xc6] + Big4(l))]
    {
      hide Store, Big4, Big8;
      WritesBodyHeader(l);
      Pow256Widths();
      if l < 0x100 {
        ByteStore(0xc4, l);
        AppendBuffer(Local([0xc4, l]));
      } else if l < 0x1_0000 {
        AppendBuffer(Local([0xc5] + Store(l, 2)));
      } else {
        AppendBuffer(Local([0xc6] + Store(l, 4)));
      }
    }

    /** The ext header with the type byte in the same local array. */
    method PackExt(l: nat, kind: byte)
      requires l < TWO_TO_THE_32
      modifies this
      ensures stream == old(stream) + [Local(ExtHeader(l) + [kind])]
      ensures 0x100 <= l < 0x1_0000 ==> stream == old(stream) + [Local([0xc8, l / 0x100, l % 0x100, kind])]
      ensures 0x1_0000 <= l ==> stream == old(stream) + [Local([0xc9] + Big4(l) + [kind])]
    {
      hide Store, Big4, Big8;
      WritesBodyHeader(l);
      Pow256Widths();
      assert forall b: byte :: [b, kind] == [b] + [kind];
      match l
      case 1 => AppendBuffer(Local([0xd4, kind]));
      case 2 => AppendBuffer(Local([0xd5, kind]));
      case 4 => AppendBuffer(Local([0xd6, kind]));
      case 8 => AppendBuffer(Local([0xd7, kind]));
      case 16 => AppendBuffer(Local([0xd8, kind]));
      case _ =>
        if l < 0x100 {
          ByteStore(0xc7, l);
          AppendBuffer(Local([0xc7, l, kind]));
          assert [0xc7, l] + [kind] == [0xc7, l, kind];
        } else if l < 0x1_0000 {
          AppendBuffer(Local([0xc8] + Store(l, 2) + [kind]));
          assert [0xc8, l / 0x100, l % 0x100] + [kind] == [0xc8, l / 0x100, l % 0x100, kind];
        } else {
          AppendBuffer(Local([0xc9] + Store(l, 4) + [kind]));
        }
    }

    /** pack_str_body, pack_bin_body and pack_ext_body. */
    method PackBody(b: seq<byte>)
      modifies this
      ensures stream == old(stream) + [Body(b)]
    {
      AppendBuffer(Body(b));
    }

    /** Appends the bytes to what was written so far. */
    ghost predicate Wrote(before: seq<Write>, bytes: seq<byte>)
      reads this
    {
      Concat(stream) == Concat(before) + bytes && SmallLocals(stream)
    }

    /** pack<object>: walks the object through its pointers and writes the value it holds. */
    method PackObject(z: Zone, o: Obj, ghost v: Value, ghost lo: nat, ghost hi: nat)
      requires WellFormed(v) && Holds(z, o, v, lo, hi) && SmallLocals(stream)
      modifies this
      ensures Wrote(old(stream), Encode(v))
      decreases v, 2
    {
      hide SmallLocals, EncodeInt, Concat;
      ghost var before := stream;
      match o
      case ONil =>
        PackCode(0xc0);
        ConcatOne(before, Local([0xc0]));
      case OBool(b) =>
        if b {
          PackCode(0xc3);
          ConcatOne(before, Local([0xc3]));
        } else {
          PackCode(0xc2);
          ConcatOne(before, Local([0xc2]));
        }
      case OPos(n) =>
        PackUint64(n);
        ConcatOne(before, Local(EncodeInt(n)));
      case ONeg(i) =>
        PackInt64(i);
        ConcatOne(before, Local(EncodeInt(i)));
      case OF32(bits) =>
        PackFloat(bits);
        ConcatOne(before, Local(Encode(v)));
      case OF64(bits) =>
        PackDouble(bits);
        ConcatOne(before, Local(Encode(v)));
      case OBlob(kind, size, loc, bytes) =>
        PackBlob(kind, size, bytes, v);
      case OCont(isMap, size, blk) =>
        if isMap {
          PackMapObject(z, size, blk, v, lo, hi);
        } else {
          PackArrayObject(z, size, blk, v, lo, hi);
        }
    }

    method PackBlob(kind: Kind, size: nat, bytes: seq<byte>, ghost v: Value)
      requires WellFormed(v) && v == Blob(kind, bytes) && size == SizeField(kind, |bytes|) && SmallLocals(stream)
      modifies this
      ensures Wrote(old(stream), Encode(v))
    {
      hide SmallLocals, Concat, StrHeader, BinHeader, ExtHeader;
      ghost var before := stream;
      match kind
      case StrK =>
        PackStr(size);
        ConcatOne(before, Local(StrHeader(size)));
        ghost var mid := stream;
        PackBody(bytes);
        ConcatOne(mid, Body(bytes));
      case BinK =>
        PackBin(size);
        ConcatOne(before, Local(BinHeader(size)));
        ghost var mid := stream;
        PackBody(bytes);
        ConcatOne(mid, Body(bytes));
      case ExtK =>
        PackExt(size, bytes[0]);
        ConcatOne(before, Local(ExtHeader(size) + [bytes[0]]));
        ghost var mid := stream;
        PackBody(bytes[1..]);
        ConcatOne(mid, Body(bytes[1..]));
        assert bytes == [bytes[0]] + bytes[1..];
    }

    method PackArrayObject(z: Zone, size: nat, blk: nat, ghost v: Value, ghost lo: nat, ghost hi: nat)
      requires WellFormed(v) && v.Cont? && !v.isMap && Holds(z, OCont(false, size, blk), v, lo, hi)
      requires SmallLocals(stream)
      modifies this
      ensures Wrote(old(stream), Encode(v))
      decreases v, 1
    {
      hide SmallLocals, Concat, ContHeader, Holds;
      ghost var before, items := stream, v.items;
      ContOpen(z, OCont(false, size, blk), v, lo, hi);
      PackArray(size);
      ConcatOne(before, Local(ContHeader(false, size)));
      ghost var h := ContHeader(false, size);
      assert items[..0] == [] && Concat(before) + h == Concat(before) + (h + EncodeAll(items[..0]));
      var p := 0;
      while p < size
        invariant p <= size
        invariant AllWellFormed(items[..p])
        invariant Wrote(before, h + EncodeAll(items[..p]))
      {
        ContItem(z, OCont(false, size, blk), v, lo, hi, p);
        PackObject(z, z[blk][p], items[p], blk + 1, hi);
        Snoc(before, h, items, p);
        p := p + 1;
      }
      assert items[..p] == items;
    }

    method PackMapObject(z: Zone, size: nat, blk: nat, ghost v: Value, ghost lo: nat, ghost hi: nat)
      requires WellFormed(v) && v.Cont? && v.isMap && Holds(z, OCont(true, size, blk), v, lo, hi) && SmallLocals(stream)
      modifies this
      ensures Wrote(old(stream), Encode(v))
      decreases v, 1
    {
      hide SmallLocals, Concat, ContHeader, Holds;
      ghost var before, items := stream, v.items;
      ContOpen(z, OCont(true, size, blk), v, lo, hi);
      PackMap(size);
      ConcatOne(before, Local(ContHeader(true, size)));
      ghost var h := ContHeader(true, size);
      assert items[..0] == [] && Concat(before) + h == Concat(before) + (h + EncodeAll(items[..0]));
      var p := 0;
      while p < size
        invariant p <= size
        invariant AllWellFormed(items[..2 * p])
        invariant Wrote(before, h + EncodeAll(items[..2 * p]))
      {
        ContItem(z, OCont(true, size, blk), v, lo, hi, 2 * p);
        PackObject(z, z[blk][2 * p], items[2 * p], blk + 1, hi);
        Snoc(before, h, items, 2 * p);
        ContItem(z, OCont(true, size, blk), v, lo, hi, 2 * p + 1);
        PackObject(z, z[blk][2 * p + 1], items[2 * p + 1], blk + 1, hi);
        Snoc(before, h, items, 2 * p + 1);
        p := p + 1;
      }
      assert items[..2 * p] == items;
    }
  }

  lemma Snoc(before: seq<Write>, h: seq<byte>, items: seq<Value>, p: nat)
    requires p < |items| && AllWellFormed(items)
    ensures AllWellFormed(items[..p]) && WellFormed(items[p]) && AllWellFormed(items[..p + 1])
    ensures Concat(before) + (h + EncodeAll(items[..p])) + Encode(items[p]) ==
            Concat(before) + (h + EncodeAll(items[..p + 1]))
  {
    hide WellFormed, AllWellFormed, Encode, EncodeAll, Concat;
    AllWellFormedAt(items, p);
    EncodeAllSnoc(items[..p], items[p]);
    assert items[..p + 1] == items[..p] + [items[p]];
  }

  lemma ContOpen(z: Zone, o: Obj, v: Value, lo: nat, hi: nat)
    requires WellFormed(v) && v.Cont? && Holds(z, o, v, lo, hi)
    ensures o.OCont? && o.isMap == v.isMap && o.size == Count(v.isMap, v.items) < TWO_TO_THE_32
    ensures Slots(v.isMap, o.size) == |v.items| && AllWellFormed(v.items)
  {
  }

  lemma ContItem(z: Zone, o: Obj, v: Value, lo: nat, hi: nat, p: nat)
    requires WellFormed(v) && v.Cont? && Holds(z, o, v, lo, hi) && p < |v.items|
    ensures o.OCont? && o.blk < |z| && p < |z[o.blk]| && Holds(z, z[o.blk][p], v.items[p], o.blk + 1, hi)
    ensures WellFormed(v.items[p])
  {
    AllWellFormedAt(v.items, p);
  }

  lemma ByteStore(b: byte, n: byte)
    ensures Pow256(1) == 256 && [b] + Store(n, 1) == [b, n]
  {
    assert Store(n / 256, 0) == [];
  }
}
