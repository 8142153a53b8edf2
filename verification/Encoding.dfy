/**
 The encoding that the packer writes, and its two partners: the decoder reads every encoding back
 whatever follows it, and no other bytes that decode to the value are shorter.
 */
module Encoding {
  import opened Bytes
  import opened Format

  ghost predicate WellFormed(v: Value)
    decreases v, 1
  {
    match v
    case Nil => true
    case Bool(_) => true
    case UInt(n) => n < TWO_TO_THE_64
    case NInt(i) => -(TWO_TO_THE_63 as int) <= i < 0
    case F32(n) => n < TWO_TO_THE_32
    case F64(n) => n < TWO_TO_THE_64
    case Blob(kind, body) => if kind == ExtK then 1 <= |body| <= TWO_TO_THE_32 else |body| < TWO_TO_THE_32
    case Cont(isMap, items) =>
      |items| == Slots(isMap, Count(isMap, items)) && Count(isMap, items) < TWO_TO_THE_32 && AllWellFormed(items)
  }

  ghost predicate AllWellFormed(vs: seq<Value>)
    decreases vs, 0
  {
    vs != [] ==> WellFormed(vs[0]) && AllWellFormed(vs[1..])
  }

  function Count(isMap: bool, items: seq<Value>): nat {
    if isMap then |items| / 2 else |items|
  }

  /** The shortest form of a 64-bit integer, signed or not. */
  function EncodeInt(i: int): (s: seq<byte>)
    requires -(TWO_TO_THE_63 as int) <= i < TWO_TO_THE_64
    ensures 1 <= |s| <= 9
  {
    Pow256Widths();
    if i < -0x8000_0000 then [0xd3] + Store(Pattern(i, 8), 8)
    else if i < -0x8000 then [0xd2] + Store(Pattern(i, 4), 4)
    else if i < -0x80 then [0xd1] + Store(Pattern(i, 2), 2)
    else if i < -0x20 then [0xd0] + Store(Pattern(i, 1), 1)
    else if i < 0 then [i + 256]
    else if i < 0x80 then [i]
    else if i < 0x100 then [0xcc] + Store(i, 1)
    else if i < 0x1_0000 then [0xcd] + Store(i, 2)
    else if i < TWO_TO_THE_32 then [0xce] + Store(i, 4)
    else [0xcf] + Store(i, 8)
  }

  function StrHeader(l: nat): (s: seq<byte>)
    requires l < TWO_TO_THE_32
    ensures 1 <= |s| <= 9
  {
    Pow256Widths();
    if l < 32 then [0xa0 + l]
    else if l < 0x100 then [0xd9] + Store(l, 1)
    else if l < 0x1_0000 then [0xda] + Store(l, 2)
    else [0xdb] + Store(l, 4)
  }

  function BinHeader(l: nat): (s: seq<byte>)
    requires l < TWO_TO_THE_32
    ensures 1 <= |s| <= 9
  {
    Pow256Widths();
    if l < 0x100 then [0xc4] + Store(l, 1)
    else if l < 0x1_0000 then [0xc5] + Store(l, 2)
    else [0xc6] + Store(l, 4)
  }

  /** The ext header without its type byte. */
  function ExtHeader(l: nat): (s: seq<byte>)
    requires l < TWO_TO_THE_32
    ensures 1 <= |s| <= 8
  {
    Pow256Widths();
    if l == 1 then [0xd4]
    else if l == 2 then [0xd5]
    else if l == 4 then [0xd6]
    else if l == 8 then [0xd7]
    else if l == 16 then [0xd8]
    else if l < 0x100 then [0xc7] + Store(l, 1)
    else if l < 0x1_0000 then [0xc8] + Store(l, 2)
    else [0xc9] + Store(l, 4)
  }

  function BlobHeader(kind: Kind, len: nat): (s: seq<byte>)
    requires if kind == ExtK then 1 <= len <= TWO_TO_THE_32 else len < TWO_TO_THE_32
    ensures 1 <= |s| <= 9
  {
    match kind case StrK => StrHeader(len) case BinK => BinHeader(len) case ExtK => ExtHeader(len - 1)
  }

  function ContHeader(isMap: bool, n: nat): (s: seq<byte>)
    requires n < TWO_TO_THE_32
    ensures 1 <= |s| <= 9
  {
    Pow256Widths();
    if n < 16 then [(if isMap then 0x80 else 0x90) + n]
    else if n < 0x1_0000 then [if isMap then 0xde else 0xdc] + Store(n, 2)
    else [if isMap then 0xdf else 0xdd] + Store(n, 4)
  }

  ghost function Encode(v: Value): (s: seq<byte>)
    requires WellFormed(v)
    ensures s != []
    decreases v, 1
  {
    Pow256Widths();
    match v
    case Nil => [0xc0]
    case Bool(b) => if b then [0xc3] else [0xc2]
    case UInt(n) => EncodeInt(n)
    case NInt(i) => EncodeInt(i)
    case F32(n) => [0xca] + Store(n, 4)
    case F64(n) => [0xcb] + Store(n, 8)
    case Blob(kind, body) => BlobHeader(kind, |body|) + body
    case Cont(isMap, items) => ContHeader(isMap, Count(isMap, items)) + EncodeAll(items)
  }

  ghost function EncodeAll(vs: seq<Value>): seq<byte>
    requires AllWellFormed(vs)
    decreases vs, 0
  {
    if vs == [] then [] else Encode(vs[0]) + EncodeAll(vs[1..])
  }

  // ---------------------------------------------------------------- round trip

  lemma TokInt(m: Mode, i: int, r: seq<byte>)
    requires -(TWO_TO_THE_63 as int) <= i < TWO_TO_THE_64
    ensures Tok(m, EncodeInt(i) + r) == Leaf(if i >= 0 then UInt(i) else NInt(i), r)
  {
    hide Tok, Store, Load;
    Pow256Widths();
    if -0x20 <= i < 0x80 {
      TokShort(m, if i < 0 then i + 256 else i, r);
    } else {
      var w := |EncodeInt(i)| - 1;
      var k := if w == 1 then 0 else if w == 2 then 1 else if w == 4 then 2 else 3;
      var n := if i < 0 then Pattern(i, w) else i;
      LoadStore(n, w);
      TokNumber(m, if i < 0 then SignedInt else Unsigned, k, Store(n, w), r);
    }
  }

  lemma TokBlob(kind: Kind, body: seq<byte>, r: seq<byte>)
    requires WellFormed(Blob(kind, body))
    ensures Tok(Standard, BlobHeader(kind, |body|) + (body + r)) == Leaf(Blob(kind, body), r)
  {
    hide Tok, Store, Load, Body;
    Pow256Widths();
    var h := BlobHeader(kind, |body|);
    BodyReads(Standard, kind, body, r);
    if |h| == 1 {
      TokShort(Standard, h[0], body + r);
    } else {
      var w := |h| - 1;
      var k := if w == 1 then 0 else if w == 2 then 1 else 2;
      TokSized(Standard, kind, k, if kind == ExtK then |body| - 1 else |body|, body + r);
    }
  }

  lemma TokCont(m: Mode, isMap: bool, n: nat, r: seq<byte>)
    requires n < TWO_TO_THE_32
    ensures Tok(m, ContHeader(isMap, n) + r) == Open(isMap, n, r)
  {
    hide Tok, Store, Load;
    Pow256Widths();
    if n < 16 {
      TokShort(m, (if isMap then 0x80 else 0x90) + n, r);
    } else {
      TokSizedOpen(m, isMap, if n < 0x1_0000 then 1 else 2, n, r);
    }
  }

  lemma TokFloat(m: Mode, v: Value, r: seq<byte>)
    requires WellFormed(v) && (v.F32? || v.F64?)
    ensures Tok(m, Encode(v) + r) == Leaf(v, r)
  {
    hide Tok, Store, Load;
    Pow256Widths();
    if v.F32? {
      LoadStore(v.bits32, 4);
      TokNumber(m, Single, 2, Store(v.bits32, 4), r);
    } else {
      LoadStore(v.bits64, 8);
      TokNumber(m, Double, 3, Store(v.bits64, 8), r);
    }
  }

  /** The decoder undoes the encoder and leaves exactly what follows. */
  lemma {:induction false} RoundTrip(v: Value, depth: nat, r: seq<byte>)
    requires WellFormed(v)
    ensures Decode(Standard, depth, Encode(v) + r) == Done(v, r)
    decreases v, 1
  {
    hide Tok, EncodeInt, BlobHeader, ContHeader, Store;
    match v
    case UInt(n) => TokInt(Standard, n, r);
    case NInt(i) => TokInt(Standard, i, r);
    case Blob(kind, body) =>
      assert Encode(v) + r == BlobHeader(kind, |body|) + (body + r);
      TokBlob(kind, body, r);
    case Cont(isMap, items) =>
      var n := Count(isMap, items);
      assert Encode(v) + r == ContHeader(isMap, n) + (EncodeAll(items) + r);
      TokCont(Standard, isMap, n, EncodeAll(items) + r);
      RoundTripAll(items, depth + 1, r);
    case Nil => TokShort(Standard, 0xc0, r);
    case Bool(b) => TokShort(Standard, if b then 0xc3 else 0xc2, r);
    case _ => TokFloat(Standard, v, r);
  }

  lemma {:induction false} RoundTripAll(vs: seq<Value>, depth: nat, r: seq<byte>)
    requires AllWellFormed(vs)
    ensures DecodeAll(Standard, depth, |vs|, EncodeAll(vs) + r) == AllDone(vs, r)
    decreases vs, 0
  {
    hide Tok;
    if vs == [] {
      assert EncodeAll(vs) + r == r;
    } else {
      assert EncodeAll(vs) + r == Encode(vs[0]) + (EncodeAll(vs[1..]) + r);
      RoundTrip(vs[0], depth, EncodeAll(vs[1..]) + r);
      RoundTripAll(vs[1..], depth, r);
    }
  }
}
