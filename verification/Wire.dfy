/**
 The formats of the MessagePack specification byte by byte, family by family: what the decoder reads from them and
 which of them the packer writes. Numbers and lengths are big-endian.
 */
module Wire {
  import opened Bytes
  import opened Format
  import opened Encoding

  lemma LeafDecodes(m: Mode, d: nat, s: seq<byte>)
    ensures Tok(m, s).Leaf? ==> Decode(m, d, s) == Done(Tok(m, s).v, Tok(m, s).rest)
    ensures Tok(m, s).NoToken? ==> Decode(m, d, s) == Tok(m, s).why
  {
    hide Tok;
  }

  // ---------------------------------------------------------------- reading

  /** positive fixint, negative fixint, nil, never used, false and true. */
  lemma ReadsOneByte(m: Mode, d: nat, b: byte, r: seq<byte>)
    ensures b <= 0x7f ==> Decode(m, d, [b] + r) == Done(UInt(b), r)
    ensures 0xe0 <= b ==> Decode(m, d, [b] + r) == Done(NInt(b - 0x100), r)
    ensures Decode(m, d, [0xc0] + r) == Done(Nil, r)
    ensures Decode(m, d, [0xc1] + r) == Bad
    ensures Decode(m, d, [0xc2] + r) == Done(Bool(false), r) && Decode(m, d, [0xc3] + r) == Done(Bool(true), r)
  {
    hide Tok, Decode;
    TokShort(m, b, r);
    LeafDecodes(m, d, [b] + r);
    TokShort(m, 0xc0, r);
    LeafDecodes(m, d, [0xc0] + r);
    TokShort(m, 0xc1, r);
    LeafDecodes(m, d, [0xc1] + r);
    TokShort(m, 0xc2, r);
    LeafDecodes(m, d, [0xc2] + r);
    TokShort(m, 0xc3, r);
    LeafDecodes(m, d, [0xc3] + r);
  }

  lemma NumberDecodes(m: Mode, d: nat, k: Number, i: nat, x: seq<byte>, r: seq<byte>, s: seq<byte>)
    requires i <= 3 && |x| == Width(i) && (k == Single ==> i == 2) && (k == Double ==> i == 3)
    requires s == [NumberCode(k, i)] + x
    ensures Decode(m, d, s + r) == Done(NumberValue(k, x), r)
  {
    hide Tok, Decode, NumberValue;
    TokNumber(m, k, i, x, r);
    LeafDecodes(m, d, s + r);
  }

  /** uint 8, 16, 32 and 64. */
  lemma ReadsUnsigned(m: Mode, d: nat, a: byte, b: byte, c: byte, e: byte,
                      f: byte, g: byte, h: byte, i: byte, r: seq<byte>)
    ensures Decode(m, d, [0xcc, a] + r) == Done(UInt(a), r)
    ensures Decode(m, d, [0xcd, a, b] + r) == Done(UInt(0x100 * a + b), r)
    ensures Decode(m, d, [0xce, a, b, c, e] + r) == Done(UInt(0x100_0000 * a + 0x1_0000 * b + 0x100 * c + e), r)
    ensures Decode(m, d, [0xcf, a, b, c, e, f, g, h, i] + r) ==
            Done(UInt(TWO_TO_THE_32 * (0x100_0000 * a + 0x1_0000 * b + 0x100 * c + e)
                      + 0x100_0000 * f + 0x1_0000 * g + 0x100 * h + i), r)
  {
    hide Decode, Load;
    LoadBytes(a, b, c, e, f, g, h, i);
    NumberDecodes(m, d, Unsigned, 0, [a], r, [0xcc, a]);
    NumberDecodes(m, d, Unsigned, 1, [a, b], r, [0xcd, a, b]);
    NumberDecodes(m, d, Unsigned, 2, [a, b, c, e], r, [0xce, a, b, c, e]);
    NumberDecodes(m, d, Unsigned, 3, [a, b, c, e, f, g, h, i], r, [0xcf, a, b, c, e, f, g, h, i]);
  }

  /** int 8, 16, 32 and 64. */
  lemma ReadsSigned(m: Mode, d: nat, a: byte, b: byte, c: byte, e: byte,
                    f: byte, g: byte, h: byte, i: byte, r: seq<byte>)
    ensures Decode(m, d, [0xd0, a] + r) == Done(if a < 0x80 then UInt(a) else NInt(a - 0x100), r)
    ensures Decode(m, d, [0xd1, a, b] + r) ==
            Done(if a < 0x80 then UInt(0x100 * a + b) else NInt(0x100 * a + b - 0x1_0000), r)
    ensures var n := 0x100_0000 * a + 0x1_0000 * b + 0x100 * c + e;
            Decode(m, d, [0xd2, a, b, c, e] + r) == Done(if a < 0x80 then UInt(n) else NInt(n - TWO_TO_THE_32), r)
    ensures var n := TWO_TO_THE_32 * (0x100_0000 * a + 0x1_0000 * b + 0x100 * c + e)
                     + 0x100_0000 * f + 0x1_0000 * g + 0x100 * h + i;
            Decode(m, d, [0xd3, a, b, c, e, f, g, h, i] + r) ==
            Done(if a < 0x80 then UInt(n) else NInt(n - TWO_TO_THE_64), r)
  {
    hide Decode, Load;
    Pow256Widths();
    LoadBytes(a, b, c, e, f, g, h, i);
    NumberDecodes(m, d, SignedInt, 0, [a], r, [0xd0, a]);
    NumberDecodes(m, d, SignedInt, 1, [a, b], r, [0xd1, a, b]);
    NumberDecodes(m, d, SignedInt, 2, [a, b, c, e], r, [0xd2, a, b, c, e]);
    NumberDecodes(m, d, SignedInt, 3, [a, b, c, e, f, g, h, i], r, [0xd3, a, b, c, e, f, g, h, i]);
  }

  /** float 32 and 64, by their bit patterns. */
  lemma ReadsFloat(m: Mode, d: nat, a: byte, b: byte, c: byte, e: byte,
                   f: byte, g: byte, h: byte, i: byte, r: seq<byte>)
    ensures Decode(m, d, [0xca, a, b, c, e] + r) == Done(F32(0x100_0000 * a + 0x1_0000 * b + 0x100 * c + e), r)
    ensures Decode(m, d, [0xcb, a, b, c, e, f, g, h, i] + r) ==
            Done(F64(TWO_TO_THE_32 * (0x100_0000 * a + 0x1_0000 * b + 0x100 * c + e)
                     + 0x100_0000 * f + 0x1_0000 * g + 0x100 * h + i), r)
  {
    hide Decode, Load;
    LoadBytes(a, b, c, e, f, g, h, i);
    NumberDecodes(m, d, Single, 2, [a, b, c, e], r, [0xca, a, b, c, e]);
    NumberDecodes(m, d, Double, 3, [a, b, c, e, f, g, h, i], r, [0xcb, a, b, c, e, f, g, h, i]);
  }

  lemma SizedDecodes(d: nat, kind: Kind, i: nat, n: nat, h: seq<byte>, body: seq<byte>, r: seq<byte>)
    requires i <= 2 && n < Pow256(Width(i)) && h == [SizedCode(kind) + i] + Store(n, Width(i))
    requires |body| == if kind == ExtK then n + 1 else n
    ensures Decode(Standard, d, h + body + r) == Done(Blob(kind, body), r)
  {
    hide Tok, Decode, Store, Body;
    TokSized(Standard, kind, i, n, body + r);
    BodyReads(Standard, kind, body, r);
    assert h + (body + r) == h + body + r;
    LeafDecodes(Standard, d, h + body + r);
  }

  lemma ShortDecodes(d: nat, kind: Kind, h: byte, body: seq<byte>, r: seq<byte>)
    requires || (kind == StrK && h == 0xa0 + |body| <= 0xbf)
             || (kind == ExtK && 0xd4 <= h <= 0xd8 && |body| == 1 + Width(h - 0xd4))
    ensures Decode(Standard, d, [h] + body + r) == Done(Blob(kind, body), r)
  {
    hide Tok, Decode, Body;
    TokShort(Standard, h, body + r);
    BodyReads(Standard, kind, body, r);
    assert [h] + (body + r) == [h] + body + r;
    LeafDecodes(Standard, d, [h] + body + r);
  }

  /** fixstr, str 8, 16 and 32. */
  lemma ReadsStr(d: nat, body: seq<byte>, r: seq<byte>)
    ensures var (n, v) := (|body|, Blob(StrK, body));
            && (n < 32 ==> Decode(Standard, d, [0xa0 + n] + body + r) == Done(v, r))
            && (n < 0x100 ==> Decode(Standard, d, [0xd9, n] + body + r) == Done(v, r))
            && (n < 0x1_0000 ==> Decode(Standard, d, [0xda, n / 0x100, n % 0x100] + body + r) == Done(v, r))
            && (n < TWO_TO_THE_32 ==> Decode(Standard, d, [0xdb] + Big4(n) + body + r) == Done(v, r))
  {
    hide Decode, Store, Big4;
    var n := |body|;
    StoreBytes(n);
    if n < 32 {
      ShortDecodes(d, StrK, 0xa0 + n, body, r);
    }
    if n < 0x100 {
      SizedDecodes(d, StrK, 0, n, [0xd9, n], body, r);
    }
    if n < 0x1_0000 {
      SizedDecodes(d, StrK, 1, n, [0xda, n / 0x100, n % 0x100], body, r);
    }
    if n < TWO_TO_THE_32 {
      SizedDecodes(d, StrK, 2, n, [0xdb] + Big4(n), body, r);
    }
  }

  /** bin 8, 16 and 32. */
  lemma ReadsBin(d: nat, body: seq<byte>, r: seq<byte>)
    ensures var (n, v) := (|body|, Blob(BinK, body));
            && (n < 0x100 ==> Decode(Standard, d, [0xc4, n] + body + r) == Done(v, r))
            && (n < 0x1_0000 ==> Decode(Standard, d, [0xc5, n / 0x100, n % 0x100] + body + r) == Done(v, r))
            && (n < TWO_TO_THE_32 ==> Decode(Standard, d, [0xc6] + Big4(n) + body + r) == Done(v, r))
  {
    hide Decode, Store, Big4;
    var n := |body|;
    StoreBytes(n);
    if n < 0x100 {
      SizedDecodes(d, BinK, 0, n, [0xc4, n], body, r);
    }
    if n < 0x1_0000 {
      SizedDecodes(d, BinK, 1, n, [0xc5, n / 0x100, n % 0x100], body, r);
    }
    if n < TWO_TO_THE_32 {
      SizedDecodes(d, BinK, 2, n, [0xc6] + Big4(n), body, r);
    }
  }

  /** fixext 1, 2, 4, 8 and 16, ext 8, 16 and 32: the type byte comes before the data and does not count. */
  lemma ReadsExt(d: nat, kind: byte, data: seq<byte>, r: seq<byte>)
    ensures var (n, v) := (|data|, Blob(ExtK, [kind] + data));
            && (n == 1 ==> Decode(Standard, d, [0xd4, kind] + data + r) == Done(v, r))
            && (n == 2 ==> Decode(Standard, d, [0xd5, kind] + data + r) == Done(v, r))
            && (n == 4 ==> Decode(Standard, d, [0xd6, kind] + data + r) == Done(v, r))
            && (n == 8 ==> Decode(Standard, d, [0xd7, kind] + data + r) == Done(v, r))
            && (n == 16 ==> Decode(Standard, d, [0xd8, kind] + data + r) == Done(v, r))
            && (n < 0x100 ==> Decode(Standard, d, [0xc7, n, kind] + data + r) == Done(v, r))
            && (n < 0x1_0000 ==> Decode(Standard, d, [0xc8, n / 0x100, n % 0x100, kind] + data + r) == Done(v, r))
            && (n < TWO_TO_THE_32 ==> Decode(Standard, d, [0xc9] + Big4(n) + [kind] + data + r) == Done(v, r))
  {
    hide Decode, Store, Big4;
    var n := |data|;
    var body := [kind] + data;
    StoreBytes(n);
    if n == 1 || n == 2 || n == 4 || n == 8 || n == 16 {
      var h := if n == 1 then 0xd4 else if n == 2 then 0xd5 else if n == 4 then 0xd6 else if n == 8 then 0xd7 else 0xd8;
      ShortDecodes(d, ExtK, h, body, r);
      assert [h, kind] + data == [h] + body;
    }
    if n < 0x100 {
      SizedDecodes(d, ExtK, 0, n, [0xc7, n], body, r);
      assert [0xc7, n, kind] + data == [0xc7, n] + body;
    }
    if n < 0x1_0000 {
      SizedDecodes(d, ExtK, 1, n, [0xc8, n / 0x100, n % 0x100], body, r);
      assert [0xc8, n / 0x100, n % 0x100, kind] + data == [0xc8, n / 0x100, n % 0x100] + body;
    }
    if n < TWO_TO_THE_32 {
      SizedDecodes(d, ExtK, 2, n, [0xc9] + Big4(n), body, r);
      assert [0xc9] + Big4(n) + [kind] + data == [0xc9] + Big4(n) + body;
    }
  }

  lemma ContDecodes(d: nat, isMap: bool, n: nat, h: seq<byte>, vs: seq<Value>, r: seq<byte>)
    requires AllWellFormed(vs) && |vs| == Slots(isMap, n)
    requires Tok(Standard, h + (EncodeAll(vs) + r)) == Open(isMap, n, EncodeAll(vs) + r)
    ensures Decode(Standard, d, h + EncodeAll(vs) + r) == Done(Cont(isMap, vs), r)
  {
    hide Tok, Encode, EncodeAll, AllWellFormed;
    assert h + (EncodeAll(vs) + r) == h + EncodeAll(vs) + r;
    RoundTripAll(vs, d + 1, r);
  }

  /** fixarray, array 16 and 32: the elements follow. */
  lemma ReadsArray(d: nat, vs: seq<Value>, r: seq<byte>)
    requires AllWellFormed(vs)
    ensures var (n, e, v) := (|vs|, EncodeAll(vs), Cont(false, vs));
            && (n < 16 ==> Decode(Standard, d, [0x90 + n] + e + r) == Done(v, r))
            && (n < 0x1_0000 ==> Decode(Standard, d, [0xdc, n / 0x100, n % 0x100] + e + r) == Done(v, r))
            && (n < TWO_TO_THE_32 ==> Decode(Standard, d, [0xdd] + Big4(n) + e + r) == Done(v, r))
  {
    hide Tok, Decode, EncodeAll, AllWellFormed, Store, Big4;
    var (n, e) := (|vs|, EncodeAll(vs));
    StoreBytes(n);
    if n < 16 {
      TokShort(Standard, 0x90 + n, e + r);
      ContDecodes(d, false, n, [0x90 + n], vs, r);
    }
    if n < 0x1_0000 {
      TokSizedOpen(Standard, false, 1, n, e + r);
      assert [0xdc] + Store(n, 2) == [0xdc, n / 0x100, n % 0x100];
      ContDecodes(d, false, n, [0xdc, n / 0x100, n % 0x100], vs, r);
    }
    if n < TWO_TO_THE_32 {
      TokSizedOpen(Standard, false, 2, n, e + r);
      ContDecodes(d, false, n, [0xdd] + Big4(n), vs, r);
    }
  }

  /** fixmap, map 16 and 32: the keys and values follow in turn. */
  lemma ReadsMap(d: nat, vs: seq<Value>, r: seq<byte>)
    requires AllWellFormed(vs) && |vs| % 2 == 0
    ensures var (n, e, v) := (|vs| / 2, EncodeAll(vs), Cont(true, vs));
            && (n < 16 ==> Decode(Standard, d, [0x80 + n] + e + r) == Done(v, r))
            && (n < 0x1_0000 ==> Decode(Standard, d, [0xde, n / 0x100, n % 0x100] + e + r) == Done(v, r))
            && (n < TWO_TO_THE_32 ==> Decode(Standard, d, [0xdf] + Big4(n) + e + r) == Done(v, r))
  {
    hide Tok, Decode, EncodeAll, AllWellFormed, Store, Big4;
    var (n, e) := (|vs| / 2, EncodeAll(vs));
    StoreBytes(n);
    if n < 16 {
      TokShort(Standard, 0x80 + n, e + r);
      ContDecodes(d, true, n, [0x80 + n], vs, r);
    }
    if n < 0x1_0000 {
      TokSizedOpen(Standard, true, 1, n, e + r);
      assert [0xde] + Store(n, 2) == [0xde, n / 0x100, n % 0x100];
      ContDecodes(d, true, n, [0xde, n / 0x100, n % 0x100], vs, r);
    }
    if n < TWO_TO_THE_32 {
      TokSizedOpen(Standard, true, 2, n, e + r);
      ContDecodes(d, true, n, [0xdf] + Big4(n), vs, r);
    }
  }

  // ---------------------------------------------------------------- writing

  /** The bytes of every integer that the packer writes. */
  lemma WritesInteger(i: int)
    requires -(TWO_TO_THE_63 as int) <= i < TWO_TO_THE_64
    ensures 0 <= i < 0x80 ==> EncodeInt(i) == [i]
    ensures 0x80 <= i < 0x100 ==> EncodeInt(i) == [0xcc, i]
    ensures 0x100 <= i < 0x1_0000 ==> EncodeInt(i) == [0xcd, i / 0x100, i % 0x100]
    ensures 0x1_0000 <= i < TWO_TO_THE_32 ==> EncodeInt(i) == [0xce] + Big4(i)
    ensures TWO_TO_THE_32 <= i ==> EncodeInt(i) == [0xcf] + Big8(i)
    ensures -0x20 <= i < 0 ==> EncodeInt(i) == [0x100 + i]
    ensures -0x80 <= i < -0x20 ==> EncodeInt(i) == [0xd0, 0x100 + i]
    ensures -0x8000 <= i < -0x80 ==> EncodeInt(i) == [0xd1, (0x1_0000 + i) / 0x100, (0x1_0000 + i) % 0x100]
    ensures -0x8000_0000 <= i < -0x8000 ==> EncodeInt(i) == [0xd2] + Big4(TWO_TO_THE_32 + i)
    ensures i < -0x8000_0000 ==> EncodeInt(i) == [0xd3] + Big8(TWO_TO_THE_64 + i)
  {
    hide Store, Big4, Big8;
    Pow256Widths();
    if i >= 0 {
      StoreBytes(i);
    } else {
      var w := if i < -0x8000_0000 then 8 else if i < -0x8000 then 4 else if i < -0x80 then 2 else 1;
      StoreBytes(Pow256(w) + i);
    }
  }

  /** The bytes of both floats, by their patterns. */
  lemma WritesFloat(bits: nat)
    ensures bits < TWO_TO_THE_32 ==> Encode(F32(bits)) == [0xca] + Big4(bits)
    ensures bits < TWO_TO_THE_64 ==> Encode(F64(bits)) == [0xcb] + Big8(bits)
  {
    hide Store, Big4, Big8;
    StoreBytes(bits);
  }

  /** The bytes of every header of a body; l is the length of an ext's data. */
  lemma WritesBodyHeader(l: nat)
    requires l < TWO_TO_THE_32
    ensures StrHeader(l) == if l < 32 then [0xa0 + l] else if l < 0x100 then [0xd9, l]
                            else if l < 0x1_0000 then [0xda, l / 0x100, l % 0x100] else [0xdb] + Big4(l)
    ensures BinHeader(l) == if l < 0x100 then [0xc4, l]
                            else if l < 0x1_0000 then [0xc5, l / 0x100, l % 0x100] else [0xc6] + Big4(l)
    ensures ExtHeader(l) == if l == 1 then [0xd4] else if l == 2 then [0xd5] else if l == 4 then [0xd6]
                            else if l == 8 then [0xd7] else if l == 16 then [0xd8] else if l < 0x100 then [0xc7, l]
                            else if l < 0x1_0000 then [0xc8, l / 0x100, l % 0x100] else [0xc9] + Big4(l)
  {
    hide Store, Big4;
    StoreBytes(l);
  }

  /** The bytes of every header of a container. */
  lemma WritesContHeader(n: nat)
    requires n < TWO_TO_THE_32
    ensures ContHeader(false, n) == if n < 16 then [0x90 + n]
                                    else if n < 0x1_0000 then [0xdc, n / 0x100, n % 0x100] else [0xdd] + Big4(n)
    ensures ContHeader(true, n) == if n < 16 then [0x80 + n]
                                   else if n < 0x1_0000 then [0xde, n / 0x100, n % 0x100] else [0xdf] + Big4(n)
  {
    hide Store, Big4;
    StoreBytes(n);
  }
}
