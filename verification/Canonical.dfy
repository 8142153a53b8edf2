/** The packer's form is the shortest: any bytes that decode to a value are at least as long as its encoding. */
module Canonical {
  import opened Bytes
  import opened Format
  import opened Encoding

  /** The value can be packed, into at most k bytes. */
  ghost predicate Fits(v: Value, k: int) {
    WellFormed(v) && |Encode(v)| <= k
  }

  lemma IntShort(i: int, w: nat)
    requires (w == 1 || w == 2 || w == 4 || w == 8) && i < Pow256(w) && 0 <= 2 * i + Pow256(w)
    ensures -(TWO_TO_THE_63 as int) <= i < TWO_TO_THE_64 && |EncodeInt(i)| <= 1 + w
  {
    hide Store;
    Pow256Widths();
  }

  lemma BlobShort(kind: Kind, len: nat, w: nat)
    requires (w == 1 || w == 2 || w == 4) && (kind == ExtK ==> len >= 1)
    requires (if kind == ExtK then len - 1 else len) < Pow256(w)
    ensures (if kind == ExtK then 1 <= len <= TWO_TO_THE_32 else len < TWO_TO_THE_32)
    ensures |BlobHeader(kind, len)| <= 1 + w
  {
    hide Store;
    Pow256Widths();
  }

  lemma ContShort(isMap: bool, n: nat, w: nat)
    requires (w == 2 || w == 4) && n < Pow256(w)
    ensures n < TWO_TO_THE_32 && |ContHeader(isMap, n)| <= 1 + w
  {
    hide Store;
    Pow256Widths();
  }

  lemma NumberFits(k: Number, w: nat, s: seq<byte>)
    requires Fixed(k, w, s).Leaf? && (w == 1 || w == 2 || w == 4 || w == 8)
    requires (k == Single ==> w == 4) && (k == Double ==> w == 8)
    ensures Fits(Fixed(k, w, s).v, 1 + |s| - |Fixed(k, w, s).rest|)
  {
    hide Load, Store, EncodeInt;
    Pow256Widths();
    var n := Load(s[..w]);
    IntShort(if k == SignedInt then Signed(n, w) else n, w);
  }

  lemma SizedFits(kind: Kind, w: nat, s: seq<byte>)
    requires SizedBody(Standard, kind, w, s).Leaf? && (w == 1 || w == 2 || w == 4)
    ensures Fits(SizedBody(Standard, kind, w, s).v, 1 + |s| - |SizedBody(Standard, kind, w, s).rest|)
  {
    hide Load, BlobHeader;
    BlobShort(kind, BodyLen(kind, Load(s[..w])), w);
  }

  lemma LongFits(b: byte, s: seq<byte>)
    requires 0xc4 <= b <= 0xdf
    ensures var t := LongToken(Standard, b, s);
            && (t.Leaf? ==> Fits(t.v, 1 + |s| - |t.rest|))
            && (t.Open? ==> t.count < TWO_TO_THE_32 && |ContHeader(t.isMap, t.count)| + |t.rest| <= 1 + |s|)
  {
    hide SizedBody, Fixed, Fits, Load, ContHeader;
    var t := LongToken(Standard, b, s);
    if t.Leaf? {
      if b <= 0xc6 {
        SizedFits(BinK, Width(b - 0xc4), s);
      } else if b <= 0xc9 {
        SizedFits(ExtK, Width(b - 0xc7), s);
      } else if b <= 0xd3 {
        var k := if b == 0xca then Single else if b == 0xcb then Double else if b <= 0xcf then Unsigned else SignedInt;
        var w :=
          if b == 0xca then 4 else if b == 0xcb then 8
          else if b <= 0xcf then Width(b - 0xcc) else Width(b - 0xd0);
        NumberFits(k, w, s);
      } else if b <= 0xd8 {
        FixextFits(1 + Width(b - 0xd4), s);
      } else {
        SizedFits(StrK, Width(b - 0xd9), s);
      }
    } else if t.Open? {
      ContShort(b > 0xdd, t.count, if b <= 0xdd then Width(b - 0xdb) else Width(b - 0xdd));
    }
  }

  lemma FixextFits(len: nat, s: seq<byte>)
    requires Body(Standard, ExtK, len, s).Leaf? && (len == 2 || len == 3 || len == 5 || len == 9 || len == 17)
    ensures Fits(Body(Standard, ExtK, len, s).v, 1 + |s| - |Body(Standard, ExtK, len, s).rest|)
  {
  }

  lemma TokFits(s: seq<byte>)
    ensures var t := Tok(Standard, s);
            && (t.Leaf? ==> Fits(t.v, |s| - |t.rest|))
            && (t.Open? ==> t.count < TWO_TO_THE_32 && |ContHeader(t.isMap, t.count)| + |t.rest| <= |s|)
  {
    if s != [] {
      hide LongToken, Store;
      if 0xc4 <= s[0] <= 0xdf {
        hide Fits, ContHeader;
        LongFits(s[0], s[1..]);
      }
    }
  }

  /** What was decoded can be packed, and no more bytes are written than were read. */
  lemma {:induction false} Shortest(depth: nat, s: seq<byte>)
    requires Decode(Standard, depth, s).Done?
    ensures var o := Decode(Standard, depth, s);
            WellFormed(o.v) && |Encode(o.v)| <= |s| - |o.rest|
    decreases |s|, 0
  {
    hide Tok, ContHeader;
    TokFits(s);
    var t := Tok(Standard, s);
    if t.Open? {
      ShortestAll(depth + 1, Slots(t.isMap, t.count), t.rest);
    }
  }

  lemma {:induction false} ShortestAll(depth: nat, k: nat, s: seq<byte>)
    requires DecodeAll(Standard, depth, k, s).AllDone?
    ensures var o := DecodeAll(Standard, depth, k, s);
            AllWellFormed(o.vs) && |EncodeAll(o.vs)| <= |s| - |o.rest|
    decreases |s|, 1
  {
    hide Tok;
    if k != 0 {
      Shortest(depth, s);
      ShortestAll(depth, k - 1, Decode(Standard, depth, s).rest);
      var vs := DecodeAll(Standard, depth, k, s).vs;
      assert vs[1..] == DecodeAll(Standard, depth, k - 1, Decode(Standard, depth, s).rest).vs;
    }
  }

  /** Decoding and packing again changes nothing after the first time. */
  lemma Repack(s: seq<byte>)
    requires Decode(Standard, 1, s).Done?
    ensures var v := Decode(Standard, 1, s).v;
            WellFormed(v) && Decode(Standard, 1, Encode(v)) == Done(v, [])
  {
    hide Tok, Decode, Encode;
    Shortest(1, s);
    var v := Decode(Standard, 1, s).v;
    RoundTrip(v, 1, []);
    assert Encode(v) + [] == Encode(v);
  }
}
