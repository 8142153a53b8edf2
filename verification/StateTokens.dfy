/** What the bytes behind each parser state mean: one lemma for each kind of branch in the state switch. */
module StateTokens {
  import opened Bytes
  import opened Format
  import opened Resumption

  // ---------------------------------------------------------------- headers

  lemma EmitsByte(m: Mode, trail: nat, b: byte, t: Token)
    requires forall r :: EmitsOn(m, [b], t, r)
    ensures Emits(m, Pending(CS_HEADER, trail) + [b], t)
  {
    hide Tok;
    assert Pending(CS_HEADER, trail) + [b] == [b];
  }

  lemma HeaderLeaf(m: Mode, trail: nat, b: byte, v: Value)
    requires || (b <= 0x7f && v == UInt(b))
             || (b == 0xa0 && v == Blob(StrK, []))
             || (b == 0xc0 && v == Nil)
             || (b == 0xc2 && v == Bool(false))
             || (b == 0xc3 && v == Bool(true))
             || (0xe0 <= b && v == NInt(b as int - 256))
    ensures Emits(m, Pending(CS_HEADER, trail) + [b], Leaf(v, []))
  {
    hide Tok, Pending;
    forall r ensures EmitsOn(m, [b], Leaf(v, []), r) {
      TokShort(m, b, r);
      assert r[0..] == r;
    }
    EmitsByte(m, trail, b, Leaf(v, []));
  }

  lemma HeaderOpen(m: Mode, trail: nat, b: byte)
    requires 0x80 <= b <= 0x9f
    ensures Emits(m, Pending(CS_HEADER, trail) + [b], Open(b <= 0x8f, b % 16, []))
  {
    hide Tok, Pending;
    var t := Open(b <= 0x8f, b % 16, []);
    forall r ensures EmitsOn(m, [b], t, r) {
      TokShort(m, b, r);
    }
    EmitsByte(m, trail, b, t);
  }

  lemma HeaderBad(m: Mode, trail: nat)
    ensures Emits(m, Pending(CS_HEADER, trail) + [0xc1], NoToken(Bad))
  {
    hide Tok, Pending;
    forall r ensures EmitsOn(m, [0xc1], NoToken(Bad), r) {
      TokShort(m, 0xc1, r);
    }
    EmitsByte(m, trail, 0xc1, NoToken(Bad));
  }

  /** A header with a trail is pending as itself. */
  lemma HeaderTrail(m: Mode, trail: nat, b: byte, r: seq<byte>)
    requires 0xc4 <= b <= 0xdf
    ensures SameToken(m, Pending(CS_HEADER, trail) + [b], Pending(b - 0xc0, TrailOf(b - 0xc0)), r)
  {
    hide Tok;
    assert Pending(CS_HEADER, trail) + [b] == [b];
  }

  /** A short string header with bytes to come is pending as its longest form. */
  lemma HeaderStr(m: Mode, trail: nat, b: byte, r: seq<byte>)
    requires 0xa0 < b <= 0xbf
    ensures SameToken(m, Pending(CS_HEADER, trail) + [b], Pending(CS_STR_VALUE, b - 0xa0), r)
  {
    hide Tok, Store, Body;
    Pow256Widths();
    assert Pending(CS_HEADER, trail) + [b] == [b];
    TokShort(m, b, r);
    TokSized(m, StrK, 2, b - 0xa0, r);
  }

  // ---------------------------------------------------------------- trails

  /** Which number a state reads, and the index of its width. */
  function NumberOf(cs: nat): (Number, nat)
    requires 0x0a <= cs <= 0x13
  {
    if cs == 0x0a then (Single, 2)
    else if cs == 0x0b then (Double, 3)
    else if cs <= 0x0f then (Unsigned, cs - 0x0c)
    else (SignedInt, cs - 0x10)
  }

  lemma TrailNumber(m: Mode, cs: nat, x: seq<byte>)
    requires 0x0a <= cs <= 0x13 && |x| == TrailOf(cs)
    ensures Emits(m, Pending(cs, |x|) + x, Leaf(NumberValue(NumberOf(cs).0, x), []))
  {
    hide Tok, NumberValue;
    var (k, i) := NumberOf(cs);
    assert |x| == Width(i) && NumberCode(k, i) == 0xc0 + cs;
    forall r ensures EmitsOn(m, Pending(cs, |x|) + x, Leaf(NumberValue(k, x), []), r) {
      TokNumber(m, k, i, x, r);
    }
  }

  function BodyToken(m: Mode, kind: Kind, x: seq<byte>): Token {
    if OverBody(m, kind, |x|) then NoToken(Over(BodyLimit(kind))) else Leaf(Blob(kind, Kept(m, kind, x)), [])
  }

  lemma TrailFixext(m: Mode, cs: nat, x: seq<byte>)
    requires 0x14 <= cs <= 0x18 && |x| == TrailOf(cs)
    ensures Emits(m, Pending(cs, |x|) + x, BodyToken(m, ExtK, x))
  {
    hide Tok, Body, BodyToken;
    var h: seq<byte> := [0xc0 + cs];
    assert Pending(cs, |x|) == h;
    forall r ensures EmitsOn(m, h + x, BodyToken(m, ExtK, x), r) {
      TokShort(m, h[0], x + r);
      BodyTokenReads(m, ExtK, x, r);
      assert h + x + r == h + (x + r);
    }
  }

  lemma TrailOpen(m: Mode, cs: nat, x: seq<byte>)
    requires 0x1c <= cs <= 0x1f && |x| == TrailOf(cs)
    ensures Emits(m, Pending(cs, |x|) + x, Open(cs >= 0x1e, Load(x), []))
  {
    hide Tok, Load, Store;
    var isMap := cs >= 0x1e;
    var i := if isMap then cs - 0x1d else cs - 0x1b;
    StoreLoad(x);
    forall r ensures EmitsOn(m, Pending(cs, |x|) + x, Open(isMap, Load(x), []), r) {
      TokSizedOpen(m, isMap, i, Load(x), r);
    }
  }

  /** The states that read a body's length: which body, and the index of the width of the length. */
  function SizedOf(cs: nat): (Kind, nat)
    requires 0x04 <= cs <= 0x09 || 0x19 <= cs <= 0x1b
  {
    if cs <= 0x06 then (BinK, cs - 0x04) else if cs <= 0x09 then (ExtK, cs - 0x07) else (StrK, cs - 0x19)
  }

  lemma PendingSized(cs: nat, x: seq<byte>)
    requires (0x04 <= cs <= 0x09 || 0x19 <= cs <= 0x1b) && |x| == TrailOf(cs)
    ensures var (kind, i) := SizedOf(cs);
            Load(x) < Pow256(Width(i)) <= TWO_TO_THE_32
            && Pending(cs, |x|) + x == [SizedCode(kind) + i] + Store(Load(x), Width(i))
  {
    hide Load, Store;
    Pow256Widths();
    StoreLoad(x);
  }

  lemma PendingValue(kind: Kind, len: nat)
    requires StateOk(ValueState(kind), len)
    ensures var n := if kind == ExtK then len - 1 else len;
            n < Pow256(4) && Pending(ValueState(kind), len) == [SizedCode(kind) + 2] + Store(n, 4)
  {
    hide Store;
    Pow256Widths();
  }

  /** A length that is not zero is pending as the longest form of the header. */
  lemma TrailSize(m: Mode, cs: nat, x: seq<byte>, r: seq<byte>)
    requires (0x04 <= cs <= 0x09 || 0x19 <= cs <= 0x1b) && |x| == TrailOf(cs)
    requires BodyLen(SizedOf(cs).0, Load(x)) > 0
    ensures var kind := SizedOf(cs).0;
            var len := BodyLen(kind, Load(x));
            StateOk(ValueState(kind), len) && SameToken(m, Pending(cs, |x|) + x, Pending(ValueState(kind), len), r)
  {
    hide Tok, Load, Store, Body, Pending, SizedCode, TrailOf;
    Pow256Widths();
    var (kind, i) := SizedOf(cs);
    var n := Load(x);
    PendingSized(cs, x);
    TokSized(m, kind, i, n, r);
    TokSized(m, kind, 2, n, r);
    PendingValue(kind, BodyLen(kind, n));
  }

  /** A length of zero is an empty body. */
  lemma TrailEmpty(m: Mode, cs: nat, x: seq<byte>)
    requires (0x04 <= cs <= 0x09 || 0x19 <= cs <= 0x1b) && |x| == TrailOf(cs)
    requires BodyLen(SizedOf(cs).0, Load(x)) == 0
    ensures Emits(m, Pending(cs, |x|) + x, Leaf(Blob(SizedOf(cs).0, []), []))
  {
    hide Tok, Load, Store, Pending;
    var (kind, i) := SizedOf(cs);
    var v := Blob(kind, []);
    PendingSized(cs, x);
    forall r ensures EmitsOn(m, Pending(cs, |x|) + x, Leaf(v, []), r) {
      TokSized(m, kind, i, Load(x), r);
      assert Body(m, kind, 0, r) == Leaf(v, r[0..]);
    }
  }

  lemma TrailBody(m: Mode, cs: nat, x: seq<byte>)
    requires CS_STR_VALUE <= cs <= CS_EXT_VALUE && StateOk(cs, |x|)
    ensures Emits(m, Pending(cs, |x|) + x, BodyToken(m, KindOf(cs), x))
  {
    hide Tok, Store, Body, Pending, BodyToken;
    var kind := KindOf(cs);
    var n := if kind == ExtK then |x| - 1 else |x|;
    PendingValue(kind, |x|);
    var h := Pending(cs, |x|);
    forall r ensures EmitsOn(m, h + x, BodyToken(m, kind, x), r) {
      TokSized(m, kind, 2, n, x + r);
      BodyTokenReads(m, kind, x, r);
      assert h + x + r == h + (x + r);
    }
  }

  lemma BodyTokenReads(m: Mode, kind: Kind, x: seq<byte>, r: seq<byte>)
    ensures Body(m, kind, |x|, x + r)
         == match BodyToken(m, kind, x) case Leaf(v, _) => Leaf(v, r) case t => t
  {
    hide OverBody, Kept;
    BodyReads(m, kind, x, r);
  }

  // ---------------------------------------------------------------- verdicts

  /** The bytes x end a token that no parse survives. */
  lemma TrackStop(m: Mode, c: seq<byte>, cs: nat, trail: nat, fs: seq<Frame>, x: seq<byte>, why: Outcome, r: seq<byte>)
    requires Tracks(m, c, cs, trail, fs) && Emits(m, Pending(cs, trail) + x, NoToken(why)) && !why.Done?
    ensures Decode(m, 1, c + x + r) == why
  {
    hide Tok, Pending;
    var p := Pending(cs, trail);
    assert TracksOn(m, c, cs, trail, fs, x + r);
    assert EmitsOn(m, p + x, NoToken(why), r);
    assert c + x + r == c + (x + r) && p + x + r == p + (x + r);
  }

  /** The bytes x end the header of a container that is too big or too deep. */
  lemma TrackOver(m: Mode, c: seq<byte>, cs: nat, trail: nat, fs: seq<Frame>, x: seq<byte>, isMap: bool, n: nat,
                  r: seq<byte>)
    requires Tracks(m, c, cs, trail, fs) && Emits(m, Pending(cs, trail) + x, Open(isMap, n, []))
    ensures OverCount(m, isMap, n) ==> Decode(m, 1, c + x + r) == Over(CountLimit(isMap))
    ensures !OverCount(m, isMap, n) && OverDepth(m, |fs| + 1, n) ==> Decode(m, 1, c + x + r) == Over(DepthLimit)
  {
    hide Tok, Pending, OverCount, OverDepth;
    var p := Pending(cs, trail);
    assert TracksOn(m, c, cs, trail, fs, x + r);
    assert EmitsOn(m, p + x, Open(isMap, n, []), r);
    assert c + x + r == c + (x + r) && p + x + r == p + (x + r);
  }

  /** With fewer bytes than its trail, a state can say nothing but that it needs more. */
  lemma TrackShort(m: Mode, c: seq<byte>, cs: nat, trail: nat, fs: seq<Frame>, r: seq<byte>)
    requires Tracks(m, c, cs, trail, fs) && |r| < (if cs == CS_HEADER then 1 else trail)
    ensures Decode(m, 1, c + r) == More
  {
    assert TracksOn(m, c, cs, trail, fs, r);
    PendingShort(m, cs, trail, r);
  }

  lemma PendingShort(m: Mode, cs: nat, trail: nat, r: seq<byte>)
    requires StateOk(cs, trail) && |r| < (if cs == CS_HEADER then 1 else trail)
    ensures Tok(m, Pending(cs, trail) + r) == NoToken(More)
  {
    if cs == CS_HEADER {
      assert Pending(cs, trail) + r == [];
    } else if cs <= 0x1f {
      hide Tok, LongToken;
      TokLong(m, 0xc0 + cs, r);
      LongShort(m, cs, r);
    } else {
      hide Tok, Store, OverBody, Kept, Pending;
      PendingValue(KindOf(cs), trail);
      TokSized(m, KindOf(cs), 2, if cs == CS_EXT_VALUE then trail - 1 else trail, r);
    }
  }

  lemma LongShort(m: Mode, cs: nat, r: seq<byte>)
    requires 0x04 <= cs <= 0x1f && |r| < TrailOf(cs)
    ensures LongToken(m, 0xc0 + cs, r) == NoToken(More)
  {
    hide Load, OverBody, Kept, NumberValue, BodyLen;
  }
}
