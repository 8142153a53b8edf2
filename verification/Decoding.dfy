/**
 What the decoder's outcomes mean for the bytes: it looks at no byte after the value, its verdicts do not change
 when more bytes arrive, no message is a proper prefix of another, and every input is a message and what follows it,
 a proper prefix of a message, or has the reserved byte 0xc1 where a header belongs.
 */
module Decoding {
  import opened Bytes
  import opened Format

  // ---------------------------------------------------------------- locality

  /** The same token, with another rest. */
  function Onto(t: Token, u: seq<byte>): Token {
    match t
    case Leaf(v, _) => Leaf(v, u)
    case Open(isMap, n, _) => Open(isMap, n, u)
    case NoToken(_) => t
  }

  lemma BodyLocal(m: Mode, kind: Kind, len: nat, s: seq<byte>) returns (p: seq<byte>)
    requires Body(m, kind, len, s).Leaf?
    ensures s == p + Body(m, kind, len, s).rest
    ensures forall u :: Body(m, kind, len, p + u) == Onto(Body(m, kind, len, s), u)
  {
    hide OverBody, Kept;
    p := s[..len];
    forall u ensures Body(m, kind, len, p + u) == Onto(Body(m, kind, len, s), u) {
      BodyReads(m, kind, p, u);
    }
  }

  lemma SizedBodyLocal(m: Mode, kind: Kind, w: nat, s: seq<byte>) returns (p: seq<byte>)
    requires SizedBody(m, kind, w, s).Leaf?
    ensures s == p + SizedBody(m, kind, w, s).rest
    ensures forall u :: SizedBody(m, kind, w, p + u) == Onto(SizedBody(m, kind, w, s), u)
  {
    hide Load, BodyLen, Body;
    var x := s[..w];
    var q := BodyLocal(m, kind, BodyLen(kind, Load(x)), s[w..]);
    p := x + q;
    forall u ensures SizedBody(m, kind, w, p + u) == Onto(SizedBody(m, kind, w, s), u) {
      assert p + u == x + (q + u);
      SizedBodyReads(m, kind, x, q + u);
    }
  }

  lemma LongLocal(m: Mode, b: byte, s: seq<byte>) returns (p: seq<byte>)
    requires 0xc4 <= b <= 0xdf && !LongToken(m, b, s).NoToken?
    ensures s == p + LongToken(m, b, s).rest
    ensures forall u :: LongToken(m, b, p + u) == Onto(LongToken(m, b, s), u)
  {
    hide SizedBody, Body, Load, NumberValue;
    if b <= 0xc6 {
      p := SizedBodyLocal(m, BinK, Width(b - 0xc4), s);
    } else if b <= 0xc9 {
      p := SizedBodyLocal(m, ExtK, Width(b - 0xc7), s);
    } else if b <= 0xd3 {
      var k := if b == 0xca then Single else if b == 0xcb then Double else if b <= 0xcf then Unsigned else SignedInt;
      var w := if b == 0xca then 4 else if b == 0xcb then 8 else if b <= 0xcf then Width(b - 0xcc) else Width(b - 0xd0);
      p := s[..w];
      forall u ensures LongToken(m, b, p + u) == Onto(LongToken(m, b, s), u) {
        FixedReads(k, p, u);
      }
    } else if b <= 0xd8 {
      p := BodyLocal(m, ExtK, 1 + Width(b - 0xd4), s);
    } else if b <= 0xdb {
      p := SizedBodyLocal(m, StrK, Width(b - 0xd9), s);
    } else {
      p := s[..Width(if b <= 0xdd then b - 0xdb else b - 0xdd)];
      forall u ensures LongToken(m, b, p + u) == Onto(LongToken(m, b, s), u) {
        SizedOpenReads(b > 0xdd, p, u);
      }
    }
  }

  lemma TokLocal(m: Mode, s: seq<byte>) returns (p: seq<byte>)
    requires !Tok(m, s).NoToken?
    ensures p != [] && s == p + Tok(m, s).rest
    ensures forall u :: Tok(m, p + u) == Onto(Tok(m, s), u)
  {
    hide LongToken, Body;
    var b, t := s[0], s[1..];
    assert s == [b] + t;
    var q: seq<byte> := [];
    if 0xc4 <= b <= 0xdf {
      q := LongLocal(m, b, t);
    } else if 0xa0 <= b <= 0xbf {
      q := BodyLocal(m, StrK, b - 0xa0, t);
    }
    p := [b] + q;
    forall u ensures Tok(m, p + u) == Onto(Tok(m, s), u) {
      assert p + u == [b] + (q + u);
      if 0xc4 <= b <= 0xdf {
        TokLong(m, b, q + u);
      } else {
        TokShort(m, b, q + u);
      }
    }
  }

  /** The decoder reads a value from its own bytes p alone: whatever follows them is left untouched. */
  lemma {:induction false} DecodeLocal(m: Mode, depth: nat, s: seq<byte>) returns (p: seq<byte>)
    requires Decode(m, depth, s).Done?
    ensures p != [] && s == p + Decode(m, depth, s).rest
    ensures forall u :: Decode(m, depth, p + u) == Done(Decode(m, depth, s).v, u)
    decreases |s|, 0
  {
    hide Tok, DecodeAll;
    p := TokLocal(m, s);
    var tok := Tok(m, s);
    if tok.Open? {
      var q := DecodeAllLocal(m, depth + 1, Slots(tok.isMap, tok.count), tok.rest);
      var head := p;
      p := head + q;
      forall u ensures Decode(m, depth, p + u) == Done(Decode(m, depth, s).v, u) {
        assert p + u == head + (q + u);
      }
    }
  }

  lemma {:induction false} DecodeAllLocal(m: Mode, depth: nat, k: nat, s: seq<byte>) returns (p: seq<byte>)
    requires DecodeAll(m, depth, k, s).AllDone?
    ensures s == p + DecodeAll(m, depth, k, s).rest
    ensures forall u :: DecodeAll(m, depth, k, p + u) == AllDone(DecodeAll(m, depth, k, s).vs, u)
    decreases |s|, 1
  {
    hide Decode;
    if k == 0 {
      p := [];
      forall u ensures DecodeAll(m, depth, k, p + u) == AllDone([], u) {
        assert p + u == u;
      }
    } else {
      var x := DecodeLocal(m, depth, s);
      var q := DecodeAllLocal(m, depth, k - 1, Decode(m, depth, s).rest);
      p := x + q;
      forall u ensures DecodeAll(m, depth, k, p + u) == AllDone(DecodeAll(m, depth, k, s).vs, u) {
        assert p + u == x + (q + u);
      }
    }
  }

  // ---------------------------------------------------------------- finality

  function Follow(o: Outcome, u: seq<byte>): Outcome {
    if o.Done? then Done(o.v, o.rest + u) else o
  }

  function FollowAll(o: Outcomes, u: seq<byte>): Outcomes {
    if o.AllDone? then AllDone(o.vs, o.rest + u) else o
  }

  lemma LongFinal(m: Mode, b: byte, s: seq<byte>, u: seq<byte>)
    requires 0xc4 <= b <= 0xdf && LongToken(m, b, s).NoToken? && LongToken(m, b, s) != NoToken(More)
    ensures LongToken(m, b, s + u) == LongToken(m, b, s)
  {
    if 0xd4 <= b <= 0xd8 {
    } else {
      var w := if b <= 0xc6 then Width(b - 0xc4) else if b <= 0xc9 then Width(b - 0xc7) else Width(b - 0xd9);
      assert (s + u)[..w] == s[..w];
    }
  }

  lemma TokFinal(m: Mode, s: seq<byte>, u: seq<byte>)
    requires Tok(m, s) != NoToken(More)
    ensures var t := Tok(m, s);
            Tok(m, s + u) == if t.NoToken? then t else Onto(t, t.rest + u)
  {
    hide LongToken, OverBody, Kept;
    if Tok(m, s).NoToken? {
      var b, t := s[0], s[1..];
      assert s + u == [b] + (t + u);
      if 0xc4 <= b <= 0xdf {
        LongFinal(m, b, t, u);
        TokLong(m, b, t + u);
      } else {
        TokShort(m, b, t + u);
      }
    } else {
      var r := Tok(m, s).rest;
      var p := TokLocal(m, s);
      assert s + u == p + (r + u);
    }
  }

  /** Every verdict but "more bytes are needed" stands whatever bytes arrive later. */
  lemma {:induction false} DecodeFinal(m: Mode, depth: nat, s: seq<byte>, u: seq<byte>)
    requires Decode(m, depth, s) != More
    ensures Decode(m, depth, s + u) == Follow(Decode(m, depth, s), u)
    decreases |s|, 0
  {
    TokFinal(m, s, u);
    if Tok(m, s).Open? {
      var Open(isMap, n, t) := Tok(m, s);
      if !OverCount(m, isMap, n) && !OverDepth(m, depth, n) {
        DecodeAllFinal(m, depth + 1, Slots(isMap, n), t, u);
      }
    }
  }

  lemma {:induction false} DecodeAllFinal(m: Mode, depth: nat, k: nat, s: seq<byte>, u: seq<byte>)
    requires DecodeAll(m, depth, k, s) != Stopped(More)
    ensures DecodeAll(m, depth, k, s + u) == FollowAll(DecodeAll(m, depth, k, s), u)
    decreases |s|, 1
  {
    if k != 0 {
      DecodeFinal(m, depth, s, u);
      if Decode(m, depth, s).Done? {
        DecodeAllFinal(m, depth, k - 1, Decode(m, depth, s).rest, u);
      }
    }
  }

  // ---------------------------------------------------------------- messages

  ghost predicate IsMessage(s: seq<byte>) {
    Decode(Standard, 1, s).Done? && Decode(Standard, 1, s).rest == []
  }

  /** No message is a proper prefix of another. */
  lemma PrefixFree(s: seq<byte>, u: seq<byte>)
    requires IsMessage(s) && IsMessage(s + u)
    ensures u == []
  {
    DecodeFinal(Standard, 1, s, u);
  }

  // ---------------------------------------------------------------- incomplete input

  function Zeros(n: nat): seq<byte> {
    seq(n, _ => 0)
  }

  function Nils(n: nat): seq<byte> {
    seq(n, _ => 0xc0)
  }

  lemma {:induction false} NilsDecode(depth: nat, n: nat)
    ensures var o := DecodeAll(Standard, depth, n, Nils(n)); o.AllDone? && o.rest == []
  {
    if n != 0 {
      assert Nils(n) == [0xc0] + Nils(n - 1);
      TokShort(Standard, 0xc0, Nils(n - 1));
      NilsDecode(depth, n - 1);
    }
  }

  lemma BodyComplete(kind: Kind, len: nat, s: seq<byte>) returns (u: seq<byte>)
    requires Body(Standard, kind, len, s) == NoToken(More)
    ensures Body(Standard, kind, len, s + u).Leaf? && Body(Standard, kind, len, s + u).rest == []
  {
    u := Zeros(len - |s|);
  }

  lemma SizedBodyComplete(kind: Kind, w: nat, s: seq<byte>) returns (u: seq<byte>)
    requires SizedBody(Standard, kind, w, s) == NoToken(More)
    ensures SizedBody(Standard, kind, w, s + u).Leaf? && SizedBody(Standard, kind, w, s + u).rest == []
  {
    hide Load, BodyLen, Body;
    if |s| < w {
      var x := s + Zeros(w - |s|);
      var z := Zeros(BodyLen(kind, Load(x)));
      u := Zeros(w - |s|) + z;
      assert s + u == x + z;
      SizedBodyReads(Standard, kind, x, z);
      FullBody(kind, z);
    } else {
      var x, y := s[..w], s[w..];
      u := BodyComplete(kind, BodyLen(kind, Load(x)), y);
      assert s + u == x + (y + u);
      SizedBodyReads(Standard, kind, x, y + u);
    }
  }

  lemma FullBody(kind: Kind, z: seq<byte>)
    ensures Body(Standard, kind, |z|, z).Leaf? && Body(Standard, kind, |z|, z).rest == []
  {
  }

  lemma LongComplete(b: byte, s: seq<byte>) returns (u: seq<byte>)
    requires 0xc4 <= b <= 0xdf && LongToken(Standard, b, s) == NoToken(More)
    ensures var t := LongToken(Standard, b, s + u); !t.NoToken? && t.rest == []
  {
    hide SizedBody, Body, Load, NumberValue;
    if b <= 0xc6 {
      u := SizedBodyComplete(BinK, Width(b - 0xc4), s);
    } else if b <= 0xc9 {
      u := SizedBodyComplete(ExtK, Width(b - 0xc7), s);
    } else if b <= 0xd3 {
      var w := if b == 0xca then 4 else if b == 0xcb then 8 else if b <= 0xcf then Width(b - 0xcc) else Width(b - 0xd0);
      u := Zeros(w - |s|);
    } else if b <= 0xd8 {
      u := BodyComplete(ExtK, 1 + Width(b - 0xd4), s);
    } else if b <= 0xdb {
      u := SizedBodyComplete(StrK, Width(b - 0xd9), s);
    } else {
      u := Zeros(Width(if b <= 0xdd then b - 0xdb else b - 0xdd) - |s|);
    }
  }

  lemma TokComplete(s: seq<byte>) returns (u: seq<byte>)
    requires Tok(Standard, s) == NoToken(More)
    ensures var t := Tok(Standard, s + u); !t.NoToken? && t.rest == []
  {
    hide LongToken, Body;
    if s == [] {
      u := [0xc0];
      assert s + u == [0xc0] + [];
      TokShort(Standard, 0xc0, []);
    } else {
      var b, t := s[0], s[1..];
      if 0xc4 <= b <= 0xdf {
        u := LongComplete(b, t);
        TokLong(Standard, b, t + u);
      } else {
        u := BodyComplete(StrK, b - 0xa0, t);
        TokShort(Standard, b, t + u);
      }
      assert s + u == [b] + (t + u);
    }
  }

  /** Input that needs more bytes can always get them. */
  lemma {:induction false} DecodeComplete(depth: nat, s: seq<byte>) returns (u: seq<byte>)
    requires Decode(Standard, depth, s) == More
    ensures var o := Decode(Standard, depth, s + u); o.Done? && o.rest == []
    decreases |s|, 0
  {
    hide Tok;
    var t := Tok(Standard, s);
    if t.NoToken? {
      u := TokComplete(s);
      var t' := Tok(Standard, s + u);
      if t'.Open? {
        var k := Slots(t'.isMap, t'.count);
        TokFinal(Standard, s + u, Nils(k));
        NilsDecode(depth + 1, k);
        u := u + Nils(k);
        assert s + u == s + u[..|u| - k] + Nils(k);
        assert [] + Nils(k) == Nils(k);
      }
    } else {
      u := DecodeAllComplete(depth + 1, Slots(t.isMap, t.count), t.rest);
      TokFinal(Standard, s, u);
    }
  }

  lemma {:induction false} DecodeAllComplete(depth: nat, k: nat, s: seq<byte>) returns (u: seq<byte>)
    requires DecodeAll(Standard, depth, k, s) == Stopped(More)
    ensures var o := DecodeAll(Standard, depth, k, s + u); o.AllDone? && o.rest == []
    decreases |s|, 1
  {
    hide Tok;
    var o := Decode(Standard, depth, s);
    if o.Done? {
      u := DecodeAllComplete(depth, k - 1, o.rest);
      DecodeFinal(Standard, depth, s, u);
    } else {
      var x := DecodeComplete(depth, s);
      u := x + Nils(k - 1);
      DecodeFinal(Standard, depth, s + x, Nils(k - 1));
      NilsDecode(depth, k - 1);
      assert s + u == s + x + Nils(k - 1);
      assert [] + Nils(k - 1) == Nils(k - 1);
    }
  }

  // ---------------------------------------------------------------- invalid input

  /** The bytes are whole tokens, one after the other. */
  ghost predicate Tokens(c: seq<byte>)
    decreases |c|
  {
    c == [] || (!Tok(Standard, c).NoToken? && Tokens(Tok(Standard, c).rest))
  }

  lemma {:induction false} TokensAround(depth: nat, s: seq<byte>)
    requires Decode(Standard, depth, s).Done?
    ensures Tokens(s) <==> Tokens(Decode(Standard, depth, s).rest)
    decreases |s|, 0
  {
    hide Tok;
    var t := Tok(Standard, s);
    if t.Open? {
      TokensAroundAll(depth + 1, Slots(t.isMap, t.count), t.rest);
    }
  }

  lemma {:induction false} TokensAroundAll(depth: nat, k: nat, s: seq<byte>)
    requires DecodeAll(Standard, depth, k, s).AllDone?
    ensures Tokens(s) <==> Tokens(DecodeAll(Standard, depth, k, s).rest)
    decreases |s|, 1
  {
    hide Tok;
    if k != 0 {
      TokensAround(depth, s);
      TokensAroundAll(depth, k - 1, Decode(Standard, depth, s).rest);
    }
  }

  /** Invalid input has 0xc1 after whole tokens that do not make a value yet. */
  lemma {:induction false} BadAt(depth: nat, s: seq<byte>) returns (c: seq<byte>)
    requires Decode(Standard, depth, s) == Bad
    ensures Tokens(c) && Decode(Standard, depth, c) == More && c + [0xc1] <= s
    decreases |s|, 0
  {
    hide LongToken, Body;
    var t := Tok(Standard, s);
    if t.NoToken? {
      c := [];
      BadToken(s);
    } else {
      var c' := BadAtAll(depth + 1, Slots(t.isMap, t.count), t.rest);
      c := BadOpen(depth, s, c');
    }
  }

  lemma BadToken(s: seq<byte>)
    ensures Tok(Standard, s) == NoToken(Bad) ==> s != [] && s[0] == 0xc1
  {
    hide LongToken;
    if s != [] && 0xc4 <= s[0] <= 0xdf {
      LongNeverBad(s[0], s[1..]);
    }
  }

  lemma LongNeverBad(b: byte, s: seq<byte>)
    requires 0xc4 <= b <= 0xdf
    ensures LongToken(Standard, b, s) != NoToken(Bad)
  {
    hide Load, NumberValue, BodyLen;
  }

  lemma BadOpen(depth: nat, s: seq<byte>, c': seq<byte>) returns (c: seq<byte>)
    requires Tok(Standard, s).Open?
    requires Tokens(c') && c' + [0xc1] <= Tok(Standard, s).rest
    requires DecodeAll(Standard, depth + 1, Slots(Tok(Standard, s).isMap, Tok(Standard, s).count), c') == Stopped(More)
    ensures Tokens(c) && Decode(Standard, depth, c) == More && c + [0xc1] <= s
  {
    hide Tok;
    var p := TokLocal(Standard, s);
    c := p + c';
  }

  lemma {:induction false} BadAtAll(depth: nat, k: nat, s: seq<byte>) returns (c: seq<byte>)
    requires DecodeAll(Standard, depth, k, s) == Stopped(Bad)
    ensures Tokens(c) && DecodeAll(Standard, depth, k, c) == Stopped(More) && c + [0xc1] <= s
    decreases |s|, 1
  {
    hide Tok;
    var o := Decode(Standard, depth, s);
    if o.Done? {
      var c' := BadAtAll(depth, k - 1, o.rest);
      var p := DecodeLocal(Standard, depth, s);
      c := p + c';
      TokensAround(depth, c);
    } else {
      c := BadAt(depth, s);
    }
  }

  /** And wherever 0xc1 stands after such tokens, the input is invalid, whatever follows. */
  lemma {:induction false} BadThere(depth: nat, c: seq<byte>, u: seq<byte>)
    requires Tokens(c) && Decode(Standard, depth, c) == More
    ensures Decode(Standard, depth, c + ([0xc1] + u)) == Bad
    decreases |c|, 0
  {
    hide Tok;
    if c == [] {
      assert c + ([0xc1] + u) == [0xc1] + u;
      TokShort(Standard, 0xc1, u);
    } else {
      var t := Tok(Standard, c);
      TokFinal(Standard, c, [0xc1] + u);
      BadThereAll(depth + 1, Slots(t.isMap, t.count), t.rest, u);
    }
  }

  lemma {:induction false} BadThereAll(depth: nat, k: nat, c: seq<byte>, u: seq<byte>)
    requires Tokens(c) && DecodeAll(Standard, depth, k, c) == Stopped(More)
    ensures DecodeAll(Standard, depth, k, c + ([0xc1] + u)) == Stopped(Bad)
    decreases |c|, 1
  {
    hide Tok;
    var o := Decode(Standard, depth, c);
    if o.Done? {
      TokensAround(depth, c);
      BadThereAll(depth, k - 1, o.rest, u);
      DecodeFinal(Standard, depth, c, [0xc1] + u);
    } else {
      BadThere(depth, c, u);
    }
  }

  /** 0xc1 is where a header belongs: after whole tokens that do not contain a message. */
  ghost predicate Misplaced(s: seq<byte>, c: seq<byte>) {
    Tokens(c) && Decode(Standard, 1, c) == More && c + [0xc1] <= s
  }

  ghost predicate StartsWithMessage(s: seq<byte>, p: seq<byte>) {
    IsMessage(p) && p <= s
  }

  /** Input is a message and what follows it, or a proper prefix of a message, or invalid; never two of these. */
  lemma Trichotomy(s: seq<byte>)
    ensures Decode(Standard, 1, s).Done? <==> exists p :: StartsWithMessage(s, p)
    ensures Decode(Standard, 1, s) == More <==> exists u :: u != [] && IsMessage(s + u)
    ensures Decode(Standard, 1, s) == Bad <==> exists c :: Misplaced(s, c)
    ensures !Decode(Standard, 1, s).Over?
  {
    hide Tok, Decode;
    StandardNeverOver(1, s);
    if Decode(Standard, 1, s).Done? {
      var p := DecodeLocal(Standard, 1, s);
      assert p + [] == p;
      assert StartsWithMessage(s, p);
    } else if Decode(Standard, 1, s) == More {
      var u := DecodeComplete(1, s);
      assert s + [] == s;
      assert u != [] && IsMessage(s + u);
    } else {
      var c := BadAt(1, s);
      assert Misplaced(s, c);
    }
    forall p | StartsWithMessage(s, p) ensures Decode(Standard, 1, s).Done? {
      DecodeFinal(Standard, 1, p, s[|p|..]);
      assert s == p + s[|p|..];
    }
    forall u | u != [] && IsMessage(s + u) ensures Decode(Standard, 1, s) == More {
      if Decode(Standard, 1, s) != More {
        DecodeFinal(Standard, 1, s, u);
      }
    }
    forall c | Misplaced(s, c) ensures Decode(Standard, 1, s) == Bad {
      var u := s[|c| + 1..];
      BadThere(1, c, u);
      assert s == c + ([0xc1] + u);
    }
  }

  lemma {:induction false} StandardNeverOver(depth: nat, s: seq<byte>)
    ensures !Decode(Standard, depth, s).Over?
    decreases |s|, 0
  {
    TokNeverOver(s);
    hide Tok;
    var t := Tok(Standard, s);
    if t.Open? {
      StandardNeverOverAll(depth + 1, Slots(t.isMap, t.count), t.rest);
    }
  }

  lemma TokNeverOver(s: seq<byte>)
    ensures Tok(Standard, s).NoToken? ==> !Tok(Standard, s).why.Over?
  {
    if s != [] && 0xc4 <= s[0] <= 0xdf {
      hide Load, NumberValue, BodyLen, Kept;
      var t := LongToken(Standard, s[0], s[1..]);
      assert t.NoToken? ==> !t.why.Over?;
    }
  }

  lemma {:induction false} StandardNeverOverAll(depth: nat, k: nat, s: seq<byte>)
    ensures DecodeAll(Standard, depth, k, s).Stopped? ==> !DecodeAll(Standard, depth, k, s).why.Over?
    decreases |s|, 1
  {
    hide Tok;
    if k != 0 {
      StandardNeverOver(depth, s);
      if Decode(Standard, depth, s).Done? {
        StandardNeverOverAll(depth, k - 1, Decode(Standard, depth, s).rest);
      }
    }
  }
}
