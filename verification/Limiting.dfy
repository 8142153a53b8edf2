/** What the limits and the body copies of the two parsers change, compared with the standard. */
module Limiting {
  import opened Bytes
  import opened Format
  import opened Encoding
  import opened Canonical
  import opened Decoding

  /** Every container and body in v passes the checks, when v lies inside depth - 1 containers. */
  ghost predicate Within(m: Mode, depth: nat, v: Value)
    decreases v, 1
  {
    match v
    case Blob(kind, body) => !OverBody(m, kind, |body|)
    case Cont(isMap, items) =>
      var n := Count(isMap, items);
      !OverCount(m, isMap, n) && !OverDepth(m, depth, n) && AllWithin(m, depth + 1, items)
    case _ => true
  }

  ghost predicate AllWithin(m: Mode, depth: nat, vs: seq<Value>)
    decreases vs, 0
  {
    vs != [] ==> Within(m, depth, vs[0]) && AllWithin(m, depth, vs[1..])
  }

  /** The value as the parser delivers it: bodies as they are kept. */
  ghost function Delivered(m: Mode, v: Value): Value
    decreases v, 1
  {
    match v
    case Blob(kind, body) => Blob(kind, Kept(m, kind, body))
    case Cont(isMap, items) => Cont(isMap, AllDelivered(m, items))
    case _ => v
  }

  ghost function AllDelivered(m: Mode, vs: seq<Value>): (r: seq<Value>)
    ensures |r| == |vs|
    decreases vs, 0
  {
    if vs == [] then [] else [Delivered(m, vs[0])] + AllDelivered(m, vs[1..])
  }

  /** The token that a parser makes of a token of the standard. */
  ghost function InMode(m: Mode, t: Token): Token {
    if !t.Leaf? then t
    else if t.v.Blob? && OverBody(m, t.v.kind, |t.v.body|) then NoToken(Over(BodyLimit(t.v.kind)))
    else Leaf(Delivered(m, t.v), t.rest)
  }

  lemma BodyInMode(m: Mode, kind: Kind, len: nat, s: seq<byte>)
    ensures Body(m, kind, len, s) == InMode(m, Body(Standard, kind, len, s))
  {
    hide SizeArg;
  }

  lemma SizedInMode(m: Mode, kind: Kind, w: nat, s: seq<byte>)
    ensures SizedBody(m, kind, w, s) == InMode(m, SizedBody(Standard, kind, w, s))
  {
    hide Load, BodyLen, Body, OverBody, Delivered;
    if |s| >= w {
      BodyInMode(m, kind, BodyLen(kind, Load(s[..w])), s[w..]);
    }
  }

  lemma LongInMode(m: Mode, b: byte, s: seq<byte>)
    requires 0xc4 <= b <= 0xdf
    ensures LongToken(m, b, s) == InMode(m, LongToken(Standard, b, s))
  {
    hide SizedBody, Body, Load, OverBody;
    if b <= 0xc6 {
      SizedInMode(m, BinK, Width(b - 0xc4), s);
    } else if b <= 0xc9 {
      SizedInMode(m, ExtK, Width(b - 0xc7), s);
    } else if 0xd4 <= b <= 0xd8 {
      BodyInMode(m, ExtK, 1 + Width(b - 0xd4), s);
    } else if 0xd9 <= b <= 0xdb {
      SizedInMode(m, StrK, Width(b - 0xd9), s);
    }
  }

  lemma TokInMode(m: Mode, s: seq<byte>)
    ensures Tok(m, s) == InMode(m, Tok(Standard, s))
  {
    hide LongToken;
    if s != [] && 0xc4 <= s[0] <= 0xdf {
      LongInMode(m, s[0], s[1..]);
    }
  }

  /** A complete message gets through exactly when it is within the limits; otherwise the parser throws. */
  lemma {:induction false} LimitsExact(m: Mode, depth: nat, s: seq<byte>)
    requires Decode(Standard, depth, s).Done?
    ensures var o := Decode(Standard, depth, s);
            if Within(m, depth, o.v) then Decode(m, depth, s) == Done(Delivered(m, o.v), o.rest)
            else Decode(m, depth, s).Over?
    decreases |s|, 0
  {
    hide Tok, OverCount, OverDepth, OverBody, Kept;
    TokInMode(m, s);
    var t := Tok(Standard, s);
    if t.Open? {
      var o := DecodeAll(Standard, depth + 1, Slots(t.isMap, t.count), t.rest);
      assert Count(t.isMap, o.vs) == t.count;
      LimitsExactAll(m, depth + 1, Slots(t.isMap, t.count), t.rest);
    }
  }

  lemma {:induction false} LimitsExactAll(m: Mode, depth: nat, k: nat, s: seq<byte>)
    requires DecodeAll(Standard, depth, k, s).AllDone?
    ensures var o := DecodeAll(Standard, depth, k, s);
            if AllWithin(m, depth, o.vs) then DecodeAll(m, depth, k, s) == AllDone(AllDelivered(m, o.vs), o.rest)
            else DecodeAll(m, depth, k, s).Stopped? && DecodeAll(m, depth, k, s).why.Over?
    decreases |s|, 1
  {
    hide Tok, Within, Delivered;
    if k != 0 {
      LimitsExact(m, depth, s);
      var first := Decode(Standard, depth, s);
      LimitsExactAll(m, depth, k - 1, first.rest);
      var vs := DecodeAll(Standard, depth, k, s).vs;
      assert vs[0] == first.v && vs[1..] == DecodeAll(Standard, depth, k - 1, first.rest).vs;
    }
  }

  // ---------------------------------------------------------------- what the limits of v2 bound

  /** A size as the 32-bit parameter shows it; only an ext with its type byte can reach 2^32. */
  function Shown(len: nat): nat {
    if len == TWO_TO_THE_32 then 0 else len
  }

  ghost predicate SizesWithin(lim: Limits, v: Value)
    decreases v, 1
  {
    match v
    case Blob(StrK, body) => |body| <= lim.strs
    case Blob(BinK, body) => |body| <= lim.bins
    case Blob(ExtK, body) => Shown(|body|) <= lim.exts
    case Cont(isMap, items) =>
      Count(isMap, items) <= (if isMap then lim.maps else lim.arrays) && AllSizesWithin(lim, items)
    case _ => true
  }

  ghost predicate AllSizesWithin(lim: Limits, vs: seq<Value>)
    decreases vs, 0
  {
    vs != [] ==> SizesWithin(lim, vs[0]) && AllSizesWithin(lim, vs[1..])
  }

  /** How deep containers are nested, empty ones included. */
  ghost function Nesting(v: Value): nat
    decreases v, 1
  {
    if v.Cont? then 1 + MaxNesting(v.items) else 0
  }

  ghost function MaxNesting(vs: seq<Value>): nat
    decreases vs, 0
  {
    if vs == [] then 0
    else if Nesting(vs[0]) >= MaxNesting(vs[1..]) then Nesting(vs[0]) else MaxNesting(vs[1..])
  }

  /** The checks of v2 are bounds on sizes and on nesting, and nothing else. */
  lemma {:induction false} WithinV2(m: Mode, depth: nat, v: Value)
    requires m.V2? && depth > 0 && WellFormed(v)
    ensures Within(m, depth, v) <==>
            SizesWithin(m.lim, v) && (Nesting(v) == 0 || depth - 1 + Nesting(v) <= m.lim.depth)
    decreases v, 1
  {
    if v.Cont? {
      AllWithinV2(m, depth + 1, v.items);
    }
  }

  lemma {:induction false} AllWithinV2(m: Mode, depth: nat, vs: seq<Value>)
    requires m.V2? && depth > 0 && AllWellFormed(vs)
    ensures AllWithin(m, depth, vs) <==>
            AllSizesWithin(m.lim, vs) && (MaxNesting(vs) == 0 || depth - 1 + MaxNesting(vs) <= m.lim.depth)
    decreases vs, 0
  {
    if vs != [] {
      WithinV2(m, depth, vs[0]);
      AllWithinV2(m, depth, vs[1..]);
    }
  }

  /** v2 parses a complete message without an overflow exactly when its sizes and its nesting are within the limits. */
  lemma ParsesWithin(m: Mode, s: seq<byte>)
    requires m.V2? && Decode(Standard, 1, s).Done?
    ensures Decode(m, 1, s).Done? || Decode(m, 1, s).Over?
    ensures var v := Decode(Standard, 1, s).v;
            Decode(m, 1, s).Done? <==> SizesWithin(m.lim, v) && Nesting(v) <= m.lim.depth
  {
    hide Tok, Decode;
    Shortest(1, s);
    LimitsExact(m, 1, s);
    WithinV2(m, 1, Decode(Standard, 1, s).v);
  }

  // ---------------------------------------------------------------- which overflow it is

  datatype Overflow = Nothing | First(what: Limit)

  /** The first check that v fails, in the order of its bytes; a container's count is looked at before its depth. */
  ghost function FirstOver(m: Mode, depth: nat, v: Value): Overflow
    requires !m.Standard?
    decreases v, 1
  {
    match v
    case Blob(kind, body) =>
      var most := if kind == StrK then m.lim.strs else if kind == BinK then m.lim.bins else m.lim.exts;
      if m.V2? then if Shown(|body|) > most then First(BodyLimit(kind)) else Nothing
      else if |body| > most && !m.ref(kind, |body|) then First(BodyLimit(kind)) else Nothing
    case Cont(isMap, items) =>
      if isMap && |items| / 2 > m.lim.maps then First(CountLimit(true))
      else if !isMap && |items| > m.lim.arrays then First(CountLimit(false))
      else if depth > m.lim.depth && (m.V2? || items != []) then First(DepthLimit)
      else FirstOverAll(m, depth + 1, items)
    case _ => Nothing
  }

  ghost function FirstOverAll(m: Mode, depth: nat, vs: seq<Value>): Overflow
    requires !m.Standard?
    decreases vs, 0
  {
    if vs == [] then Nothing
    else
      match FirstOver(m, depth, vs[0])
      case Nothing => FirstOverAll(m, depth, vs[1..])
      case o => o
  }

  /** A complete message throws the overflow of the first check that it fails, if there is one. */
  lemma {:induction false} ThrowsFirst(m: Mode, depth: nat, s: seq<byte>)
    requires !m.Standard? && Decode(Standard, depth, s).Done?
    ensures var (o, first) := (Decode(Standard, depth, s), FirstOver(m, depth, Decode(Standard, depth, s).v));
            Decode(m, depth, s) == if first.First? then Over(first.what) else Done(Delivered(m, o.v), o.rest)
    decreases |s|, 0
  {
    hide Tok, Kept;
    TokInMode(m, s);
    TokFits(s);
    var t := Tok(Standard, s);
    if t.Open? {
      var o := DecodeAll(Standard, depth + 1, Slots(t.isMap, t.count), t.rest);
      assert Count(t.isMap, o.vs) == t.count;
      ThrowsFirstAll(m, depth + 1, Slots(t.isMap, t.count), t.rest);
    }
  }

  lemma {:induction false} ThrowsFirstAll(m: Mode, depth: nat, k: nat, s: seq<byte>)
    requires !m.Standard? && DecodeAll(Standard, depth, k, s).AllDone?
    ensures var (o, first) := (DecodeAll(Standard, depth, k, s),
                               FirstOverAll(m, depth, DecodeAll(Standard, depth, k, s).vs));
            DecodeAll(m, depth, k, s) ==
            if first.First? then Stopped(Over(first.what)) else AllDone(AllDelivered(m, o.vs), o.rest)
    decreases |s|, 1
  {
    hide Tok, FirstOver, Delivered;
    if k != 0 {
      ThrowsFirst(m, depth, s);
      var first := Decode(Standard, depth, s);
      ThrowsFirstAll(m, depth, k - 1, first.rest);
      var vs := DecodeAll(Standard, depth, k, s).vs;
      assert vs[0] == first.v && vs[1..] == DecodeAll(Standard, depth, k - 1, first.rest).vs;
    }
  }

  // ---------------------------------------------------------------- what the limits of v1 bound

  /** v1 looks at the size of a body only to copy it. */
  ghost predicate CopiesWithin(lim: Limits, ref: (Kind, nat) -> bool, v: Value)
    decreases v, 1
  {
    match v
    case Blob(StrK, body) => ref(StrK, |body|) || |body| <= lim.strs
    case Blob(BinK, body) => ref(BinK, |body|) || |body| <= lim.bins
    case Blob(ExtK, body) => ref(ExtK, |body|) || |body| <= lim.exts
    case Cont(isMap, items) =>
      Count(isMap, items) <= (if isMap then lim.maps else lim.arrays) && AllCopiesWithin(lim, ref, items)
    case _ => true
  }

  ghost predicate AllCopiesWithin(lim: Limits, ref: (Kind, nat) -> bool, vs: seq<Value>)
    decreases vs, 0
  {
    vs != [] ==> CopiesWithin(lim, ref, vs[0]) && AllCopiesWithin(lim, ref, vs[1..])
  }

  /** How deep containers are nested that are not empty. */
  ghost function FullNesting(v: Value): nat
    decreases v, 1
  {
    if v.Cont? && v.items != [] then 1 + MaxFullNesting(v.items) else 0
  }

  ghost function MaxFullNesting(vs: seq<Value>): nat
    decreases vs, 0
  {
    if vs == [] then 0
    else if FullNesting(vs[0]) >= MaxFullNesting(vs[1..]) then FullNesting(vs[0])
    else MaxFullNesting(vs[1..])
  }

  /** The checks of v1 are bounds on counts, on copied sizes and on the nesting of what is not empty. */
  lemma {:induction false} WithinV1(m: Mode, depth: nat, v: Value)
    requires m.V1? && depth > 0 && WellFormed(v)
    ensures Within(m, depth, v) <==>
            CopiesWithin(m.lim, m.ref, v) && (FullNesting(v) == 0 || depth - 1 + FullNesting(v) <= m.lim.depth)
    decreases v, 1
  {
    if v.Cont? {
      AllWithinV1(m, depth + 1, v.items);
    }
  }

  lemma {:induction false} AllWithinV1(m: Mode, depth: nat, vs: seq<Value>)
    requires m.V1? && depth > 0 && AllWellFormed(vs)
    ensures AllWithin(m, depth, vs) <==>
            && AllCopiesWithin(m.lim, m.ref, vs)
            && (MaxFullNesting(vs) == 0 || depth - 1 + MaxFullNesting(vs) <= m.lim.depth)
    decreases vs, 0
  {
    if vs != [] {
      WithinV1(m, depth, vs[0]);
      AllWithinV1(m, depth, vs[1..]);
    }
  }

  /**
   v1 parses a complete message without an overflow exactly when what it copies and its full nesting are within the
   limits.
   */
  lemma ParsesWithinV1(m: Mode, s: seq<byte>)
    requires m.V1? && Decode(Standard, 1, s).Done?
    ensures Decode(m, 1, s).Done? || Decode(m, 1, s).Over?
    ensures var v := Decode(Standard, 1, s).v;
            Decode(m, 1, s).Done? <==> CopiesWithin(m.lim, m.ref, v) && FullNesting(v) <= m.lim.depth
  {
    hide Tok, Decode;
    Shortest(1, s);
    LimitsExact(m, 1, s);
    WithinV1(m, 1, Decode(Standard, 1, s).v);
  }

  // ---------------------------------------------------------------- without limits

  /** What a parser has when no limits are given: all of them are the largest 32-bit number. */
  const DEFAULT_LIMITS := var max := TWO_TO_THE_32 - 1; Limits(max, max, max, max, max, max)

  /**
   Limits that no input of these bytes can reach at this depth. Only an ext with its type byte can have 2^32 bytes.
   */
  predicate Roomy(lim: Limits, depth: nat, len: nat) {
    var max := TWO_TO_THE_32 - 1;
    && lim.arrays >= max && lim.maps >= max && lim.strs >= max && lim.bins >= max && lim.exts >= max
    && (lim.exts > max || len <= TWO_TO_THE_32)
    && depth + len <= lim.depth + 1
  }

  ghost function Lift(m: Mode, o: Outcome): Outcome {
    if o.Done? then Done(Delivered(m, o.v), o.rest) else o
  }

  ghost function LiftAll(m: Mode, o: Outcomes): Outcomes {
    if o.AllDone? then AllDone(AllDelivered(m, o.vs), o.rest) else o
  }

  /** Without limits a parser differs from the standard only in the bodies that it keeps. */
  lemma {:induction false} Unlimited(m: Mode, depth: nat, s: seq<byte>)
    requires !m.Standard? && Roomy(m.lim, depth, |s|)
    ensures Decode(m, depth, s) == Lift(m, Decode(Standard, depth, s))
    decreases |s|, 0
  {
    hide Tok, Kept;
    TokInMode(m, s);
    TokFits(s);
    var t := Tok(Standard, s);
    if t.Open? {
      UnlimitedAll(m, depth + 1, Slots(t.isMap, t.count), t.rest);
    }
  }

  lemma {:induction false} UnlimitedAll(m: Mode, depth: nat, k: nat, s: seq<byte>)
    requires !m.Standard? && Roomy(m.lim, depth, |s|)
    ensures DecodeAll(m, depth, k, s) == LiftAll(m, DecodeAll(Standard, depth, k, s))
    decreases |s|, 1
  {
    hide Tok, Delivered;
    if k != 0 {
      Unlimited(m, depth, s);
      var o := Decode(Standard, depth, s);
      if o.Done? {
        UnlimitedAll(m, depth, k - 1, o.rest);
        var t := DecodeAll(Standard, depth, k - 1, o.rest);
        if t.AllDone? {
          assert ([o.v] + t.vs)[1..] == t.vs;
        }
      }
    }
  }

  // ---------------------------------------------------------------- the one value that v2 cannot copy

  /** Somewhere in v there is an ext of 2^32 bytes with its type byte, and v2 copies it, seeing a size of zero. */
  ghost predicate LosesExt(m: Mode, v: Value)
    decreases v, 1
  {
    match v
    case Blob(kind, body) => kind == ExtK && |body| == TWO_TO_THE_32 && m.V2? && !m.ref(ExtK, 0)
    case Cont(_, items) => AnyLosesExt(m, items)
    case _ => false
  }

  ghost predicate AnyLosesExt(m: Mode, vs: seq<Value>)
    decreases vs, 0
  {
    vs != [] && (LosesExt(m, vs[0]) || AnyLosesExt(m, vs[1..]))
  }

  lemma {:induction false} DeliveredWhole(m: Mode, v: Value)
    requires WellFormed(v)
    ensures m.V2? ==> (Delivered(m, v) == v <==> !LosesExt(m, v))
    ensures !m.V2? ==> Delivered(m, v) == v
    decreases v, 1
  {
    match v
    case Cont(_, items) => AllDeliveredWhole(m, items);
    case Blob(kind, body) => assert body[..|body|] == body;
    case _ =>
  }

  lemma {:induction false} AllDeliveredWhole(m: Mode, vs: seq<Value>)
    requires AllWellFormed(vs)
    ensures m.V2? ==> (AllDelivered(m, vs) == vs <==> !AnyLosesExt(m, vs))
    ensures !m.V2? ==> AllDelivered(m, vs) == vs
    decreases vs, 0
  {
    if vs != [] {
      DeliveredWhole(m, vs[0]);
      AllDeliveredWhole(m, vs[1..]);
      assert vs == [vs[0]] + vs[1..];
      assert AllDelivered(m, vs)[1..] == AllDelivered(m, vs[1..]);
    }
  }

  /**
   A parser that does not throw gives the standard's outcome, up to the bodies that it keeps, whatever its limits are.
   */
  lemma {:induction false} NotThrown(m: Mode, depth: nat, s: seq<byte>)
    requires !Decode(m, depth, s).Over?
    ensures Decode(m, depth, s) == Lift(m, Decode(Standard, depth, s))
    decreases |s|, 0
  {
    hide Tok, Kept, OverBody;
    TokInMode(m, s);
    var t := Tok(Standard, s);
    if t.Open? {
      NotThrownAll(m, depth + 1, Slots(t.isMap, t.count), t.rest);
    }
  }

  lemma {:induction false} NotThrownAll(m: Mode, depth: nat, k: nat, s: seq<byte>)
    requires var o := DecodeAll(m, depth, k, s); o.Stopped? ==> !o.why.Over?
    ensures DecodeAll(m, depth, k, s) == LiftAll(m, DecodeAll(Standard, depth, k, s))
    decreases |s|, 1
  {
    hide Tok, Delivered;
    if k != 0 {
      NotThrown(m, depth, s);
      var o := Decode(Standard, depth, s);
      if o.Done? {
        NotThrownAll(m, depth, k - 1, o.rest);
        var t := DecodeAll(Standard, depth, k - 1, o.rest);
        if t.AllDone? {
          assert ([o.v] + t.vs)[1..] == t.vs;
        }
      }
    }
  }

  /**
   The two parsers agree on every input, complete or not, valid or not, that neither of them refuses for its limits,
   except that v2 loses the bytes of an ext of 2^32 bytes that it has to copy. v1 always gives what the standard says.
   */
  lemma ParsersAgree(lim: Limits, ref: (Kind, nat) -> bool, s: seq<byte>)
    ensures var (o, o1, o2) := (Decode(Standard, 1, s), Decode(V1(lim, ref), 1, s), Decode(V2(lim, ref), 1, s));
            && (!o1.Over? ==> o1 == o)
            && (!o2.Over? ==> o2 == Lift(V2(lim, ref), o))
            && (!o1.Over? && !o2.Over? ==> (o1 == o2 <==> !(o.Done? && LosesExt(V2(lim, ref), o.v))))
  {
    hide Tok, Decode;
    var o := Decode(Standard, 1, s);
    if !Decode(V1(lim, ref), 1, s).Over? {
      NotThrown(V1(lim, ref), 1, s);
    }
    if !Decode(V2(lim, ref), 1, s).Over? {
      NotThrown(V2(lim, ref), 1, s);
    }
    if o.Done? {
      Shortest(1, s);
      DeliveredWhole(V1(lim, ref), o.v);
      DeliveredWhole(V2(lim, ref), o.v);
    }
  }

  // ---------------------------------------------------------------- v2 is the stricter parser

  /** v1 does not refuse to copy an ext of 2^32 bytes, or there is none. */
  ghost predicate TakesWide(lim: Limits, ref: (Kind, nat) -> bool, len: nat) {
    ref(ExtK, TWO_TO_THE_32) || lim.exts >= TWO_TO_THE_32 || len <= TWO_TO_THE_32
  }

  lemma TokThrowsLess(lim: Limits, ref: (Kind, nat) -> bool, s: seq<byte>)
    requires TakesWide(lim, ref, |s|)
    ensures var (t1, t2) := (Tok(V1(lim, ref), s), Tok(V2(lim, ref), s));
            t1.NoToken? && t1.why.Over? ==> t2.NoToken? && t2.why.Over?
  {
    hide Tok, Kept;
    TokInMode(V1(lim, ref), s);
    TokInMode(V2(lim, ref), s);
    TokFits(s);
    TokNeverOver(s);
  }

  lemma {:induction false} ThrowsLess(lim: Limits, ref: (Kind, nat) -> bool, depth: nat, s: seq<byte>)
    requires TakesWide(lim, ref, |s|) && !Decode(V2(lim, ref), depth, s).Over?
    ensures !Decode(V1(lim, ref), depth, s).Over?
    decreases |s|, 0
  {
    hide Tok, TakesWide;
    TokThrowsLess(lim, ref, s);
    TokInMode(V1(lim, ref), s);
    TokInMode(V2(lim, ref), s);
    var t := Tok(Standard, s);
    if t.Open? {
      TakesWideOn(lim, ref, |s|, |t.rest|);
      ThrowsLessAll(lim, ref, depth + 1, Slots(t.isMap, t.count), t.rest);
    }
  }

  lemma {:induction false} ThrowsLessAll(lim: Limits, ref: (Kind, nat) -> bool, depth: nat, k: nat, s: seq<byte>)
    requires TakesWide(lim, ref, |s|)
    requires var o := DecodeAll(V2(lim, ref), depth, k, s); o.Stopped? ==> !o.why.Over?
    ensures var o := DecodeAll(V1(lim, ref), depth, k, s); o.Stopped? ==> !o.why.Over?
    decreases |s|, 1
  {
    hide Tok, TakesWide;
    if k != 0 {
      ThrowsLess(lim, ref, depth, s);
      NotThrown(V1(lim, ref), depth, s);
      NotThrown(V2(lim, ref), depth, s);
      var o := Decode(Standard, depth, s);
      if o.Done? {
        TakesWideOn(lim, ref, |s|, |o.rest|);
        ThrowsLessAll(lim, ref, depth, k - 1, o.rest);
      }
    }
  }

  lemma TakesWideOn(lim: Limits, ref: (Kind, nat) -> bool, len: nat, len': nat)
    requires TakesWide(lim, ref, len) && len' <= len
    ensures TakesWide(lim, ref, len')
  {
  }

  /**
   Whatever v1 refuses v2 refuses too, on every input, exactly when v1 does not refuse to copy an ext of 2^32 bytes.
   */
  lemma V2Stricter(lim: Limits, ref: (Kind, nat) -> bool)
    ensures (forall s :: Decode(V1(lim, ref), 1, s).Over? ==> Decode(V2(lim, ref), 1, s).Over?) <==>
            ref(ExtK, TWO_TO_THE_32) || lim.exts >= TWO_TO_THE_32
  {
    hide Decode, Tok;
    if ref(ExtK, TWO_TO_THE_32) || lim.exts >= TWO_TO_THE_32 {
      forall s | Decode(V1(lim, ref), 1, s).Over? ensures Decode(V2(lim, ref), 1, s).Over? {
        if !Decode(V2(lim, ref), 1, s).Over? {
          ThrowsLess(lim, ref, 1, s);
        }
      }
    } else {
      ParsersDiffer(lim, ref);
      assert Decode(V1(lim, ref), 1, WideExt()).Over? && !Decode(V2(lim, ref), 1, WideExt()).Over?;
    }
  }

  lemma {:induction false} LosesExtLong(m: Mode, v: Value)
    requires WellFormed(v) && LosesExt(m, v)
    ensures |Encode(v)| > TWO_TO_THE_32
    decreases v, 1
  {
    if v.Cont? {
      AnyLosesExtLong(m, v.items);
    }
  }

  lemma {:induction false} AnyLosesExtLong(m: Mode, vs: seq<Value>)
    requires AllWellFormed(vs) && AnyLosesExt(m, vs)
    ensures |EncodeAll(vs)| > TWO_TO_THE_32
    decreases vs, 0
  {
    if LosesExt(m, vs[0]) {
      LosesExtLong(m, vs[0]);
    } else {
      AnyLosesExtLong(m, vs[1..]);
    }
  }

  /** In particular they agree on every input of at most 4 GiB that cannot reach the limits. */
  lemma ParsersAgreeShort(lim: Limits, ref: (Kind, nat) -> bool, s: seq<byte>)
    requires Roomy(lim, 1, |s|) && |s| <= TWO_TO_THE_32
    ensures Decode(V1(lim, ref), 1, s) == Decode(V2(lim, ref), 1, s) == Decode(Standard, 1, s)
  {
    hide Tok, Decode, Roomy;
    ParsersAgree(lim, ref, s);
    Unlimited(V1(lim, ref), 1, s);
    Unlimited(V2(lim, ref), 1, s);
    StandardNeverOver(1, s);
    var o := Decode(Standard, 1, s);
    if o.Done? && LosesExt(V2(lim, ref), o.v) {
      Shortest(1, s);
      LosesExtLong(V2(lim, ref), o.v);
    }
  }

  /** That is every input of less than 4 GiB when no limits are given. */
  lemma ParsersAgreeByDefault(ref: (Kind, nat) -> bool, s: seq<byte>)
    requires |s| < TWO_TO_THE_32
    ensures Decode(V1(DEFAULT_LIMITS, ref), 1, s) == Decode(V2(DEFAULT_LIMITS, ref), 1, s) == Decode(Standard, 1, s)
  {
    hide Tok, Decode;
    ParsersAgreeShort(DEFAULT_LIMITS, ref, s);
  }

  /** An ext32 of the largest length: 2^32 - 1 bytes of data and the type byte. */
  ghost function WideExt(): seq<byte> {
    [0xc9, 0xff, 0xff, 0xff, 0xff] + Zeros(TWO_TO_THE_32)
  }

  /** The input on which they differ, with any limits: v1 may refuse to copy it, and v2 copies nothing of it. */
  lemma ParsersDiffer(lim: Limits, ref: (Kind, nat) -> bool)
    ensures var body := Zeros(TWO_TO_THE_32);
            && Decode(Standard, 1, WideExt()) == Done(Blob(ExtK, body), [])
            && Decode(V1(lim, ref), 1, WideExt()) == (if !ref(ExtK, TWO_TO_THE_32) && lim.exts < TWO_TO_THE_32
                                                      then Over(BodyLimit(ExtK)) else Done(Blob(ExtK, body), []))
            && Decode(V2(lim, ref), 1, WideExt()) == Done(Blob(ExtK, if ref(ExtK, 0) then body else []), [])
  {
    hide Tok, Store, Load, Encode, Decode;
    var body := Zeros(TWO_TO_THE_32);
    var s := WideExt();
    assert SizedBodyOf(body, s) by { SizedBodyIs(body, s); }
    assert Tok(Standard, s) == Leaf(Blob(ExtK, body), []);
    LeafDecodes(Standard, s);
    TokInMode(V1(lim, ref), s);
    LeafDecodes(V1(lim, ref), s);
    TokInMode(V2(lim, ref), s);
    LeafDecodes(V2(lim, ref), s);
  }

  ghost predicate SizedBodyOf(body: seq<byte>, s: seq<byte>) {
    Tok(Standard, s) == Leaf(Blob(ExtK, body), [])
  }

  lemma SizedBodyIs(body: seq<byte>, s: seq<byte>)
    requires |body| == TWO_TO_THE_32 && s == [0xc9, 0xff, 0xff, 0xff, 0xff] + body
    ensures SizedBodyOf(body, s)
  {
    hide Tok, Store, Body;
    Pow256Widths();
    var n := TWO_TO_THE_32 - 1;
    var x: seq<byte> := [0xff, 0xff, 0xff, 0xff];
    AllOnes(x);
    StoreLoad(x);
    TokSized(Standard, ExtK, 2, n, body);
    BodyReads(Standard, ExtK, body, []);
    assert body + [] == body;
    assert s == [0xc9] + x + body;
  }

  lemma AllOnes(x: seq<byte>)
    requires x == [0xff, 0xff, 0xff, 0xff]
    ensures Load(x) == TWO_TO_THE_32 - 1
  {
    assert x[..3] == [0xff, 0xff, 0xff] && x[..3][..2] == [0xff, 0xff] && x[..3][..2][..1] == [0xff];
    assert Load([0xff]) == 0xff;
    assert Load(x[..3][..2]) == 0xffff;
    assert Load(x[..3]) == 0xff_ffff;
  }

  lemma LeafDecodes(m: Mode, s: seq<byte>)
    ensures Tok(m, s).Leaf? ==> Decode(m, 1, s) == Done(Tok(m, s).v, Tok(m, s).rest)
    ensures Tok(m, s).NoToken? ==> Decode(m, 1, s) == Tok(m, s).why
  {
    hide Tok;
  }
}
