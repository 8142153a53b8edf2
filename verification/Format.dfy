/**
 The MessagePack format: values, the shortest encoding that the packer writes, and a recursive
 reference decoder. The decoder takes the unread bytes and gives back the bytes that follow the value,
 so it knows nothing of cursors, states or buffers.
 */
module Format {
  import opened Bytes

  datatype Kind = StrK | BinK | ExtK

  /** A map's items are its keys and values in turn. An ext body starts with its type byte. */
  datatype Value =
    | Nil
    | Bool(b: bool)
    | UInt(n: nat)
    | NInt(i: int)
    | F32(bits32: nat)
    | F64(bits64: nat)
    | Blob(kind: Kind, body: seq<byte>)
    | Cont(isMap: bool, items: seq<Value>)

  datatype Limits = Limits(arrays: nat, maps: nat, strs: nat, bins: nat, exts: nat, depth: nat)

  /** What a parser does beyond the standard: its limits and its reference-or-copy function. */
  datatype Mode =
    | Standard
    | V1(lim: Limits, ref: (Kind, nat) -> bool)
    | V2(lim: Limits, ref: (Kind, nat) -> bool)

  datatype Limit = CountLimit(isMap: bool) | BodyLimit(kind: Kind) | DepthLimit

  datatype Outcome =
    | Done(v: Value, rest: seq<byte>)
    | More
    | Bad
    | Over(what: Limit)

  datatype Outcomes =
    | AllDone(vs: seq<Value>, rest: seq<byte>)
    | Stopped(why: Outcome)

  /** One header, with its body when it is not a container. */
  datatype Token =
    | Leaf(v: Value, rest: seq<byte>)
    | Open(isMap: bool, count: nat, rest: seq<byte>)
    | NoToken(why: Outcome)

  // ---------------------------------------------------------------- limits

  function SizeLimit(lim: Limits, kind: Kind): nat {
    match kind case StrK => lim.strs case BinK => lim.bins case ExtK => lim.exts
  }

  predicate OverCount(m: Mode, isMap: bool, n: nat) {
    !m.Standard? && n > (if isMap then m.lim.maps else m.lim.arrays)
  }

  /** v1 tests the depth only when it has to push, v2 for empty containers too. */
  predicate OverDepth(m: Mode, depth: nat, n: nat) {
    !m.Standard? && depth > m.lim.depth && (m.V1? ==> n > 0)
  }

  /** v2 passes body sizes through a 32-bit parameter. */
  function SizeArg(m: Mode, len: nat): (size: nat)
    ensures size <= len
  {
    if m.V2? then len % TWO_TO_THE_32 else len
  }

  predicate Copied(m: Mode, kind: Kind, len: nat) {
    !m.Standard? && !m.ref(kind, SizeArg(m, len))
  }

  /** v1 tests a body's size only when it copies it, v2 always. */
  predicate OverBody(m: Mode, kind: Kind, len: nat) {
    !m.Standard? && SizeArg(m, len) > SizeLimit(m.lim, kind) && (m.V1? ==> Copied(m, kind, len))
  }

  function Kept(m: Mode, kind: Kind, bytes: seq<byte>): seq<byte> {
    if Copied(m, kind, |bytes|) then bytes[..SizeArg(m, |bytes|)] else bytes
  }

  // ---------------------------------------------------------------- decoding

  ghost predicate Reads(t: Token, s: seq<byte>) {
    if t.NoToken? then !t.why.Done? else |t.rest| <= |s| && (t.Leaf? ==> !t.v.Cont?)
  }

  function Body(m: Mode, kind: Kind, len: nat, s: seq<byte>): (t: Token)
    ensures Reads(t, s) && !t.Open?
  {
    if |s| < len then NoToken(More)
    else if OverBody(m, kind, len) then NoToken(Over(BodyLimit(kind)))
    else Leaf(Blob(kind, Kept(m, kind, s[..len])), s[len..])
  }

  /** The length that a body has, given the length that its header shows: an ext has a type byte. */
  function BodyLen(kind: Kind, shown: nat): nat {
    if kind == ExtK then shown + 1 else shown
  }

  function SizedBody(m: Mode, kind: Kind, w: nat, s: seq<byte>): (t: Token)
    ensures Reads(t, s) && !t.Open?
  {
    if |s| < w then NoToken(More)
    else Body(m, kind, BodyLen(kind, Load(s[..w])), s[w..])
  }

  function SizedOpen(isMap: bool, w: nat, s: seq<byte>): (t: Token)
    ensures Reads(t, s)
  {
    if |s| < w then NoToken(More) else Open(isMap, Load(s[..w]), s[w..])
  }

  datatype Number = Single | Double | Unsigned | SignedInt

  function NumberValue(k: Number, s: seq<byte>): Value {
    match k
    case Single => F32(Load(s))
    case Double => F64(Load(s))
    case Unsigned => UInt(Load(s))
    case SignedInt =>
      var i := Signed(Load(s), |s|);
      if i >= 0 then UInt(i) else NInt(i)
  }

  function Fixed(k: Number, w: nat, s: seq<byte>): (t: Token)
    ensures Reads(t, s) && !t.Open?
  {
    if |s| < w then NoToken(More) else Leaf(NumberValue(k, s[..w]), s[w..])
  }

  /** The i-th width in 1, 2, 4, 8, 16. */
  function Width(i: int): nat {
    match i case 0 => 1 case 1 => 2 case 2 => 4 case 3 => 8 case _ => 16
  }

  /** A header in 0xc4..0xdf has a fixed number of bytes after it. */
  function LongToken(m: Mode, b: byte, t: seq<byte>): (tok: Token)
    requires 0xc4 <= b <= 0xdf
    ensures Reads(tok, t)
  {
    if b <= 0xc6 then SizedBody(m, BinK, Width(b - 0xc4), t)
    else if b <= 0xc9 then SizedBody(m, ExtK, Width(b - 0xc7), t)
    else if b == 0xca then Fixed(Single, 4, t)
    else if b == 0xcb then Fixed(Double, 8, t)
    else if b <= 0xcf then Fixed(Unsigned, Width(b - 0xcc), t)
    else if b <= 0xd3 then Fixed(SignedInt, Width(b - 0xd0), t)
    else if b <= 0xd8 then Body(m, ExtK, 1 + Width(b - 0xd4), t)
    else if b <= 0xdb then SizedBody(m, StrK, Width(b - 0xd9), t)
    else if b <= 0xdd then SizedOpen(false, Width(b - 0xdb), t)
    else SizedOpen(true, Width(b - 0xdd), t)
  }

  function Tok(m: Mode, s: seq<byte>): (tok: Token)
    ensures if s == [] then tok == NoToken(More) else Reads(tok, s[1..])
    ensures tok.NoToken? ==> !tok.why.Done?
  {
    if s == [] then NoToken(More) else
    var b, t := s[0], s[1..];
    if b <= 0x7f then Leaf(UInt(b), t)
    else if b <= 0x8f then Open(true, b - 0x80, t)
    else if b <= 0x9f then Open(false, b - 0x90, t)
    else if b <= 0xbf then Body(m, StrK, b - 0xa0, t)
    else if b == 0xc0 then Leaf(Nil, t)
    else if b == 0xc1 then NoToken(Bad)
    else if b <= 0xc3 then Leaf(Bool(b == 0xc3), t)
    else if b <= 0xdf then LongToken(m, b, t)
    else Leaf(NInt(b as int - 256), t)
  }

  function Slots(isMap: bool, count: nat): nat {
    if isMap then 2 * count else count
  }

  /** Reads one value; depth is one more than the number of containers around it. */
  function Decode(m: Mode, depth: nat, s: seq<byte>): (o: Outcome)
    ensures o.Done? ==> |o.rest| < |s|
    decreases |s|, 0
  {
    match Tok(m, s)
    case Leaf(v, rest) => Done(v, rest)
    case NoToken(why) => why
    case Open(isMap, n, rest) =>
      if OverCount(m, isMap, n) then Over(CountLimit(isMap))
      else if OverDepth(m, depth, n) then Over(DepthLimit)
      else
        match DecodeAll(m, depth + 1, Slots(isMap, n), rest)
        case AllDone(vs, rest') => Done(Cont(isMap, vs), rest')
        case Stopped(why) => why
  }

  /** Reads k values in a row. */
  function DecodeAll(m: Mode, depth: nat, k: nat, s: seq<byte>): (o: Outcomes)
    ensures o.AllDone? ==> |o.rest| <= |s| && |o.vs| == k
    ensures o.Stopped? ==> !o.why.Done?
    decreases |s|, 1
  {
    if k == 0 then AllDone([], s)
    else
      match Decode(m, depth, s)
      case Done(v, rest) =>
        (match DecodeAll(m, depth, k - 1, rest)
         case AllDone(vs, rest') => AllDone([v] + vs, rest')
         case Stopped(why) => Stopped(why))
      case o => Stopped(o)
  }

  // ---------------------------------------------------------------- reading the front of the bytes

  lemma FixedReads(k: Number, x: seq<byte>, r: seq<byte>)
    ensures Fixed(k, |x|, x + r) == Leaf(NumberValue(k, x), r)
  {
    assert (x + r)[..|x|] == x && (x + r)[|x|..] == r;
  }

  lemma BodyReads(m: Mode, kind: Kind, x: seq<byte>, r: seq<byte>)
    ensures Body(m, kind, |x|, x + r)
         == if OverBody(m, kind, |x|) then NoToken(Over(BodyLimit(kind))) else Leaf(Blob(kind, Kept(m, kind, x)), r)
  {
    assert (x + r)[..|x|] == x && (x + r)[|x|..] == r;
  }

  lemma SizedBodyReads(m: Mode, kind: Kind, x: seq<byte>, r: seq<byte>)
    ensures SizedBody(m, kind, |x|, x + r) == Body(m, kind, BodyLen(kind, Load(x)), r)
  {
    hide Load, Body, BodyLen;
    assert (x + r)[..|x|] == x && (x + r)[|x|..] == r;
  }

  lemma SizedOpenReads(isMap: bool, x: seq<byte>, r: seq<byte>)
    ensures SizedOpen(isMap, |x|, x + r) == Open(isMap, Load(x), r)
  {
    hide Load;
    assert (x + r)[..|x|] == x && (x + r)[|x|..] == r;
  }

  lemma TokLong(m: Mode, b: byte, t: seq<byte>)
    requires 0xc4 <= b <= 0xdf
    ensures Tok(m, [b] + t) == LongToken(m, b, t)
  {
    hide LongToken;
    assert ([b] + t)[1..] == t;
  }

  /** The header 0xd9, 0xda or 0xdb (0xc4.. for bin, 0xc7.. for ext) shows the length in 1, 2 or 4 bytes. */
  lemma TokSized(m: Mode, kind: Kind, i: nat, n: nat, r: seq<byte>)
    requires i <= 2 && n < Pow256(Width(i))
    ensures Tok(m, [SizedCode(kind) + i] + Store(n, Width(i)) + r) == Body(m, kind, BodyLen(kind, n), r)
  {
    hide Load, Store, Body, BodyLen;
    var x := Store(n, Width(i));
    var b := SizedCode(kind) + i;
    LoadStore(n, Width(i));
    assert [b] + x + r == [b] + (x + r);
    TokLong(m, b, x + r);
    SizedBodyReads(m, kind, x, r);
  }

  function SizedCode(kind: Kind): (b: nat)
    ensures 0xc4 <= b <= 0xd9
  {
    match kind case StrK => 0xd9 case BinK => 0xc4 case ExtK => 0xc7
  }

  lemma TokSizedOpen(m: Mode, isMap: bool, i: nat, n: nat, r: seq<byte>)
    requires 1 <= i <= 2 && n < Pow256(Width(i))
    ensures Tok(m, [(if isMap then 0xdd else 0xdb) + i] + Store(n, Width(i)) + r) == Open(isMap, n, r)
  {
    hide Load, Store;
    var x := Store(n, Width(i));
    var b := (if isMap then 0xdd else 0xdb) + i;
    LoadStore(n, Width(i));
    assert [b] + x + r == [b] + (x + r);
    TokLong(m, b, x + r);
    SizedOpenReads(isMap, x, r);
  }

  /** The number headers: two floats, and the unsigned and signed integers of 1, 2, 4 and 8 bytes. */
  function NumberCode(k: Number, i: nat): (b: nat)
    requires i <= 3
    ensures 0xca <= b <= 0xd3
  {
    match k case Single => 0xca case Double => 0xcb case Unsigned => 0xcc + i case SignedInt => 0xd0 + i
  }

  lemma TokNumber(m: Mode, k: Number, i: nat, x: seq<byte>, r: seq<byte>)
    requires i <= 3 && |x| == Width(i) && (k == Single ==> i == 2) && (k == Double ==> i == 3)
    ensures Tok(m, [NumberCode(k, i)] + x + r) == Leaf(NumberValue(k, x), r)
  {
    hide NumberValue;
    var b := NumberCode(k, i);
    assert [b] + x + r == [b] + (x + r);
    TokLong(m, b, x + r);
    FixedReads(k, x, r);
  }

  lemma TokShort(m: Mode, b: byte, r: seq<byte>)
    ensures b <= 0x7f ==> Tok(m, [b] + r) == Leaf(UInt(b), r)
    ensures 0x80 <= b <= 0x8f ==> Tok(m, [b] + r) == Open(true, b - 0x80, r)
    ensures 0x90 <= b <= 0x9f ==> Tok(m, [b] + r) == Open(false, b - 0x90, r)
    ensures 0xa0 <= b <= 0xbf ==> Tok(m, [b] + r) == Body(m, StrK, b - 0xa0, r)
    ensures b == 0xc0 ==> Tok(m, [b] + r) == Leaf(Nil, r)
    ensures b == 0xc1 ==> Tok(m, [b] + r) == NoToken(Bad)
    ensures 0xc2 <= b <= 0xc3 ==> Tok(m, [b] + r) == Leaf(Bool(b == 0xc3), r)
    ensures 0xd4 <= b <= 0xd8 ==> Tok(m, [b] + r) == Body(m, ExtK, 1 + Width(b - 0xd4), r)
    ensures 0xe0 <= b ==> Tok(m, [b] + r) == Leaf(NInt(b as int - 256), r)
  {
    hide Body;
    assert ([b] + r)[1..] == r;
  }
}
