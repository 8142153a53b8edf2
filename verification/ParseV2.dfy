/**
 The resumable byte parser (v2 context), driving the object visitor. Its contract does not mention chunks: a call
 returns what decoding all the bytes since the last reset would give, and leaves a state that tracks them.
 */
module ParseV2 {
  import opened Bytes
  import opened Format
  import opened Resumption
  import opened StateTokens
  import opened Arena
  import opened ObjectVisitor
  import opened Parsing

  /** The parser's stack and the visitor's stack, each read off the other. */
  lemma TwoStacks(z: Zone, stk: seq<Ptr>, es: seq<Elem>, fs: seq<Frame>, j: nat)
    requires Coupled(z, stk, fs) && Mirrors(es, fs) && j < |es|
    ensures |stk| == |es| + 1
    ensures var o := Slot(z, stk[j]);
            && o.OCont? && stk[j + 1].blk == o.blk
            && (es[j].kind == ArrayItem ==> !o.isMap && stk[j + 1].off == o.size - es[j].rest)
            && (es[j].kind == MapKey ==> o.isMap && stk[j + 1].off == 2 * (o.size - es[j].rest))
            && (es[j].kind == MapValue ==> o.isMap && stk[j + 1].off == 2 * (o.size - es[j].rest) + 1)
  {
    hide Holds;
    assert Level(z, stk[j], stk[j + 1], fs[j], Hi(z, stk, j));
  }

  /** How far references can reach: after an exception, anywhere. */
  ghost function Reach(ret: ParseReturn, end: nat, at: nat): nat {
    if ret.Threw? || ret == ParseError then end else at
  }

  class Context {
    const visitor: Visitor
    var cs: nat
    var trail: nat
    var current: nat
    var stack: seq<Elem>
    ghost var consumed: seq<byte>
    ghost var frames: seq<Frame>
    ghost var value: Value

    constructor (visitor: Visitor)
      requires visitor.zone == [[ONil]] && visitor.stack == [Ptr(0, 0)] && Recorded(visitor.zone, visitor.refs)
      ensures this.visitor == visitor && Ready() && consumed == []
    {
      this.visitor := visitor;
      cs, trail, current, stack := CS_HEADER, 0, 0, [];
      consumed, frames := [], [];
      new;
      TracksStart(visitor.M());
    }

    ghost predicate Live()
      reads this, visitor
    {
      Coupled(visitor.zone, visitor.stack, frames) && Mirrors(stack, frames) && Recorded(visitor.zone, visitor.refs)
    }

    /** Between calls: the state tracks the consumed bytes and the next slot to fill is empty. */
    ghost predicate Ready()
      reads this, visitor
    {
      Live() && Vacant(visitor.zone, visitor.stack) && Tracks(visitor.M(), consumed, cs, trail, frames)
    }

    /** The consumed bytes end with the value v, and the visitor has it in its top slot. */
    ghost predicate Filled(v: Value)
      reads this, visitor
    {
      Live() && TopHolds(visitor.zone, visitor.stack, v) && Delivers(visitor.M(), consumed, frames, v)
    }

    ghost predicate After(ret: ParseReturn)
      reads this, visitor
    {
      match ret
      case Continue => Ready()
      case Success => frames == [] && Filled(value)
      case ParseError => Ends(visitor.M(), consumed, Bad)
      case Threw(what) => Ends(visitor.M(), consumed, Over(what))
      case _ => false
    }

    /** init: forgets the message in progress. */
    method Init()
      requires visitor.zone != [] && Recorded(visitor.zone, visitor.refs)
      modifies this, visitor`zone, visitor`stack
      ensures Ready() && consumed == []
      ensures visitor.zone == old(visitor.zone)[0 := [ONil]]
    {
      cs, trail, stack := CS_HEADER, 0, [];
      visitor.Init();
      consumed, frames := [], [];
      TracksStart(visitor.M());
    }

    /** The next message starts in a zone of its own. */
    method Restart()
      requires visitor.zone != [] && Recorded(visitor.zone, visitor.refs)
      modifies this, visitor`zone, visitor`stack, visitor`refs
      ensures Ready() && consumed == [] && visitor.refs == {}
    {
      hide Coupled, Mirrors, Recorded, Vacant, Tracks;
      visitor.SetZone();
      Init();
      visitor.Forget();
    }

    /** The flag is no part of the parse. */
    method SetReferenced(referenced: bool)
      modifies visitor`referenced
      ensures visitor.referenced == referenced && Ready() == old(Ready())
    {
      hide Coupled, Mirrors, Recorded, Vacant, Tracks;
      visitor.SetReferenced(referenced);
    }

    /** The value v fills its slot and another slot of the container is next. */
    method Next(e: Elem, ghost v: Value)
      requires Filled(v) && frames != [] && !Fills(frames) && e == ElemOf(Top(Add(frames, v)))
      modifies this`stack, this`frames, visitor`stack
      ensures Live() && Vacant(visitor.zone, visitor.stack) && Tracks(visitor.M(), consumed, CS_HEADER, 0, frames)
    {
      hide TracksOn, DeliversOn, Level, Delivers;
      AdvanceTop(visitor.zone, visitor.stack, frames, v);
      TrackItem(visitor.M(), consumed, frames, v);
      visitor.EndItem();
      stack := Pop(stack) + [e];
      frames := Add(frames, v);
    }

    /** The value v fills the last slot of its container, which is then a complete value itself. */
    method Finish(ghost v: Value) returns (ghost v': Value)
      requires Filled(v) && frames != [] && Fills(frames)
      modifies this`stack, this`frames, visitor`stack
      ensures Filled(v') && |stack| == |old(stack)| - 1
    {
      hide TracksOn, DeliversOn, Level, Delivers, Holds;
      var f := Top(frames);
      CloseTop(visitor.zone, visitor.stack, frames, v);
      TrackClose(visitor.M(), consumed, frames, v);
      visitor.EndItem();
      stack := Pop(stack);
      visitor.EndContainer();
      frames := Pop(frames);
      v' := Cont(f.isMap, f.done + [v]);
    }

    /** The consume loop: a complete value fills slots upwards until some container still has one to fill. */
    method Consume(ghost v0: Value) returns (ret: ParseReturn)
      requires Filled(v0)
      modifies this`stack, this`frames, this`value, visitor`stack
      ensures ret == Success || ret == Continue
      ensures ret == Success ==> frames == [] && Filled(value)
      ensures ret == Continue ==>
                Live() && Vacant(visitor.zone, visitor.stack) && Tracks(visitor.M(), consumed, CS_HEADER, 0, frames)
    {
      hide Coupled, Tracks, Delivers, TopHolds, Recorded, Vacant;
      ghost var v := v0;
      while stack != []
        invariant Filled(v)
        decreases |stack|
      {
        var e := Top(stack);
        assert e == ElemOf(Top(frames));
        assert |frames[|frames| - 1].done| < Need(frames[|frames| - 1]);
        match e.kind
        case ArrayItem =>
          if e.rest - 1 == 0 {
            v := Finish(v);
          } else {
            Next(Elem(ArrayItem, e.rest - 1), v);
            return Continue;
          }
        case MapKey =>
          Next(Elem(MapValue, e.rest), v);
          return Continue;
        case MapValue =>
          if e.rest - 1 == 0 {
            v := Finish(v);
          } else {
            Next(Elem(MapKey, e.rest - 1), v);
            return Continue;
          }
      }
      value := v;
      return Success;
    }

    /** after_visit_proc: steps over the last byte of the value and consumes it. */
    method AfterVisit(ghost v: Value) returns (ret: ParseReturn)
      requires Filled(v)
      modifies this`cs, this`current, this`stack, this`frames, this`value, visitor`stack
      ensures current == old(current) + 1
      ensures ret == Success || ret == Continue
      ensures After(ret) && (ret == Continue ==> cs == CS_HEADER)
    {
      hide Coupled, Tracks, Delivers, TopHolds, Recorded, Vacant, Mirrors;
      current := current + 1;
      ret := Consume(v);
      cs := CS_HEADER;
      if ret == Continue {
        TrackHeader(visitor.M(), consumed, 0, frames, trail);
      }
    }

    /** What a visit of a leaf with the object o leaves for AfterVisit, once the bytes x count as consumed. */
    lemma Visited(x: seq<byte>, v: Value, o: Obj)
      requires Ready() && Emits(visitor.M(), Pending(cs, trail) + x, Leaf(v, [])) && IsLeaf(o, v)
      ensures visitor.CanWrite()
      ensures Delivers(visitor.M(), consumed + x, frames, v)
      ensures var z := Put(visitor.zone, Top(visitor.stack), o);
              Coupled(z, visitor.stack, frames) && TopHolds(z, visitor.stack, v)
    {
      hide Tracks, Delivers, Emits, Pending, Level;
      TrackLeaf(visitor.M(), consumed, cs, trail, frames, x, v);
      PutTop(visitor.zone, visitor.stack, frames, o);
    }

    lemma EmptyStarted(isMap: bool, x: seq<byte>)
      requires Ready() && Emits(visitor.M(), Pending(cs, trail) + x, Open(isMap, 0, []))
      requires !OverCount(visitor.M(), isMap, 0) && !OverDepth(visitor.M(), |frames| + 1, 0)
      ensures Delivers(visitor.M(), consumed + x, frames, Cont(isMap, []))
      ensures var z := Put(visitor.zone, Top(visitor.stack), OCont(isMap, 0, 0));
              Coupled(z, visitor.stack, frames) && TopHolds(z, visitor.stack, Cont(isMap, []))
    {
      hide Tracks, Delivers, Emits, Pending, Level, OverCount, OverDepth;
      TrackEmpty(visitor.M(), consumed, cs, trail, frames, x, isMap);
      PutTop(visitor.zone, visitor.stack, frames, OCont(isMap, 0, 0));
    }

    lemma OpenStarted(isMap: bool, n: nat, x: seq<byte>)
      requires Ready() && Emits(visitor.M(), Pending(cs, trail) + x, Open(isMap, n, [])) && n > 0
      requires !OverCount(visitor.M(), isMap, n) && !OverDepth(visitor.M(), |frames| + 1, n)
      ensures Tracks(visitor.M(), consumed + x, CS_HEADER, 0, frames + [Frame(isMap, n, [])])
      ensures var o := OCont(isMap, n, |visitor.zone|);
              var z := Put(visitor.zone, Top(visitor.stack), o) + [RawBlock(Slots(isMap, n))];
              var stk := visitor.stack + [Ptr(|visitor.zone|, 0)];
              Coupled(z, stk, frames + [Frame(isMap, n, [])]) && Vacant(z, stk)
      ensures Mirrors(stack + [Elem(if isMap then MapKey else ArrayItem, n)], frames + [Frame(isMap, n, [])])
    {
      hide Tracks, Emits, Pending, Level, OverCount, OverDepth;
      TrackOpen(visitor.M(), consumed, cs, trail, frames, x, isMap, n);
      OpenTop(visitor.zone, visitor.stack, frames, isMap, n);
    }

    /** start_aggregate: the header of a container of n items or pairs, of which x was read last. */
    method StartAggregate(isMap: bool, n: nat, ghost x: seq<byte>) returns (ret: ParseReturn)
      requires Ready() && Emits(visitor.M(), Pending(cs, trail) + x, Open(isMap, n, []))
      modifies this, visitor`zone, visitor`stack
      ensures current == old(current) + 1 && consumed == old(consumed) + x
      ensures After(ret) && ret != ParseError && (ret == Continue ==> cs == CS_HEADER)
    {
      hide Tracks, Delivers, Coupled, Pending, Emits, Holds, Recorded, TopHolds, Mirrors, Vacant;
      current := current + 1;
      if n == 0 {
        ret := EmptyAggregate(isMap, x);
      } else {
        ret := OpenAggregate(isMap, n, x);
      }
      if ret == Continue {
        cs := CS_HEADER;
        TrackHeader(visitor.M(), consumed, 0, frames, trail);
      }
    }

    method EmptyAggregate(isMap: bool, ghost x: seq<byte>) returns (ret: ParseReturn)
      requires Ready() && Emits(visitor.M(), Pending(cs, trail) + x, Open(isMap, 0, []))
      modifies this`stack, this`frames, this`value, this`consumed, visitor`zone, visitor`stack
      ensures consumed == old(consumed) + x && ret != ParseError
      ensures ret != Continue ==> After(ret)
      ensures ret == Continue ==>
                Live() && Vacant(visitor.zone, visitor.stack) && Tracks(visitor.M(), consumed, CS_HEADER, 0, frames)
    {
      hide Tracks, Delivers, Coupled, Pending, Emits, OverCount, OverDepth, Holds, Recorded, TopHolds, Mirrors, Vacant;
      CanWriteNow();
      if OverCount(visitor.M(), isMap, 0) || OverDepth(visitor.M(), |frames| + 1, 0) {
        OverEnds(visitor.M(), consumed, cs, trail, frames, x, isMap, 0);
      } else {
        EmptyStarted(isMap, x);
      }
      var r := visitor.StartContainer(isMap, 0);
      consumed := consumed + x;
      if r.Throws? {
        return Threw(r.what);
      }
      visitor.EndContainer();
      ret := Consume(Cont(isMap, []));
    }

    method OpenAggregate(isMap: bool, n: nat, ghost x: seq<byte>) returns (ret: ParseReturn)
      requires Ready() && Emits(visitor.M(), Pending(cs, trail) + x, Open(isMap, n, [])) && n > 0
      modifies this`stack, this`frames, this`consumed, visitor`zone, visitor`stack
      ensures consumed == old(consumed) + x && (ret == Continue || ret.Threw?)
      ensures ret != Continue ==> After(ret)
      ensures ret == Continue ==>
                Live() && Vacant(visitor.zone, visitor.stack) && Tracks(visitor.M(), consumed, CS_HEADER, 0, frames)
    {
      hide Tracks, Delivers, Coupled, Pending, Emits, OverCount, OverDepth, Holds, Recorded, TopHolds, Mirrors, Vacant;
      CanWriteNow();
      if OverCount(visitor.M(), isMap, n) || OverDepth(visitor.M(), |frames| + 1, n) {
        OverEnds(visitor.M(), consumed, cs, trail, frames, x, isMap, n);
      } else {
        OpenStarted(isMap, n, x);
      }
      var r := visitor.StartContainer(isMap, n);
      consumed := consumed + x;
      if r.Throws? {
        return Threw(r.what);
      }
      stack := stack + [Elem(if isMap then MapKey else ArrayItem, n)];
      frames := frames + [Frame(isMap, n, [])];
      return Continue;
    }

    lemma CanWriteNow()
      requires Live()
      ensures visitor.CanWrite() && |visitor.stack| == |frames| + 1
    {
    }

    /** The visit of a body, whose token ends with x; the body itself is at offset off of the buffer. */
    method BodyVisit(kind: Kind, buf: nat, off: nat, bytes: seq<byte>, ghost data: seq<byte>, ghost end: nat,
                     ghost x: seq<byte>)
      returns (ret: ParseReturn)
      requires Ready() && Emits(visitor.M(), Pending(cs, trail) + x, BodyToken(visitor.M(), kind, bytes))
      requires |bytes| < TWO_TO_THE_32 + (if kind == ExtK then 1 else 0)
      requires off + |bytes| <= end <= |data| && off < end && bytes == data[off..off + |bytes|]
      modifies this, visitor
      ensures consumed == old(consumed) + x && (ret.Threw? || current == old(current) + 1)
      ensures After(ret) && ret != ParseError && (ret == Continue ==> cs == CS_HEADER)
      ensures Grew(old(visitor.refs), old(visitor.referenced), visitor.refs, visitor.referenced, buf, data, off, end)
    {
      hide Tracks, Delivers, Emits, Pending, Coupled, Holds, Mirrors, Recorded, IsLeaf, OverBody, Kept, Copied, Vacant;
      ghost var m, z, stk := visitor.M(), visitor.zone, visitor.stack;
      ghost var v := Blob(kind, Kept(m, kind, bytes));
      CanWriteNow();
      if OverBody(m, kind, |bytes|) {
        StopEnds(visitor.M(), consumed, cs, trail, frames, x, Over(BodyLimit(kind)));
      } else {
        TrackLeaf(m, consumed, cs, trail, frames, x, v);
      }
      var r, o := visitor.VisitBody(kind, buf, off, bytes);
      consumed := consumed + x;
      if r.Throws? {
        return Threw(r.what);
      }
      PutTop(z, stk, frames, o);
      LeafHolds(o, v, Top(stk).blk + 1, visitor.zone);
      ret := AfterVisit(v);
    }

    /** The header bytes that are values by themselves. */
    method Scalar(b: byte) returns (ret: ParseReturn)
      requires Ready() && cs == CS_HEADER && (b <= 0x7f || 0xe0 <= b || b in {0xc0, 0xc2, 0xc3})
      modifies this, visitor`zone, visitor`stack
      ensures consumed == old(consumed) + [b] && current == old(current) + 1
      ensures (ret == Success || ret == Continue) && After(ret) && (ret == Continue ==> cs == CS_HEADER)
    {
      hide Tracks, Delivers, Emits, Pending, Coupled, Holds, Mirrors, Recorded;
      var i := b as int - 256;
      ghost var v :=
        if b <= 0x7f then UInt(b) else if 0xe0 <= b then NInt(i)
        else if b == 0xc0 then Nil else Bool(b == 0xc3);
      ghost var o :=
        if b <= 0x7f then OPos(b) else if 0xe0 <= b then ONeg(i)
        else if b == 0xc0 then ONil else OBool(b == 0xc3);
      HeaderLeaf(visitor.M(), trail, b, v);
      Visited([b], v, o);
      if b <= 0x7f {
        visitor.VisitPositiveInteger(b);
      } else if 0xe0 <= b {
        visitor.VisitNegativeInteger(i);
      } else if b == 0xc2 || b == 0xc3 {
        visitor.VisitBoolean(b == 0xc3);
      } else {
        visitor.VisitNil();
      }
      consumed := consumed + [b];
      ret := AfterVisit(v);
    }

    /** The header branch: one byte decides the value, the container, or the trail to wait for. */
    method Header(data: seq<byte>, buf: nat) returns (ret: ParseReturn, again: bool)
      requires Ready() && cs == CS_HEADER && current < |data|
      modifies this, visitor
      ensures consumed == old(consumed) + [data[old(current)]]
      ensures After(ret) && (ret == ParseError ==> data[old(current)] == 0xc1)
      ensures again ==> ret == Continue && cs != CS_HEADER
      ensures ret == Continue && !again ==> cs == CS_HEADER
      ensures ret.Threw? || current == if ret == ParseError || again then old(current) else old(current) + 1
      ensures Grew(old(visitor.refs), old(visitor.referenced), visitor.refs, visitor.referenced, buf, data,
                   old(current), old(current) + 1)
    {
      hide Tracks, Delivers, Emits, Pending, Coupled, Holds, Mirrors, Recorded, TrailOf, Vacant, OverBody, Kept;
      var b := data[current];
      again := false;
      if b <= 0x7f || 0xe0 <= b || b == 0xc0 || b == 0xc2 || b == 0xc3 {
        ret := Scalar(b);
      } else if 0xc4 <= b <= 0xdf {
        var table := [1, 2, 4, 1, 2, 4, 4, 8, 1, 2, 4, 8, 1, 2, 4, 8, 2, 3, 5, 9, 17, 1, 2, 4, 2, 4, 2, 4];
        TrailTable(table, b);
        HeaderPends(visitor.M(), consumed, cs, trail, frames, b, b % 32, table[b - 0xc4]);
        trail := table[b - 0xc4];
        cs := b % 32;
        consumed := consumed + [b];
        return Continue, true;
      } else if b == 0xa0 {
        HeaderLeaf(visitor.M(), trail, b, Blob(StrK, []));
        EmptyToken(visitor.M(), StrK);
        ret := BodyVisit(StrK, buf, current, [], data, current + 1, [b]);
      } else if 0xa0 <= b <= 0xbf {
        HeaderPends(visitor.M(), consumed, cs, trail, frames, b, CS_STR_VALUE, b - 0xa0);
        trail := b - 0xa0;
        cs := CS_STR_VALUE;
        consumed := consumed + [b];
        return Continue, true;
      } else if 0x90 <= b <= 0x9f {
        HeaderOpen(visitor.M(), trail, b);
        ret := StartAggregate(false, b % 16, [b]);
      } else if 0x80 <= b <= 0x8f {
        HeaderOpen(visitor.M(), trail, b);
        ret := StartAggregate(true, b % 16, [b]);
      } else {
        HeaderBad(visitor.M(), trail);
        StopEnds(visitor.M(), consumed, cs, trail, frames, [b], Bad);
        consumed := consumed + [b];
        ret := ParseError;
      }
    }

    /** The states that read the length of a str, bin or ext. */
    method Size(data: seq<byte>, buf: nat) returns (ret: ParseReturn, again: bool)
      requires Ready() && (0x04 <= cs <= 0x09 || 0x19 <= cs <= 0x1b) && current + trail <= |data|
      modifies this, visitor
      ensures consumed == old(consumed) + data[old(current)..old(current) + old(trail)]
      ensures After(ret) && ret != ParseError
      ensures again ==> ret == Continue && CS_STR_VALUE <= cs <= CS_EXT_VALUE
      ensures ret == Continue && !again ==> cs == CS_HEADER
      ensures ret.Threw? || current == old(current) + old(trail) - (if again then 1 else 0)
      ensures Grew(old(visitor.refs), old(visitor.referenced), visitor.refs, visitor.referenced, buf, data,
                   old(current), old(current) + old(trail))
    {
      hide Tracks, Delivers, Pending, Emits, Coupled, Holds, Recorded, Mirrors, Vacant, TrailOf, Load, OverBody, Kept;
      TracksOk(visitor.M(), consumed, cs, trail, frames);
      ghost var c := consumed;
      var n := current;
      var x := data[n..n + trail];
      current := current + (trail - 1);
      var kind := if cs <= 0x06 then BinK else if cs <= 0x09 then ExtK else StrK;
      var len := if kind == ExtK then Load(x) + 1 else Load(x);
      if len == 0 {
        TrailEmpty(visitor.M(), cs, x);
        EmptyToken(visitor.M(), kind);
        ret := BodyVisit(kind, buf, n, [], data, n + 1, x);
        again := false;
      } else {
        SizePends(visitor.M(), consumed, cs, trail, frames, x);
        trail := len;
        cs := ValueState(kind);
        consumed := consumed + x;
        ret, again := Continue, true;
      }
    }

    /** The states that read a number of fixed width. */
    method Numeral(data: seq<byte>) returns (ret: ParseReturn)
      requires Ready() && 0x0a <= cs <= 0x13 && current + trail <= |data|
      modifies this, visitor`zone, visitor`stack
      ensures consumed == old(consumed) + data[old(current)..old(current) + old(trail)]
      ensures (ret == Success || ret == Continue) && After(ret) && (ret == Continue ==> cs == CS_HEADER)
      ensures current == old(current) + old(trail)
    {
      hide Tracks, Delivers, Pending, Emits, Coupled, Holds, Recorded, Mirrors, Vacant, TrailOf, Load, Signed;
      TracksOk(visitor.M(), consumed, cs, trail, frames);
      var x := data[current..current + trail];
      ghost var v := NumberValue(NumberOf(cs).0, x);
      TrailNumber(visitor.M(), cs, x);
      current := current + (trail - 1);
      if cs == 0x0a {
        Visited(x, v, OF32(Load(x)));
        visitor.VisitFloat32(Load(x));
      } else if cs == 0x0b {
        Visited(x, v, OF64(Load(x)));
        visitor.VisitFloat64(Load(x));
      } else if cs <= 0x0f {
        Visited(x, v, OPos(Load(x)));
        visitor.VisitPositiveInteger(Load(x));
      } else {
        var i := Signed(Load(x), |x|);
        Visited(x, v, if i >= 0 then OPos(i) else ONeg(i));
        visitor.VisitNegativeInteger(i);
      }
      consumed := consumed + x;
      ret := AfterVisit(v);
    }

    /** The trail branch: the bytes that the state waits for are there. */
    method Trail(data: seq<byte>, buf: nat) returns (ret: ParseReturn, again: bool)
      requires Ready() && cs != CS_HEADER && current + trail <= |data|
      modifies this, visitor
      ensures consumed == old(consumed) + data[old(current)..old(current) + old(trail)]
      ensures After(ret) && ret != ParseError
      ensures again ==> ret == Continue && CS_STR_VALUE <= cs <= CS_EXT_VALUE && old(cs) < CS_STR_VALUE
      ensures ret == Continue && !again ==> cs == CS_HEADER
      ensures ret.Threw? || current == old(current) + old(trail) - (if again then 1 else 0)
      ensures Grew(old(visitor.refs), old(visitor.referenced), visitor.refs, visitor.referenced, buf, data,
                   old(current), old(current) + old(trail))
    {
      hide Tracks, Delivers, Pending, Emits, Coupled, Holds, Recorded, Mirrors, Vacant, TrailOf, Load, OverBody, Kept,
          BodyToken;
      TracksOk(visitor.M(), consumed, cs, trail, frames);
      var n := current;
      var x := data[n..n + trail];
      again := false;
      if 0x0a <= cs <= 0x13 {
        ret := Numeral(data);
      } else if 0x14 <= cs <= 0x18 {
        TrailFixext(visitor.M(), cs, x);
        FixextSmall(cs);
        current := current + (trail - 1);
        ret := BodyVisit(ExtK, buf, n, x, data, n + trail, x);
      } else if cs <= 0x09 || 0x19 <= cs <= 0x1b {
        ret, again := Size(data, buf);
      } else if CS_STR_VALUE <= cs <= CS_EXT_VALUE {
        TrailBody(visitor.M(), cs, x);
        current := current + (trail - 1);
        ret := BodyVisit(KindOf(cs), buf, n, x, data, n + trail, x);
      } else {
        TrailOpen(visitor.M(), cs, x);
        current := current + (trail - 1);
        ret := StartAggregate(cs >= 0x1e, Load(x), x);
      }
    }

    /** The byte position up to which the bytes count as consumed. */
    ghost function Position(again: bool): nat
      reads this`current
    {
      current + (if again then 1 else 0)
    }

    /** The trail section of the loop; stop says that execute returns. */
    method TrailPass(data: seq<byte>, buf: nat, again: bool) returns (stop: bool, ret: ParseReturn, again': bool)
      requires Ready() && cs != CS_HEADER && Position(again) <= |data|
      modifies this, visitor
      ensures After(ret)
      ensures ret.Threw? || old(Position(again)) <= Position(again') <= |data|
      ensures !stop ==> ret == Continue && consumed == old(consumed) + data[old(Position(again))..Position(again')]
      ensures !stop && again' ==> current < |data| && cs != CS_HEADER
      ensures !stop ==> old(Position(again)) < Position(again')
      ensures !stop && again' ==> cs >= CS_STR_VALUE && old(cs) < CS_STR_VALUE
      ensures stop ==>
                && !again'
                && Answers(visitor.M(), old(consumed), data, old(Position(again)), ret, current, value, consumed)
      ensures Grew(old(visitor.refs), old(visitor.referenced), visitor.refs, visitor.referenced, buf, data,
                   old(Position(again)), Reach(ret, |data|, Position(again')))
    {
      hide Tracks, Delivers, Coupled, Holds, Recorded, Mirrors, Vacant, Decode, Grew, Answers;
      ghost var c, refs, flag := consumed, visitor.refs, visitor.referenced;
      if again {
        current := current + 1;
      }
      ghost var pos := current;
      GrewNone(refs, flag, buf, data, pos);
      TrailPositive(visitor.M(), consumed, cs, trail, frames);
      if |data| - current < trail {
        AnswerMore(visitor.M(), consumed, cs, trail, frames, c, data, pos, current, value);
        return true, Continue, false;
      }
      ghost var end := current + trail;
      ret, again' := Trail(data, buf);
      GrewWiden(refs, flag, visitor.refs, visitor.referenced, buf, data, pos, end, pos, Reach(ret, |data|, end));
      stop := ret != Continue;
      if stop {
        AnswerFinal(visitor.M(), consumed, c, data, pos, end, ret, current, value);
        again' := false;
      }
    }

    /** One pass of the loop; stop says that execute returns. */
    method Pass(data: seq<byte>, buf: nat, again: bool) returns (stop: bool, ret: ParseReturn, again': bool)
      requires Ready() && current < |data| && (again ==> cs != CS_HEADER)
      modifies this, visitor
      ensures After(ret)
      ensures ret.Threw? || old(Position(again)) <= Position(again') <= |data|
      ensures !stop ==> ret == Continue && consumed == old(consumed) + data[old(Position(again))..Position(again')]
      ensures !stop && again' ==> current < |data| && cs != CS_HEADER
      ensures !stop ==>
                old(current) < current || (old(current) == current && cs >= CS_STR_VALUE && old(cs) < CS_STR_VALUE)
      ensures stop ==>
                && !again'
                && Answers(visitor.M(), old(consumed), data, old(Position(again)), ret, current, value, consumed)
      ensures Grew(old(visitor.refs), old(visitor.referenced), visitor.refs, visitor.referenced, buf, data,
                   old(Position(again)), Reach(ret, |data|, Position(again')))
    {
      hide Tracks, Delivers, Coupled, Holds, Recorded, Mirrors, Vacant, Decode, Grew, Answers;
      if cs != CS_HEADER {
        stop, ret, again' := TrailPass(data, buf, again);
        return;
      }
      ghost var m, c, pos := visitor.M(), consumed, current;
      ghost var refs, flag := visitor.refs, visitor.referenced;
      ret, again' := Header(data, buf);
      ghost var refs1, flag1 := visitor.refs, visitor.referenced;
      GrewWiden(refs, flag, refs1, flag1, buf, data, pos, pos + 1, pos, Reach(ret, |data|, Position(again')));
      if ret != Continue {
        AnswerFinal(visitor.M(), consumed, c, data, pos, pos + 1, ret, current, value);
        return true, ret, false;
      }
      OneByte(c, data, pos);
      if !again' {
        return false, Continue, false;
      }
      stop, ret, again' := TrailPass(data, buf, true);
      GrewOn(refs, flag, refs1, flag1, visitor.refs, visitor.referenced, buf, data, pos, pos + 1,
             Reach(ret, |data|, Position(again')));
      if stop {
        AnswerJoin(m, c, data, pos, pos + 1, ret, current, value, consumed);
      } else {
        Cuts(c, data, pos, pos + 1, Position(again'));
      }
    }

    /**
     The parser proper. Whatever the calls before it were, the outcome is that of decoding all the bytes since the
     last reset, and off moves to the first byte that was not consumed.
     */
    method Execute(data: seq<byte>, off: nat, buf: nat) returns (ret: ParseReturn, off': nat)
      requires Ready() && off <= |data|
      modifies this, visitor
      ensures off <= off' <= |data| && After(ret)
      ensures ret.Threw? ==> off' == off
      ensures Answers(visitor.M(), old(consumed), data, off, ret, off', value, consumed)
      ensures Grew(old(visitor.refs), old(visitor.referenced), visitor.refs, visitor.referenced, buf, data,
                   off, Reach(ret, |data|, off'))
    {
      hide Tracks, Delivers, Coupled, Holds, Recorded, Mirrors, Vacant, Decode, Grew, Answers;
      current := off;
      ghost var m, c := visitor.M(), consumed;
      ghost var refs0, flag0 := visitor.refs, visitor.referenced;
      var again := false;
      GrewNone(refs0, flag0, buf, data, off);
      while current != |data|
        invariant off <= Position(again) <= |data|
        invariant again ==> current < |data| && cs != CS_HEADER
        invariant Ready()
        invariant consumed == c + data[off..Position(again)]
        invariant Grew(refs0, flag0, visitor.refs, visitor.referenced, buf, data, off, Position(again))
        decreases |data| - current, if cs >= CS_STR_VALUE then 0 else 1
      {
        ghost var c1, pos, refs, flag := consumed, Position(again), visitor.refs, visitor.referenced;
        var stop;
        stop, ret, again := Pass(data, buf, again);
        GrewOn(refs0, flag0, refs, flag, visitor.refs, visitor.referenced, buf, data,
               off, pos, Reach(ret, |data|, Position(again)));
        if stop {
          AnswerJoin(m, c, data, off, pos, ret, current, value, consumed);
          return ret, if ret.Threw? then off else current;
        }
        Cuts(c, data, off, pos, Position(again));
      }
      if cs != CS_HEADER {
        TrailPositive(visitor.M(), consumed, cs, trail, frames);
      }
      AnswerMore(visitor.M(), consumed, cs, trail, frames, c, data, off, current, value);
      return Continue, current;
    }
  }
}
