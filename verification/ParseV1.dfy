/**
 The older parser (v1 context): it builds each value as an object of its own and stores the object into the container
 when it is complete. Another stack and another order of writes, and the same contract as v2, for its own mode.
 */
module ParseV1 {
  import opened Bytes
  import opened Format
  import opened Resumption
  import opened StateTokens
  import opened Arena
  import opened Parsing
  import opened PartialObjects

  const SCRATCH := Unit(ONil, 0, ArrayItem, ONil)

  /** unpack_int8 to unpack_int64. */
  function SignedObj(i: int): Obj {
    if i >= 0 then OPos(i) else ONeg(i)
  }

  class Context {
    const limit: Limits
    const func: (Kind, nat) -> bool
    var zone: Zone
    var referenced: bool
    var cs: nat
    var trail: nat
    var current: nat
    var stack: seq<Unit>
    ghost var consumed: seq<byte>
    ghost var frames: seq<Frame>
    ghost var value: Value

    ghost function M(): Mode {
      V1(limit, func)
    }

    constructor (limit: Limits, func: (Kind, nat) -> bool)
      ensures this.limit == limit && this.func == func
      ensures Ready() && consumed == []
    {
      this.limit, this.func := limit, func;
      zone, referenced := [], false;
      cs, trail, current, stack := CS_HEADER, 0, 0, [SCRATCH];
      consumed, frames := [], [];
      new;
      TracksStart(M());
    }

    ghost predicate Ready()
      reads this
    {
      Stacked(zone, stack, frames) && Tracks(M(), consumed, cs, trail, frames)
    }

    /** The consumed bytes end with the value v, and the object o is that value. */
    ghost predicate Filled(o: Obj, v: Value)
      reads this
    {
      Stacked(zone, stack, frames) && Holds(zone, o, v, Floor(stack), |zone|) && Delivers(M(), consumed, frames, v)
    }

    ghost predicate After(ret: ParseReturn)
      reads this
    {
      match ret
      case Continue => Ready()
      case Success => frames == [] && stack != [] && Filled(stack[0].obj, value)
      case ParseError => Ends(M(), consumed, Bad)
      case Threw(what) => Ends(M(), consumed, Over(what))
      case _ => false
    }

    /** init: forgets the message in progress. */
    method Init()
      requires stack != []
      modifies this
      ensures Ready() && consumed == [] && zone == old(zone)
    {
      cs, trail := CS_HEADER, 0;
      stack := stack[..1];
      stack := stack[0 := stack[0].(obj := ONil)];
      consumed, frames := [], [];
      TracksStart(M());
    }

    /** The object is stored in the innermost container, which is not full yet. */
    method StoreNext(o: Obj, ghost v: Value)
      requires Filled(o, v) && frames != [] && !Fills(frames)
      modifies this`zone, this`stack, this`frames
      ensures Stacked(zone, stack, frames) && Tracks(M(), consumed, CS_HEADER, 0, frames)
    {
      hide Tracks, Delivers, Holds, Partial, Takes, UnitAfter;
      StackTakes(zone, stack, frames, o, v);
      StackNext(zone, stack, frames, o, v);
      TrackItem(M(), consumed, frames, v);
      assert Takes(zone, Inner(stack), Top(frames), o, v);
      TakesRoom(zone, Inner(stack), Top(frames), o, v);
      var sp := Inner(stack);
      zone := ZoneAfter(zone, sp, o);
      stack := stack[|stack| - 2 := UnitAfter(sp, o)];
      frames := Add(frames, v);
    }

    /** The object fills the innermost container, which becomes the object to store. */
    method StoreLast(o: Obj, ghost v: Value) returns (o': Obj, ghost v': Value)
      requires Filled(o, v) && frames != [] && Fills(frames)
      modifies this`zone, this`stack, this`frames
      ensures Filled(o', v') && |stack| == |old(stack)| - 1
    {
      hide Tracks, Delivers, Holds, Partial, Takes, UnitAfter;
      StackTakes(zone, stack, frames, o, v);
      StackPop(zone, stack, frames, o, v);
      TrackClose(M(), consumed, frames, v);
      TakesRoom(zone, Inner(stack), Top(frames), o, v);
      var sp := Inner(stack);
      v' := Cont(Top(frames).isMap, Top(frames).done + [v]);
      zone := ZoneAfter(zone, sp, o);
      stack := stack[..|stack| - 2] + [UnitAfter(sp, o)];
      frames := Pop(frames);
      o' := UnitAfter(sp, o).obj;
    }

    /** push_item: stores the object, and every container that it completes, until some container is not full. */
    method PushItem(o0: Obj, ghost v0: Value) returns (finished: bool, o: Obj)
      requires Filled(o0, v0)
      modifies this`zone, this`stack, this`frames, this`value
      ensures finished ==> frames == [] && |stack| == 1 && Filled(o, value)
      ensures !finished ==> Stacked(zone, stack, frames) && Tracks(M(), consumed, CS_HEADER, 0, frames)
    {
      hide Tracks, Delivers, Holds, Partial, Takes;
      ghost var v := v0;
      o := o0;
      while |stack| != 1
        invariant Filled(o, v)
        decreases |stack|
      {
        StackTakes(zone, stack, frames, o, v);
        LastOne(zone, Inner(stack), Top(frames), o, v);
        var sp := Inner(stack);
        match sp.next
        case MapKey =>
          StoreNext(o, v);
          return false, o;
        case ArrayItem =>
          if sp.count - 1 == 0 {
            o, v := StoreLast(o, v);
          } else {
            StoreNext(o, v);
            return false, o;
          }
        case MapValue =>
          if sp.count - 1 == 0 {
            o, v := StoreLast(o, v);
          } else {
            StoreNext(o, v);
            return false, o;
          }
      }
      value := v;
      return true, o;
    }

    /** push_proc: a complete object goes into its container, or is the message. */
    method PushProc(o: Obj, ghost v: Value) returns (ret: ParseReturn)
      requires Filled(o, v)
      modifies this
      ensures current == old(current) + 1 && consumed == old(consumed) && referenced == old(referenced)
      ensures ret == Success || ret == Continue
      ensures After(ret) && (ret == Continue ==> cs == CS_HEADER)
    {
      hide Tracks, Delivers, Partial;
      var finished, obj := PushItem(o, v);
      current := current + 1;
      if finished {
        stack := stack[0 := stack[0].(obj := obj)];
        return Success;
      }
      cs := CS_HEADER;
      TrackHeader(M(), consumed, 0, frames, trail);
      return Continue;
    }

    /** unpack_array and unpack_map, then push_aggregate: the depth counts only when there is something to push. */
    method PushAggregate(isMap: bool, n: nat, ghost x: seq<byte>) returns (ret: ParseReturn)
      requires Ready() && Emits(M(), Pending(cs, trail) + x, Open(isMap, n, []))
      modifies this
      ensures consumed == old(consumed) + x && (ret.Threw? || current == old(current) + 1)
      ensures After(ret) && ret != ParseError && (ret == Continue ==> cs == CS_HEADER)
    {
      hide Tracks, Delivers, Emits, Pending, Partial, Holds;
      ghost var c := consumed;
      consumed := consumed + x;
      if n > (if isMap then limit.maps else limit.arrays) {
        OverEnds(M(), c, cs, trail, frames, x, isMap, n);
        return Threw(CountLimit(isMap));
      }
      var obj := OCont(isMap, 0, |zone|);
      if n == 0 {
        TrackEmpty(M(), c, cs, trail, frames, x, isMap);
        ret := PushEmpty(obj);
      } else if |stack| <= limit.depth {
        TrackOpen(M(), c, cs, trail, frames, x, isMap, n);
        StackPush(zone, stack, frames, isMap, n, SCRATCH);
        var u := Unit(obj, n, if isMap then MapKey else ArrayItem, Top(stack).key);
        zone := zone + [RawBlock(Slots(isMap, n))];
        stack := Pop(stack) + [u, SCRATCH];
        frames := frames + [Frame(isMap, n, [])];
        TrackHeader(M(), consumed, 0, frames, trail);
        cs := CS_HEADER;
        current := current + 1;
        ret := Continue;
      } else {
        OverEnds(M(), c, cs, trail, frames, x, isMap, n);
        ret := Threw(DepthLimit);
      }
    }

    /** An empty container: its object has a block of no slots. */
    method PushEmpty(obj: Obj) returns (ret: ParseReturn)
      requires obj.OCont? && obj.size == 0
      requires Stacked(zone, stack, frames) && Delivers(M(), consumed, frames, Cont(obj.isMap, []))
      modifies this
      ensures consumed == old(consumed) && current == old(current) + 1
      ensures (ret == Success || ret == Continue) && After(ret) && (ret == Continue ==> cs == CS_HEADER)
    {
      hide Tracks, Delivers, Partial;
      ZoneGrows(zone, [], stack, frames);
      zone := zone + [[]];
      LastScratch(zone, stack, frames, obj);
      stack := Pop(stack) + [Top(stack).(obj := obj)];
      ret := PushProc(obj, Cont(obj.isMap, []));
    }

    /** A leaf whose token ends with x, as an object of its own. */
    lemma LeafFilled(x: seq<byte>, v: Value, o: Obj)
      requires Ready() && Emits(M(), Pending(cs, trail) + x, Leaf(v, [])) && IsLeaf(o, v)
      ensures Delivers(M(), consumed + x, frames, v) && Holds(zone, o, v, Floor(stack), |zone|)
    {
      hide Tracks, Delivers, Emits, Pending, Partial;
      TrackLeaf(M(), consumed, cs, trail, frames, x, v);
    }

    /** unpack_str, unpack_bin and unpack_ext: a body that is left in the buffer may be over its limit. */
    method BodyPush(kind: Kind, buf: nat, off: nat, bytes: seq<byte>, ghost x: seq<byte>) returns (ret: ParseReturn)
      requires Ready() && Emits(M(), Pending(cs, trail) + x, BodyToken(M(), kind, bytes))
      requires |bytes| < TWO_TO_THE_32 + (if kind == ExtK then 1 else 0)
      modifies this
      ensures consumed == old(consumed) + x && (ret.Threw? || current == old(current) + 1)
      ensures After(ret) && ret != ParseError && (ret == Continue ==> cs == CS_HEADER)
    {
      hide Tracks, Delivers, Emits, Pending, Partial;
      var size := |bytes|;
      var inPlace := func(kind, size);
      if inPlace {
        referenced := true;
      } else if size > SizeLimit(limit, kind) {
        StopEnds(M(), consumed, cs, trail, frames, x, Over(BodyLimit(kind)));
        consumed := consumed + x;
        return Threw(BodyLimit(kind));
      }
      var sizeField := if kind == ExtK then (size + TWO_TO_THE_32 - 1) % TWO_TO_THE_32 else size;
      var o := OBlob(kind, sizeField, if inPlace then InBuffer(buf, off) else InZone, bytes);
      assert bytes[..|bytes|] == bytes;
      LeafFilled(x, Blob(kind, bytes), o);
      consumed := consumed + x;
      ret := PushProc(o, Blob(kind, bytes));
    }

    /** The header bytes that are values by themselves. */
    method Scalar(b: byte) returns (ret: ParseReturn)
      requires Ready() && cs == CS_HEADER && (b <= 0x7f || 0xe0 <= b || b in {0xc0, 0xc2, 0xc3})
      modifies this
      ensures consumed == old(consumed) + [b] && current == old(current) + 1
      ensures (ret == Success || ret == Continue) && After(ret) && (ret == Continue ==> cs == CS_HEADER)
    {
      hide Tracks, Delivers, Emits, Pending, Partial, Holds;
      var i := b as int - 256;
      var o :=
        if b <= 0x7f then OPos(b) else if 0xe0 <= b then SignedObj(i)
        else if b == 0xc0 then ONil else OBool(b == 0xc3);
      ghost var v :=
        if b <= 0x7f then UInt(b) else if 0xe0 <= b then NInt(i)
        else if b == 0xc0 then Nil else Bool(b == 0xc3);
      HeaderLeaf(M(), trail, b, v);
      LeafFilled([b], v, o);
      consumed := consumed + [b];
      ret := PushProc(o, v);
    }

    /** The header branch: one byte decides the value, the container, or the trail to wait for. */
    method Header(data: seq<byte>, buf: nat) returns (ret: ParseReturn, again: bool)
      requires Ready() && cs == CS_HEADER && current < |data|
      modifies this
      ensures consumed == old(consumed) + [data[old(current)]]
      ensures After(ret) && (ret == ParseError ==> data[old(current)] == 0xc1)
      ensures again ==> ret == Continue && cs != CS_HEADER
      ensures ret == Continue && !again ==> cs == CS_HEADER
      ensures ret.Threw? || current == if ret == ParseError || again then old(current) else old(current) + 1
    {
      hide Tracks, Delivers, Emits, Pending, Stacked, Holds, TrailOf, OverBody, Kept;
      var b := data[current];
      again := false;
      if b <= 0x7f || 0xe0 <= b || b == 0xc0 || b == 0xc2 || b == 0xc3 {
        ret := Scalar(b);
      } else if 0xc4 <= b <= 0xdf {
        var table := [1, 2, 4, 1, 2, 4, 4, 8, 1, 2, 4, 8, 1, 2, 4, 8, 2, 3, 5, 9, 17, 1, 2, 4, 2, 4, 2, 4];
        TrailTable(table, b);
        HeaderPends(M(), consumed, cs, trail, frames, b, b % 32, table[b - 0xc4]);
        trail := table[b - 0xc4];
        cs := b % 32;
        consumed := consumed + [b];
        return Continue, true;
      } else if b == 0xa0 {
        HeaderLeaf(M(), trail, b, Blob(StrK, []));
        EmptyToken(M(), StrK);
        ret := BodyPush(StrK, buf, current, [], [b]);
      } else if 0xa0 <= b <= 0xbf {
        HeaderPends(M(), consumed, cs, trail, frames, b, CS_STR_VALUE, b - 0xa0);
        trail := b - 0xa0;
        cs := CS_STR_VALUE;
        consumed := consumed + [b];
        return Continue, true;
      } else if 0x90 <= b <= 0x9f {
        HeaderOpen(M(), trail, b);
        ret := PushAggregate(false, b % 16, [b]);
      } else if 0x80 <= b <= 0x8f {
        HeaderOpen(M(), trail, b);
        ret := PushAggregate(true, b % 16, [b]);
      } else {
        HeaderBad(M(), trail);
        StopEnds(M(), consumed, cs, trail, frames, [b], Bad);
        consumed := consumed + [b];
        ret := ParseError;
      }
    }

    /** The states that read the length of a str, bin or ext. */
    method Size(data: seq<byte>, buf: nat) returns (ret: ParseReturn, again: bool)
      requires Ready() && (0x04 <= cs <= 0x09 || 0x19 <= cs <= 0x1b) && current + trail <= |data|
      modifies this
      ensures consumed == old(consumed) + data[old(current)..old(current) + old(trail)]
      ensures After(ret) && ret != ParseError
      ensures again ==> ret == Continue && CS_STR_VALUE <= cs <= CS_EXT_VALUE
      ensures ret == Continue && !again ==> cs == CS_HEADER
      ensures ret.Threw? || current == old(current) + old(trail) - (if again then 1 else 0)
    {
      hide Tracks, Delivers, Pending, Emits, Stacked, Holds, TrailOf, Load, OverBody, Kept;
      TracksOk(M(), consumed, cs, trail, frames);
      var n := current;
      var x := data[n..n + trail];
      current := current + (trail - 1);
      var kind := if cs <= 0x06 then BinK else if cs <= 0x09 then ExtK else StrK;
      var len := if kind == ExtK then Load(x) + 1 else Load(x);
      if len == 0 {
        TrailEmpty(M(), cs, x);
        EmptyToken(M(), kind);
        ret := BodyPush(kind, buf, n, [], x);
        again := false;
      } else {
        SizePends(M(), consumed, cs, trail, frames, x);
        trail := len;
        cs := ValueState(kind);
        consumed := consumed + x;
        ret, again := Continue, true;
      }
    }

    /** The states that read a number of fixed width. */
    method Numeral(data: seq<byte>) returns (ret: ParseReturn)
      requires Ready() && 0x0a <= cs <= 0x13 && current + trail <= |data|
      modifies this
      ensures consumed == old(consumed) + data[old(current)..old(current) + old(trail)]
      ensures (ret == Success || ret == Continue) && After(ret) && (ret == Continue ==> cs == CS_HEADER)
      ensures current == old(current) + old(trail)
    {
      hide Tracks, Delivers, Pending, Emits, Stacked, Holds, TrailOf, Load, Signed;
      TracksOk(M(), consumed, cs, trail, frames);
      var x := data[current..current + trail];
      var o := if cs == 0x0a then OF32(Load(x)) else if cs == 0x0b then OF64(Load(x))
               else if cs <= 0x0f then OPos(Load(x)) else SignedObj(Signed(Load(x), |x|));
      ghost var v := NumberValue(NumberOf(cs).0, x);
      TrailNumber(M(), cs, x);
      LeafFilled(x, v, o);
      current := current + (trail - 1);
      consumed := consumed + x;
      ret := PushProc(o, v);
    }

    /** The trail branch: the bytes that the state waits for are there. */
    method Trail(data: seq<byte>, buf: nat) returns (ret: ParseReturn, again: bool)
      requires Ready() && cs != CS_HEADER && current + trail <= |data|
      modifies this
      ensures consumed == old(consumed) + data[old(current)..old(current) + old(trail)]
      ensures After(ret) && ret != ParseError
      ensures again ==> ret == Continue && CS_STR_VALUE <= cs <= CS_EXT_VALUE && old(cs) < CS_STR_VALUE
      ensures ret == Continue && !again ==> cs == CS_HEADER
      ensures ret.Threw? || current == old(current) + old(trail) - (if again then 1 else 0)
    {
      hide Tracks, Delivers, Pending, Emits, Stacked, Holds, TrailOf, Load, OverBody, Kept, BodyToken;
      TracksOk(M(), consumed, cs, trail, frames);
      var n := current;
      var x := data[n..n + trail];
      again := false;
      if 0x0a <= cs <= 0x13 {
        ret := Numeral(data);
      } else if 0x14 <= cs <= 0x18 {
        TrailFixext(M(), cs, x);
        FixextSmall(cs);
        current := current + (trail - 1);
        ret := BodyPush(ExtK, buf, n, x, x);
      } else if cs <= 0x09 || 0x19 <= cs <= 0x1b {
        ret, again := Size(data, buf);
      } else if CS_STR_VALUE <= cs <= CS_EXT_VALUE {
        TrailBody(M(), cs, x);
        current := current + (trail - 1);
        ret := BodyPush(KindOf(cs), buf, n, x, x);
      } else {
        TrailOpen(M(), cs, x);
        current := current + (trail - 1);
        ret := PushAggregate(cs >= 0x1e, Load(x), x);
      }
    }

    /** The byte position up to which the bytes count as consumed. */
    ghost function Position(again: bool): nat
      reads this`current
    {
      current + (if again then 1 else 0)
    }

    /** The trail section of the loop; stop says that execute returns. */
    method TrailPass(data: seq<byte>, buf: nat, again: bool) returns (stop: bool, ret: ParseReturn, again': bool)
      requires Ready() && cs != CS_HEADER && Position(again) <= |data|
      modifies this
      ensures After(ret)
      ensures ret.Threw? || old(Position(again)) <= Position(again') <= |data|
      ensures !stop ==> ret == Continue && consumed == old(consumed) + data[old(Position(again))..Position(again')]
      ensures !stop && again' ==> current < |data| && cs != CS_HEADER
      ensures !stop ==> old(Position(again)) < Position(again')
      ensures !stop && again' ==> cs >= CS_STR_VALUE && old(cs) < CS_STR_VALUE
      ensures stop ==> !again' && Answers(M(), old(consumed), data, old(Position(again)), ret, current, value, consumed)
    {
      hide Tracks, Delivers, Stacked, Holds, Decode, Answers;
      ghost var c := consumed;
      if again {
        current := current + 1;
      }
      ghost var pos := current;
      TrailPositive(M(), consumed, cs, trail, frames);
      if |data| - current < trail {
        AnswerMore(M(), consumed, cs, trail, frames, c, data, pos, current, value);
        return true, Continue, false;
      }
      ghost var end := current + trail;
      ret, again' := Trail(data, buf);
      stop := ret != Continue;
      if stop {
        AnswerFinal(M(), consumed, c, data, pos, end, ret, current, value);
        again' := false;
      }
    }

    /** One pass of the loop; stop says that execute returns. */
    method Pass(data: seq<byte>, buf: nat, again: bool) returns (stop: bool, ret: ParseReturn, again': bool)
      requires Ready() && current < |data| && (again ==> cs != CS_HEADER)
      modifies this
      ensures After(ret)
      ensures ret.Threw? || old(Position(again)) <= Position(again') <= |data|
      ensures !stop ==> ret == Continue && consumed == old(consumed) + data[old(Position(again))..Position(again')]
      ensures !stop && again' ==> current < |data| && cs != CS_HEADER
      ensures !stop ==>
                old(current) < current || (old(current) == current && cs >= CS_STR_VALUE && old(cs) < CS_STR_VALUE)
      ensures stop ==> !again' && Answers(M(), old(consumed), data, old(Position(again)), ret, current, value, consumed)
    {
      hide Tracks, Delivers, Stacked, Holds, Decode, Answers;
      if cs != CS_HEADER {
        stop, ret, again' := TrailPass(data, buf, again);
        return;
      }
      ghost var m, c, pos := M(), consumed, current;
      ret, again' := Header(data, buf);
      if ret != Continue {
        AnswerFinal(m, consumed, c, data, pos, pos + 1, ret, current, value);
        return true, ret, false;
      }
      OneByte(c, data, pos);
      if !again' {
        return false, Continue, false;
      }
      stop, ret, again' := TrailPass(data, buf, true);
      if stop {
        AnswerJoin(m, c, data, pos, pos + 1, ret, current, value, consumed);
      } else {
        Cuts(c, data, pos, pos + 1, Position(again'));
      }
    }

    /** The parser proper: the same contract as v2, for the limits as v1 tests them. */
    method Execute(data: seq<byte>, off: nat, buf: nat) returns (ret: ParseReturn, off': nat)
      requires Ready() && off <= |data|
      modifies this
      ensures off <= off' <= |data| && After(ret)
      ensures ret.Threw? ==> off' == off
      ensures Answers(M(), old(consumed), data, off, ret, off', value, consumed)
    {
      hide Tracks, Delivers, Stacked, Holds, Decode, Answers;
      current := off;
      ghost var m, c := M(), consumed;
      var again := false;
      while current != |data|
        invariant off <= Position(again) <= |data|
        invariant again ==> current < |data| && cs != CS_HEADER
        invariant Ready()
        invariant consumed == c + data[off..Position(again)]
        decreases |data| - current, if cs >= CS_STR_VALUE then 0 else 1
      {
        ghost var pos := Position(again);
        var stop;
        stop, ret, again := Pass(data, buf, again);
        if stop {
          AnswerJoin(m, c, data, off, pos, ret, current, value, consumed);
          return ret, if ret.Threw? then off else current;
        }
        Cuts(c, data, off, pos, Position(again));
      }
      if cs != CS_HEADER {
        TrailPositive(m, consumed, cs, trail, frames);
      }
      AnswerMore(m, consumed, cs, trail, frames, c, data, off, current, value);
      return Continue, current;
    }
  }

  lemma TakesRoom(z: Zone, u: Unit, f: Frame, x: Obj, v: Value)
    requires Takes(z, u, f, x, v)
    ensures u.obj.OCont? && u.obj.blk < |z| && (u.next != MapKey ==> u.count > 0)
    ensures u.next == ArrayItem ==> u.obj.size < |z[u.obj.blk]|
    ensures u.next == MapValue ==> 2 * u.obj.size + 1 < |z[u.obj.blk]|
  {
    hide Holds, Partial;
  }

  /** The count tells whether the container is full. */
  lemma LastOne(z: Zone, u: Unit, f: Frame, x: Obj, v: Value)
    requires Takes(z, u, f, x, v)
    ensures u.count > 0 && (|f.done| + 1 == Need(f) <==> u.next != MapKey && u.count == 1)
  {
    hide Holds, Partial;
  }

  lemma ZoneGrows(z: Zone, block: seq<Obj>, stk: seq<Unit>, fs: seq<Frame>)
    requires Stacked(z, stk, fs)
    ensures Stacked(z + [block], stk, fs)
  {
    hide Filled, Holds;
    var z' := z + [block];
    forall j | 0 <= j < |fs| ensures Partial(z', stk[j], fs[j], Above(z', stk, j)) {
      assert Partial(z, stk[j], fs[j], Above(z, stk, j));
      PartialFrame(z, z', stk[j], fs[j], Above(z, stk, j), Above(z', stk, j));
    }
  }

  /** The scratch entry plays no part. */
  lemma LastScratch(z: Zone, stk: seq<Unit>, fs: seq<Frame>, o: Obj)
    requires Stacked(z, stk, fs)
    ensures var stk' := Pop(stk) + [Top(stk).(obj := o)]; Stacked(z, stk', fs) && Floor(stk') == Floor(stk)
  {
    hide Partial;
    var stk' := Pop(stk) + [Top(stk).(obj := o)];
    forall j | 0 <= j < |fs| ensures Partial(z, stk'[j], fs[j], Above(z, stk', j)) {
      assert Partial(z, stk[j], fs[j], Above(z, stk, j));
    }
  }
}
