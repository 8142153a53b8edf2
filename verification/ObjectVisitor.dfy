/**
 The visitor that builds an object tree from parser events (create_object_visitor). It writes through the top of
 its own stack of slot pointers and never looks at the parser's stack.
 */
module ObjectVisitor {
  import opened Bytes
  import opened Format
  import opened Arena

  datatype Verdict = Ok | Throws(what: Limit)

  /** Bytes that an object reads in place: in which buffer, where, and what they were when it was parsed. */
  datatype Ref = Ref(buf: nat, off: nat, bytes: seq<byte>)

  /** Every body that is left in a buffer is accounted for. */
  ghost predicate Recorded(z: Zone, refs: set<Ref>) {
    forall b, i | 0 <= b < |z| && 0 <= i < |z[b]| :: RecordedObj(z[b][i], refs)
  }

  ghost predicate RecordedObj(o: Obj, refs: set<Ref>) {
    o.OBlob? && o.loc.InBuffer? ==> Ref(o.loc.buf, o.loc.off, o.bytes) in refs
  }

  ghost predicate InPlace(r: Ref, buf: nat, data: seq<byte>, lo: nat, hi: nat) {
    r.buf == buf && lo <= r.off && r.off + |r.bytes| <= hi <= |data| && r.bytes == data[r.off..r.off + |r.bytes|]
  }

  /**
   What a parse between lo and hi may do to the references and to the flag that tells of them: nothing without a byte
   read.
   */
  ghost predicate Grew(refs: set<Ref>, flag: bool, refs': set<Ref>, flag': bool, buf: nat, data: seq<byte>, lo: nat,
                       hi: nat) {
    && refs <= refs' && (flag ==> flag') && (refs' != refs ==> flag')
    && (lo == hi ==> refs' == refs && flag' == flag)
    && forall r | r in refs' && r !in refs :: InPlace(r, buf, data, lo, hi)
  }

  lemma GrewNone(refs: set<Ref>, flag: bool, buf: nat, data: seq<byte>, at: nat)
    ensures Grew(refs, flag, refs, flag, buf, data, at, at)
  {
  }

  lemma GrewWiden(refs: set<Ref>, flag: bool, refs': set<Ref>, flag': bool, buf: nat, data: seq<byte>, lo: nat, hi: nat,
                  lo': nat, hi': nat)
    requires Grew(refs, flag, refs', flag', buf, data, lo, hi) && lo' <= lo <= hi <= hi' <= |data|
    ensures Grew(refs, flag, refs', flag', buf, data, lo', hi')
  {
  }

  lemma GrewOn(refs: set<Ref>, flag: bool, refs1: set<Ref>, flag1: bool, refs2: set<Ref>, flag2: bool,
               buf: nat, data: seq<byte>, lo: nat, mid: nat, hi: nat)
    requires Grew(refs, flag, refs1, flag1, buf, data, lo, mid) && Grew(refs1, flag1, refs2, flag2, buf, data, mid, hi)
    requires lo <= mid <= hi <= |data|
    ensures Grew(refs, flag, refs2, flag2, buf, data, lo, hi)
  {
  }

  class Visitor {
    const limit: Limits
    const func: (Kind, nat) -> bool
    var zone: Zone
    var stack: seq<Ptr>
    var referenced: bool
    ghost var refs: set<Ref>

    constructor (limit: Limits, func: (Kind, nat) -> bool)
      ensures this.limit == limit && this.func == func
      ensures zone == [[ONil]] && stack == [Ptr(0, 0)] && !referenced && refs == {}
      ensures Recorded(zone, refs)
    {
      this.limit, this.func := limit, func;
      zone, stack, referenced, refs := [[ONil]], [Ptr(0, 0)], false, {};
    }

    ghost function M(): Mode
    {
      V2(limit, func)
    }

    ghost predicate CanWrite()
      reads this
    {
      stack != [] && InZoneSlot(zone, Top(stack)) && Recorded(zone, refs)
    }

    /** Leaves the objects that are done in the zone and starts on a fresh root. */
    method Init()
      requires zone != [] && Recorded(zone, refs)
      modifies this`zone, this`stack
      ensures stack == [Ptr(0, 0)] && zone == old(zone)[0 := [ONil]]
      ensures Recorded(zone, refs)
    {
      stack := [Ptr(0, 0)];
      zone := zone[0 := [ONil]];
    }

    /** Goes on in a new zone; the root object is the parser's own. */
    method SetZone()
      requires zone != [] && Recorded(zone, refs)
      modifies this`zone
      ensures zone == old(zone)[..1] && Recorded(zone, refs)
    {
      zone := zone[..1];
    }

    method SetReferenced(referenced: bool)
      modifies this`referenced
      ensures this.referenced == referenced
    {
      this.referenced := referenced;
    }

    /** Nothing in the zone reads anything in place. */
    ghost method Forget()
      requires zone == [[ONil]]
      modifies this`refs
      ensures refs == {} && Recorded(zone, refs)
    {
      refs := {};
    }

    /** Every visit ends in this write. */
    method Write(o: Obj)
      requires CanWrite() && RecordedObj(o, refs)
      modifies this`zone
      ensures zone == Put(old(zone), Top(stack), o) && CanWrite()
    {
      zone := Put(zone, Top(stack), o);
    }

    method VisitNil()
      requires CanWrite()
      modifies this`zone
      ensures zone == Put(old(zone), Top(stack), ONil) && CanWrite()
    {
      Write(ONil);
    }

    method VisitBoolean(b: bool)
      requires CanWrite()
      modifies this`zone
      ensures zone == Put(old(zone), Top(stack), OBool(b)) && CanWrite()
    {
      Write(OBool(b));
    }

    method VisitPositiveInteger(n: nat)
      requires CanWrite()
      modifies this`zone
      ensures zone == Put(old(zone), Top(stack), OPos(n)) && CanWrite()
    {
      Write(OPos(n));
    }

    /** An integer that was sent in a signed form is still positive when it is not negative. */
    method VisitNegativeInteger(i: int)
      requires CanWrite()
      modifies this`zone
      ensures zone == Put(old(zone), Top(stack), if i >= 0 then OPos(i) else ONeg(i)) && CanWrite()
    {
      if i >= 0 {
        Write(OPos(i));
      } else {
        Write(ONeg(i));
      }
    }

    method VisitFloat32(bits: nat)
      requires CanWrite()
      modifies this`zone
      ensures zone == Put(old(zone), Top(stack), OF32(bits)) && CanWrite()
    {
      Write(OF32(bits));
    }

    method VisitFloat64(bits: nat)
      requires CanWrite()
      modifies this`zone
      ensures zone == Put(old(zone), Top(stack), OF64(bits)) && CanWrite()
    {
      Write(OF64(bits));
    }

    /** A str, bin or ext body at offset off of a buffer; the size parameter has 32 bits. */
    method VisitBody(kind: Kind, buf: nat, off: nat, bytes: seq<byte>) returns (r: Verdict, ghost o: Obj)
      requires CanWrite() && |bytes| < TWO_TO_THE_32 + (if kind == ExtK then 1 else 0)
      modifies this`zone, this`referenced, this`refs
      ensures r == if OverBody(M(), kind, |bytes|) then Throws(BodyLimit(kind)) else Ok
      ensures r != Ok ==> zone == old(zone) && referenced == old(referenced) && refs == old(refs)
      ensures r == Ok ==> zone == Put(old(zone), Top(stack), o) && CanWrite()
      ensures r == Ok ==> IsLeaf(o, Blob(kind, Kept(M(), kind, bytes)))
      ensures r == Ok ==> if Copied(M(), kind, |bytes|)
                          then refs == old(refs) && referenced == old(referenced) && o.loc == InZone
                          else refs == old(refs) + {Ref(buf, off, bytes)} && referenced && o.loc == InBuffer(buf, off)
    {
      var size := |bytes| % TWO_TO_THE_32;
      o := Raw;
      if size > SizeLimit(limit, kind) {
        return Throws(BodyLimit(kind)), o;
      }
      var inPlace := func(kind, size);
      var sizeField := if kind == ExtK then (size + TWO_TO_THE_32 - 1) % TWO_TO_THE_32 else size;
      var loc := if inPlace then InBuffer(buf, off) else InZone;
      var obj := OBlob(kind, sizeField, loc, if inPlace then bytes else bytes[..size]);
      if inPlace {
        refs := refs + {Ref(buf, off, bytes)};
        referenced := true;
      }
      Write(obj);
      return Ok, obj;
    }

    /** start_array and start_map: the count is checked before the depth, and the depth for empty containers too. */
    method StartContainer(isMap: bool, n: nat) returns (r: Verdict)
      requires CanWrite()
      modifies this`zone, this`stack
      ensures r == if OverCount(M(), isMap, n) then Throws(CountLimit(isMap))
                   else if OverDepth(M(), |old(stack)|, n) then Throws(DepthLimit)
                   else Ok
      ensures r != Ok ==> zone == old(zone) && stack == old(stack)
      ensures r == Ok && n == 0 ==>
        zone == Put(old(zone), Top(old(stack)), OCont(isMap, 0, 0)) && stack == old(stack) + [Null]
      ensures r == Ok && n > 0 ==>
        && zone == Put(old(zone), Top(old(stack)), OCont(isMap, n, |old(zone)|)) + [RawBlock(Slots(isMap, n))]
        && stack == old(stack) + [Ptr(|old(zone)|, 0)]
      ensures Recorded(zone, refs)
    {
      if n > (if isMap then limit.maps else limit.arrays) {
        return Throws(CountLimit(isMap));
      }
      if |stack| > limit.depth {
        return Throws(DepthLimit);
      }
      if n == 0 {
        Write(OCont(isMap, 0, 0));
        stack := stack + [Null];
      } else {
        var blk := |zone|;
        Write(OCont(isMap, n, blk));
        zone := zone + [RawBlock(Slots(isMap, n))];
        stack := stack + [Ptr(blk, 0)];
      }
      return Ok;
    }

    /** end_array_item, end_map_key and end_map_value. */
    method EndItem()
      requires stack != [] && Top(stack).Ptr?
      modifies this`stack
      ensures stack == BumpTop(old(stack))
    {
      stack := Pop(stack) + [Bump(Top(stack))];
    }

    /** end_array and end_map. */
    method EndContainer()
      requires stack != []
      modifies this`stack
      ensures stack == Pop(old(stack))
    {
      stack := Pop(stack);
    }
  }
}
