/**
 The stream unpacker: a growing buffer in front of the parser, and the objects it has handed out, which go on
 reading their bodies in buffers that it has long replaced.
 */
module StreamUnpacker {
  import opened Bytes
  import opened Format
  import opened Growth
  import opened Arena
  import opened ObjectVisitor
  import opened Buffers
  import opened Parsing
  import ParseV2
  import Unpacking

  const COUNTER_SIZE: nat := 4

  /** Memory as malloc leaves it. */
  method Garbage(n: nat) returns (bytes: seq<byte>)
    ensures |bytes| == n
  {
    bytes := seq(n, _ => 0);
  }

  lemma RootRecorded(z: Zone, refs: set<Ref>)
    requires Recorded(z, refs) && |z| > 0 && |z[0]| > 0
    ensures RecordedObj(z[0][0], refs)
  {
  }

  lemma FlagStays(refs: set<Ref>, flag: bool, refs': set<Ref>, flag': bool, buf: nat, data: seq<byte>, lo: nat, hi: nat)
    requires Grew(refs, flag, refs', flag', buf, data, lo, hi)
    ensures lo == hi ==> flag' == flag
  {
  }

  class Unpacker {
    const ctx: ParseV2.Context
    const initialSize: nat
    var heap: Heap
    var nextId: nat
    var buffer: nat
    var used: nat
    var free: nat
    var off: nat
    var parsed: nat
    var finalizers: seq<nat>
    var handles: seq<Handle>

    ghost function M(): Mode {
      ctx.visitor.M()
    }

    ghost predicate Owned()
      reads this, ctx.visitor
    {
      && Ownership(heap, buffer, finalizers, handles, ctx.visitor.refs, ctx.visitor.referenced)
      && forall b | b in heap :: b < nextId
    }

    /** The accounting of the current buffer; as long as nothing in it was parsed, nobody else can have it. */
    ghost predicate Accounted()
      reads this, ctx.visitor
    {
      && Owned()
      && COUNTER_SIZE <= initialSize < TWO_TO_THE_64 && COUNTER_SIZE <= off <= used
      && used + free <= |heap[buffer].bytes| < TWO_TO_THE_64
      && Unshared(handles, ctx.visitor.refs, buffer, off)
      && (off == COUNTER_SIZE ==> heap[buffer].count == 1 && !ctx.visitor.referenced)
    }

    ghost predicate Usable()
      reads this, ctx, ctx.visitor
    {
      Accounted() && ctx.Ready() && parsed == |ctx.consumed|
    }

    /** The bytes that were not parsed yet. */
    ghost function Unread(): seq<byte>
      requires Accounted()
      reads this, ctx.visitor
    {
      heap[buffer].bytes[off..used]
    }

    /** All bytes since the last object. */
    ghost function Pending(): seq<byte>
      requires Usable()
      reads this, ctx, ctx.visitor
    {
      ctx.consumed + Unread()
    }

    constructor (limit: Limits, func: (Kind, nat) -> bool, initial: nat)
      requires initial < TWO_TO_THE_64
      ensures fresh(ctx) && fresh(ctx.visitor)
      ensures Usable() && Pending() == [] && handles == [] && M() == V2(limit, func)
      ensures free >= initial - COUNTER_SIZE
    {
      hide ParseV2.Context.Ready, Recorded, Held, Counted, Intact, HandleOk, Before;
      var size := if initial < COUNTER_SIZE then COUNTER_SIZE else initial;
      var visitor := new Visitor(limit, func);
      var context := new ParseV2.Context(visitor);
      var bytes := Garbage(size);
      ctx, initialSize := context, size;
      heap, buffer, nextId := map[0 := Buffer(1, bytes)], 0, 1;
      used, free, off, parsed := COUNTER_SIZE, size - COUNTER_SIZE, COUNTER_SIZE, 0;
      finalizers, handles := [], [];
      new;
      FirstOwner(0, heap[0]);
      assert Owned();
      assert Accounted();
    }

    // ---------------------------------------------------------------- the buffer

    function MessageSize(): (size: nat)
      requires Usable()
      reads this, ctx, ctx.visitor
      ensures size == |Pending()|
    {
      parsed + used - off
    }

    /** The guard of the rewind: the buffer is counted once, and nothing in it is referenced. */
    predicate Sole()
      requires buffer in heap
      reads this, ctx.visitor
    {
      heap[buffer].count == 1 && !ctx.visitor.referenced
    }

    /** Nothing in the buffer is needed any more: start again at its front. */
    method Rewind()
      requires Usable() && used == off && Sole()
      modifies this`used, this`free, this`off
      ensures Usable() && Pending() == old(Pending()) && off == used == COUNTER_SIZE
      ensures used + free == old(used + free)
    {
      hide ParseV2.Context.Ready, Ownership, Unshared;
      SoleOwner(heap, buffer, finalizers, handles, ctx.visitor.refs);
      UnsharedLater(handles, ctx.visitor.refs, buffer, 0, COUNTER_SIZE);
      free := free + used - COUNTER_SIZE;
      used, off := COUNTER_SIZE, COUNTER_SIZE;
    }

    /** realloc, when nothing was parsed in the buffer. */
    method Extend(nextSize: nat)
      requires Usable() && off == COUNTER_SIZE && used <= nextSize < TWO_TO_THE_64
      modifies this`heap, this`nextId, this`buffer, this`free
      ensures Usable() && Pending() == old(Pending()) && free == nextSize - used
    {
      hide ParseV2.Context.Ready, Ownership, Unshared;
      HasBuffer();
      var tail := Garbage(nextSize - used);
      var grown := Buffer(heap[buffer].count, heap[buffer].bytes[..used] + tail);
      Moved(heap, buffer, finalizers, handles, ctx.visitor.refs, nextId, grown);
      UnsharedLater(handles, ctx.visitor.refs, nextId, 0, off);
      assert grown.bytes[off..used] == heap[buffer].bytes[off..used];
      heap := (heap - {buffer})[nextId := grown];
      buffer := nextId;
      nextId := nextId + 1;
      free := nextSize - used;
    }

    lemma HasBuffer()
      requires Owned()
      ensures buffer in heap
    {
    }

    /** What was parsed stays where it is, for whoever reads it: the rest is copied to a new buffer. */
    method Replace(nextSize: nat)
      requires Usable() && COUNTER_SIZE + used - off <= nextSize < TWO_TO_THE_64
      modifies this`heap, this`nextId, this`buffer, this`used, this`free
      modifies this`off, this`finalizers, ctx.visitor`referenced
      ensures Usable() && Pending() == old(Pending())
      ensures used == COUNTER_SIZE + old(used) - old(off) && free == nextSize - used
    {
      hide ParseV2.Context.Ready, Ownership, Unshared, Decr;
      HasBuffer();
      var notParsed := used - off;
      var counter := Garbage(COUNTER_SIZE);
      var tail := Garbage(nextSize - notParsed - COUNTER_SIZE);
      var tmp := Buffer(1, counter + heap[buffer].bytes[off..used] + tail);
      assert tmp.bytes[COUNTER_SIZE..COUNTER_SIZE + notParsed] == heap[buffer].bytes[off..used];
      Adopt(tmp, notParsed);
    }

    method Adopt(tmp: Buffer, notParsed: nat)
      requires Usable() && tmp.count == 1 && COUNTER_SIZE + notParsed <= |tmp.bytes| < TWO_TO_THE_64
      requires tmp.bytes[COUNTER_SIZE..COUNTER_SIZE + notParsed] == Unread()
      modifies this`heap, this`nextId, this`buffer, this`used, this`free
      modifies this`off, this`finalizers, ctx.visitor`referenced
      ensures Usable() && Pending() == old(Pending())
      ensures used == COUNTER_SIZE + notParsed && free == |tmp.bytes| - used
    {
      hide ParseV2.Context.Ready, Ownership, Unshared, Decr;
      HasBuffer();
      ReplacedOwned(heap, buffer, finalizers, handles, ctx.visitor.refs, ctx.visitor.referenced, nextId, tmp);
      UnsharedLater(handles, ctx.visitor.refs, nextId, 0, COUNTER_SIZE);
      heap := heap[nextId := tmp];
      if ctx.visitor.referenced {
        finalizers := finalizers + [buffer];
        ctx.SetReferenced(false);
      } else {
        heap := Decr(heap, buffer);
      }
      buffer := nextId;
      nextId := nextId + 1;
      used := notParsed + COUNTER_SIZE;
      free := |tmp.bytes| - used;
      off := COUNTER_SIZE;
    }

    /** expand_buffer: rewinds, then moves a buffer nobody parsed in, or else starts a new one. */
    method ExpandBuffer(size: nat)
      requires Usable() && used + size < TWO_TO_THE_64 && free < size
      modifies this, ctx.visitor`referenced
      ensures Usable() && Pending() == old(Pending()) && MessageSize() == old(MessageSize())
      ensures free >= size && used <= old(used) && handles == old(handles)
      ensures buffer != old(buffer) ==>
                var moves := old(off == COUNTER_SIZE || (used == off && Sole()));
                Grown(if moves then old(used + free) * 2 % TWO_TO_THE_64 else initialSize, size + used, used + free)
    {
      hide ParseV2.Context.Ready, Ownership, Unshared, Grown;
      HasBuffer();
      if used == off && Sole() {
        Rewind();
        if free >= size {
          return;
        }
      }
      HasBuffer();
      if off == COUNTER_SIZE {
        var nextSize := Doubled((used + free) * 2 % TWO_TO_THE_64, size + used);
        Extend(nextSize);
      } else {
        var nextSize := Doubled(initialSize, size + (used - off) + COUNTER_SIZE);
        Replace(nextSize);
      }
    }

    /** After this there is room for size bytes, and nothing is lost. */
    method ReserveBuffer(size: nat)
      requires Usable() && used + size < TWO_TO_THE_64
      modifies this, ctx.visitor`referenced
      ensures Usable() && Pending() == old(Pending()) && MessageSize() == old(MessageSize())
      ensures free >= size && used <= old(used) && handles == old(handles)
      ensures old(free) >= size ==> buffer == old(buffer) && off == old(off) && used == old(used) && free == old(free)
    {
      if free >= size {
        return;
      }
      ExpandBuffer(size);
    }

    /** The caller writes to the memory between buffer() and buffer() + buffer_capacity(). */
    method Fill(chunk: seq<byte>)
      requires Usable() && |chunk| <= free
      modifies this`heap
      ensures Usable() && Pending() == old(Pending())
      ensures heap[buffer].bytes[used..used + |chunk|] == chunk
    {
      hide ParseV2.Context.Ready, Ownership, Unshared;
      HasBuffer();
      var was := heap[buffer].bytes;
      var bytes := was[..used] + chunk + was[used + |chunk|..];
      assert bytes[..off] == was[..off] && bytes[off..used] == was[off..used] && bytes[used..used + |chunk|] == chunk;
      Filled(heap, buffer, finalizers, handles, ctx.visitor.refs, ctx.visitor.referenced, off, bytes);
      heap := heap[buffer := heap[buffer].(bytes := bytes)];
    }

    method BufferConsumed(size: nat)
      requires Usable() && size <= free
      modifies this`used, this`free
      ensures Usable() && used == old(used) + size && free == old(free) - size
      ensures Pending() == old(Pending()) + heap[buffer].bytes[old(used)..used]
    {
      hide ParseV2.Context.Ready, Ownership, Unshared;
      HasBuffer();
      used := used + size;
      free := free - size;
      assert heap[buffer].bytes[off..used] == heap[buffer].bytes[off..old(used)] + heap[buffer].bytes[old(used)..used];
    }

    method SkipNonparsedBuffer(size: nat)
      requires Usable() && size <= used - off
      modifies this`off
      ensures Usable() && Pending() == ctx.consumed + old(Unread())[size..]
    {
      hide ParseV2.Context.Ready, Ownership, Unshared;
      HasBuffer();
      UnsharedLater(handles, ctx.visitor.refs, buffer, off, off + size);
      off := off + size;
    }

    /** Gives up the bytes that were not parsed; their room is not free again. */
    method RemoveNonparsedBuffer()
      requires Usable()
      modifies this`used
      ensures Usable() && Pending() == ctx.consumed && free == old(free)
    {
      hide ParseV2.Context.Ready, Ownership, Unshared;
      HasBuffer();
      used := off;
    }

    // ---------------------------------------------------------------- objects

    /** The zone becomes an owner of the buffer if something in it reads there. */
    method FlushZone()
      requires Accounted()
      modifies this`heap, this`finalizers, ctx.visitor`referenced
      ensures Accounted() && !ctx.visitor.referenced && Unread() == old(Unread())
    {
      hide Ownership, Unshared, ParseV2.Context.Ready;
      HasBuffer();
      if ctx.visitor.referenced {
        Flushed(heap, buffer, finalizers, handles, ctx.visitor.refs);
        finalizers := finalizers + [buffer];
        ctx.SetReferenced(false);
        heap := Incr(heap, buffer);
      }
    }

    /** Forgets the message in progress; the zone stays. */
    method Reset()
      requires Accounted() && ctx.visitor.zone != [] && Recorded(ctx.visitor.zone, ctx.visitor.refs)
      modifies this`parsed, ctx, ctx.visitor`zone, ctx.visitor`stack
      ensures Usable() && ctx.consumed == [] && Unread() == old(Unread())
      ensures ctx.visitor.zone == old(ctx.visitor.zone)[0 := [ONil]]
    {
      hide ParseV2.Context.Ready, Ownership, Unshared, Recorded;
      ctx.Init();
      parsed := 0;
    }

    /** release_zone and reset, after a success: the object leaves with its zone. */
    method HandOut()
      requires Accounted() && ctx.After(Success)
      modifies this`heap, this`finalizers, this`handles, this`parsed, ctx, ctx.visitor
      ensures Usable() && ctx.consumed == [] && Unread() == old(Unread())
      ensures |handles| == |old(handles)| + 1 && handles[..|old(handles)|] == old(handles)
      ensures handles[|old(handles)|].v == old(ctx.value)
    {
      hide ParseV2.Context.Ready, Ownership, Unshared, Recorded, Holds;
      Unpacking.RootHolds(ctx);
      RootRecorded(ctx.visitor.zone, ctx.visitor.refs);
      FlushZone();
      var handle := Handle(ctx.visitor.zone[0][0], ctx.visitor.zone, finalizers, ctx.value, ctx.visitor.refs);
      HandedOut(heap, buffer, handles, handle);
      UnsharedHandedOut(handles, handle, buffer, off);
      finalizers := [];
      handles := handles + [handle];
      ctx.Restart();
      parsed := 0;
    }

    /** What next() does, in terms of the bytes since the last object and nothing else. */
    ghost predicate Answered(ret: ParseReturn, pending: seq<byte>, hs: seq<Handle>)
      reads this, ctx, ctx.visitor
    {
      match Decode(M(), 1, pending)
      case Done(v, rest) =>
        && ret == Success && Usable() && ctx.consumed == [] && Pending() == rest
        && |handles| == |hs| + 1 && handles[..|hs|] == hs && handles[|hs|].v == v
      case More => ret == Continue && Usable() && Pending() == pending && handles == hs
      case Bad => ret == ParseError && Owned() && handles == hs
      case Over(what) => ret == Threw(what) && Owned() && handles == hs
    }

    /** execute_imp, and the exceptions that its visitor throws. */
    method ExecuteImp() returns (ret: ParseReturn)
      requires Usable()
      modifies this`off, this`parsed, ctx, ctx.visitor
      ensures match Decode(M(), 1, old(Pending()))
              case Done(v, rest) =>
                ret == Success && Accounted() && ctx.After(Success) && ctx.value == v && Unread() == rest
              case More => ret == Continue && Usable() && Pending() == old(Pending())
              case Bad => ret == ParseError && Owned()
              case Over(what) => ret == Threw(what) && Owned()
    {
      hide ParseV2.Context.Ready, ParseV2.Context.After, Ownership, Unshared, Decode, Grew;
      HasBuffer();
      ghost var refs, flag, c := ctx.visitor.refs, ctx.visitor.referenced, ctx.consumed;
      var before := off;
      var data := heap[buffer].bytes[..used];
      assert c + data[before..] == Pending();
      ret, off := ctx.Execute(data, off, buffer);
      RefsGrown(heap, buffer, finalizers, handles, refs, flag, ctx.visitor.refs, ctx.visitor.referenced, data, before,
                ParseV2.Reach(ret, |data|, off));
      if ret != Success && ret != Continue {
        return;
      }
      FlagStays(refs, flag, ctx.visitor.refs, ctx.visitor.referenced, buffer, data, before, off);
      parsed := parsed + (off - before);
      if ret == Continue {
        AfterContinue();
      }
      Cuts(c, data, before, off, |data|);
    }

    lemma AfterContinue()
      requires ctx.After(Continue)
      ensures ctx.Ready()
    {
    }

    /** One object, or the news that more bytes are needed, or the parser's exception. */
    method Next() returns (ret: ParseReturn)
      requires Usable()
      modifies this`heap, this`off, this`parsed, this`finalizers, this`handles, ctx, ctx.visitor
      ensures Answered(ret, old(Pending()), old(handles))
    {
      hide ParseV2.Context.Ready, ParseV2.Context.After, Ownership, Unshared, Decode;
      ret := ExecuteImp();
      if ret == Success {
        HandOut();
      }
    }

    /** An object is given up: its zone runs its finalizers, and no other object is disturbed. */
    method DropHandle(i: nat)
      requires Owned() && i < |handles|
      modifies this`heap, this`handles
      ensures Owned() && handles == old(handles)[..i] + old(handles)[i + 1..]
      ensures old(Accounted()) ==> Accounted() && Unread() == old(Unread())
      ensures old(Usable()) ==> Usable() && Pending() == old(Pending())
    {
      hide ParseV2.Context.Ready, HandleOk, HandlesOk, RefsOk, Before, Held, Unshared;
      ghost var heap0, handles0 := heap, handles;
      var rest := handles[..i] + handles[i + 1..];
      ghost var owners := Owners(buffer, finalizers, rest);
      HeldDrop(handles, i);
      assert Owners(buffer, finalizers, handles) == owners + multiset(handles[i].finalizers);
      heap := RunFinalizers(heap, handles[i].finalizers, owners);
      Dropped(heap0, heap, buffer, finalizers, handles, ctx.visitor.refs, ctx.visitor.referenced, i);
      assert buffer in owners;
      if Unshared(handles, ctx.visitor.refs, buffer, off) {
        UnsharedDropped(handles, ctx.visitor.refs, buffer, off, i);
      }
      handles := rest;
    }

    /** The unpacker goes away, and with it its zone and its hold on the buffer. The objects it handed out stay. */
    method Destroy()
      requires Owned()
      modifies this`heap
      ensures Counted(heap, Held(handles)) && HandlesOk(heap, handles)
    {
      hide ParseV2.Context.Ready, HandleOk, RefsOk, Held, Intact;
      ghost var heap0 := heap;
      ghost var owners := multiset{buffer} + Held(handles);
      assert Owners(buffer, finalizers, handles) == owners + multiset(finalizers);
      heap := RunFinalizers(heap, finalizers, owners);
      HandlesFrame(heap0, heap, handles, owners);
      DecrCounted(heap, owners, buffer);
      assert owners - multiset{buffer} == Held(handles);
      HandlesFrame(heap, Decr(heap, buffer), handles, Held(handles));
      heap := Decr(heap, buffer);
    }
  }
}
