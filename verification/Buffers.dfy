/**
 Who owns the buffers of a stream unpacker. A buffer starts with a count of its owners: the unpacker while it is
 the current one, and every finalizer of a zone, including the zones that were handed out with objects.
 */
module Buffers {
  import opened Bytes
  import opened Format
  import opened Arena
  import opened ObjectVisitor

  /** bytes is all that is allocated, with the counter's own place in front. */
  datatype Buffer = Buffer(count: nat, bytes: seq<byte>)

  type Heap = map<nat, Buffer>

  /** An object that was handed out, with its zone; v is what it stands for, and refs what it reads in place. */
  datatype Handle = Handle(root: Obj, zone: Zone, finalizers: seq<nat>, ghost v: Value, ghost refs: set<Ref>)

  function Incr(heap: Heap, b: nat): Heap
    requires b in heap
  {
    heap[b := heap[b].(count := heap[b].count + 1)]
  }

  /** The last owner frees the buffer. */
  function Decr(heap: Heap, b: nat): Heap
    requires b in heap && heap[b].count > 0
  {
    if heap[b].count == 1 then heap - {b} else heap[b := heap[b].(count := heap[b].count - 1)]
  }

  /** The finalizers of all handles. */
  ghost function Held(hs: seq<Handle>): multiset<nat> {
    if hs == [] then multiset{} else Held(hs[..|hs| - 1]) + multiset(hs[|hs| - 1].finalizers)
  }

  /** Counts are right, and what is not owned is not there. */
  ghost predicate Counted(heap: Heap, owners: multiset<nat>) {
    && (forall b | b in heap :: heap[b].count == owners[b] && b in owners)
    && (forall b | b in owners :: b in heap)
  }

  /** The bytes that were parsed are still in place. */
  ghost predicate Intact(heap: Heap, r: Ref) {
    && r.buf in heap && r.off + |r.bytes| <= |heap[r.buf].bytes|
    && heap[r.buf].bytes[r.off..r.off + |r.bytes|] == r.bytes
  }

  ghost predicate Before(r: Ref, b: nat, at: nat) {
    r.buf == b ==> r.off + |r.bytes| <= at
  }

  ghost predicate HandleOk(heap: Heap, h: Handle) {
    && Holds(h.zone, h.root, h.v, 0, |h.zone|) && Recorded(h.zone, h.refs) && RecordedObj(h.root, h.refs)
    && forall r | r in h.refs :: r.buf in h.finalizers && Intact(heap, r)
  }

  ghost predicate HandlesOk(heap: Heap, hs: seq<Handle>) {
    forall i | 0 <= i < |hs| :: HandleOk(heap, hs[i])
  }

  ghost predicate HandlesBefore(hs: seq<Handle>, b: nat, at: nat) {
    forall i, r | 0 <= i < |hs| && r in hs[i].refs :: Before(r, b, at)
  }

  /** The references of objects under construction are safe if their buffer is the current one, or will be finalized. */
  ghost predicate RefsOk(heap: Heap, refs: set<Ref>, finalizers: seq<nat>, b: nat, referenced: bool) {
    forall r | r in refs :: Intact(heap, r) && (r.buf in finalizers || (r.buf == b && referenced))
  }

  /** What a handle is for: every body in its zone that was left in a buffer reads there what was parsed. */
  lemma HandleReads(heap: Heap, h: Handle, blk: nat, i: nat)
    requires HandleOk(heap, h) && blk < |h.zone| && i < |h.zone[blk]|
    ensures var o := h.zone[blk][i];
            o.OBlob? && o.loc.InBuffer? ==>
              && o.loc.buf in heap && o.loc.off + |o.bytes| <= |heap[o.loc.buf].bytes|
              && heap[o.loc.buf].bytes[o.loc.off..o.loc.off + |o.bytes|] == o.bytes
  {
    var o := h.zone[blk][i];
    assert RecordedObj(o, h.refs);
    if o.OBlob? && o.loc.InBuffer? {
      assert Intact(heap, Ref(o.loc.buf, o.loc.off, o.bytes));
    }
  }

  // ---------------------------------------------------------------- owners

  lemma {:induction false} HeldHas(hs: seq<Handle>, i: nat)
    requires i < |hs|
    ensures multiset(hs[i].finalizers) <= Held(hs)
  {
    if i < |hs| - 1 {
      HeldHas(hs[..|hs| - 1], i);
    }
  }

  lemma {:induction false} HeldDrop(hs: seq<Handle>, i: nat)
    requires i < |hs|
    ensures Held(hs) == Held(hs[..i] + hs[i + 1..]) + multiset(hs[i].finalizers)
  {
    hide Held;
    var n := |hs| - 1;
    var h := hs[n];
    assert hs == hs[..n] + [h];
    HeldSnoc(hs[..n], h);
    if i == n {
      assert hs[..i] + hs[i + 1..] == hs[..n];
    } else {
      var front := hs[..n][..i] + hs[..n][i + 1..];
      HeldDrop(hs[..n], i);
      HeldSnoc(front, h);
      assert hs[..i] + hs[i + 1..] == front + [h];
    }
  }

  lemma HeldSnoc(hs: seq<Handle>, h: Handle)
    ensures Held(hs + [h]) == Held(hs) + multiset(h.finalizers)
  {
    assert (hs + [h])[..|hs|] == hs;
  }

  /** One owner less: the count stays right, and whatever has another owner can still be read. */
  lemma DecrCounted(heap: Heap, owners: multiset<nat>, b: nat)
    requires Counted(heap, owners) && b in owners
    ensures b in heap && heap[b].count > 0
    ensures Counted(Decr(heap, b), owners - multiset{b})
    ensures forall r | Intact(heap, r) && r.buf in owners - multiset{b} :: Intact(Decr(heap, b), r)
  {
    assert forall c | c != b :: (owners - multiset{b})[c] == owners[c];
  }

  lemma IncrCounted(heap: Heap, owners: multiset<nat>, b: nat)
    requires Counted(heap, owners) && b in heap
    ensures Counted(Incr(heap, b), owners + multiset{b})
    ensures forall r | Intact(heap, r) :: Intact(Incr(heap, b), r)
  {
    assert forall c | c != b :: (owners + multiset{b})[c] == owners[c];
  }

  lemma FirstOwner(b: nat, buf: Buffer)
    requires buf.count == 1
    ensures Counted(map[b := buf], multiset{b} + multiset([]) + Held([]))
  {
  }

  lemma MallocCounted(heap: Heap, owners: multiset<nat>, b: nat, buf: Buffer)
    requires Counted(heap, owners) && b !in heap && buf.count == 1
    ensures Counted(heap[b := buf], owners + multiset{b})
    ensures KeepsIntact(heap, heap[b := buf], owners)
  {
    assert owners[b] == 0;
    assert forall c | c != b :: (owners + multiset{b})[c] == owners[c];
  }

  /** A buffer with one owner can move: nothing else knows where it was. */
  lemma MoveCounted(heap: Heap, owners: multiset<nat>, b: nat, b': nat, buf: Buffer)
    requires Counted(heap, owners + multiset{b}) && b !in owners && b' !in heap && buf.count == 1
    ensures Counted((heap - {b})[b' := buf], owners + multiset{b'})
    ensures KeepsIntact(heap, (heap - {b})[b' := buf], owners)
  {
    var was := owners + multiset{b};
    assert was[b'] == 0;
    assert forall c | c != b :: was[c] == owners[c];
    assert forall c | c != b' :: (owners + multiset{b'})[c] == owners[c];
  }

  method RunFinalizers(heap: Heap, fs: seq<nat>, ghost owners: multiset<nat>) returns (heap': Heap)
    requires Counted(heap, owners + multiset(fs))
    ensures Counted(heap', owners) && KeepsIntact(heap, heap', owners)
    ensures forall b | b in owners :: b in heap && b in heap' && heap'[b].bytes == heap[b].bytes
    ensures heap'.Keys <= heap.Keys
  {
    hide Counted, Intact;
    var i := |fs|;
    heap' := heap;
    assert fs[..i] == fs;
    while i > 0
      invariant i <= |fs| && Counted(heap', owners + multiset(fs[..i])) && KeepsIntact(heap, heap', owners)
      invariant forall b | b in owners :: b in heap <==> b in heap'
      invariant forall b | b in owners && b in heap :: heap'[b].bytes == heap[b].bytes
      invariant heap'.Keys <= heap.Keys
    {
      i := i - 1;
      ghost var o := owners + multiset(fs[..i + 1]);
      assert fs[..i + 1] == fs[..i] + [fs[i]];
      assert o - multiset{fs[i]} == owners + multiset(fs[..i]);
      DecrCounted(heap', o, fs[i]);
      DecrKeeps(heap', o, fs[i], owners);
      heap' := Decr(heap', fs[i]);
    }
    assert owners + multiset(fs[..0]) == owners;
    CountedHas(heap', owners);
  }

  lemma CountedHas(heap: Heap, owners: multiset<nat>)
    requires Counted(heap, owners)
    ensures forall b | b in owners :: b in heap
  {
  }

  lemma DecrKeeps(heap: Heap, owners: multiset<nat>, b: nat, others: multiset<nat>)
    requires Counted(heap, owners) && b in owners && others <= owners - multiset{b}
    ensures forall c | c in others :: c in heap && c in Decr(heap, b) && Decr(heap, b)[c].bytes == heap[c].bytes
  {
    assert forall c | c in others :: c in owners - multiset{b};
    assert b in others ==> owners[b] > 1;
  }

  // ---------------------------------------------------------------- frames

  ghost predicate KeepsIntact(heap: Heap, heap': Heap, owners: multiset<nat>) {
    forall r | Intact(heap, r) && r.buf in owners :: Intact(heap', r)
  }

  lemma HandlesFrame(heap: Heap, heap': Heap, hs: seq<Handle>, owners: multiset<nat>)
    requires HandlesOk(heap, hs) && Held(hs) <= owners && KeepsIntact(heap, heap', owners)
    ensures HandlesOk(heap', hs)
  {
    hide Holds, Recorded, Intact, Held;
    forall i | 0 <= i < |hs| ensures HandleOk(heap', hs[i]) {
      HeldHas(hs, i);
      assert HandleOk(heap, hs[i]);
      forall r | r in hs[i].refs ensures r.buf in hs[i].finalizers && Intact(heap', r) {
        assert r.buf in multiset(hs[i].finalizers);
      }
    }
  }

  /** New bytes at at.. of a buffer do not disturb what is read before at. */
  lemma FillIntact(heap: Heap, b: nat, at: nat, bytes: seq<byte>, r: Ref)
    requires b in heap && Intact(heap, r) && Before(r, b, at) && at <= |heap[b].bytes| == |bytes|
    requires bytes[..at] == heap[b].bytes[..at]
    ensures Intact(heap[b := heap[b].(bytes := bytes)], r)
  {
    if r.buf == b {
      assert bytes[r.off..r.off + |r.bytes|] == bytes[..at][r.off..r.off + |r.bytes|];
      assert heap[b].bytes[r.off..r.off + |r.bytes|] == heap[b].bytes[..at][r.off..r.off + |r.bytes|];
    }
  }

  // ---------------------------------------------------------------- the unpacker's side

  ghost function Owners(b: nat, finalizers: seq<nat>, hs: seq<Handle>): multiset<nat> {
    multiset{b} + multiset(finalizers) + Held(hs)
  }

  /**
   Buffers are counted, and nothing that is read in place is gone: b is the current buffer, finalizers those of the
   zone under construction, and refs and referenced what is read in place in it.
   */
  ghost predicate Ownership(heap: Heap, b: nat, finalizers: seq<nat>, hs: seq<Handle>, refs: set<Ref>,
                            referenced: bool) {
    && Counted(heap, Owners(b, finalizers, hs)) && b in heap
    && HandlesOk(heap, hs) && RefsOk(heap, refs, finalizers, b, referenced)
  }

  ghost predicate RefsBefore(refs: set<Ref>, b: nat, at: nat) {
    forall r | r in refs :: Before(r, b, at)
  }

  /** Nothing reads the bytes of b from at on. */
  ghost predicate Unshared(hs: seq<Handle>, refs: set<Ref>, b: nat, at: nat) {
    HandlesBefore(hs, b, at) && RefsBefore(refs, b, at)
  }

  lemma UnsharedLater(hs: seq<Handle>, refs: set<Ref>, b: nat, at: nat, at': nat)
    requires Unshared(hs, refs, b, at) && at <= at'
    ensures Unshared(hs, refs, b, at')
  {
    forall i, r | 0 <= i < |hs| && r in hs[i].refs ensures Before(r, b, at') {
      assert Before(r, b, at);
    }
  }

  /** A count of one means that nobody else has the buffer, so nothing reads it. */
  lemma SoleOwner(heap: Heap, b: nat, finalizers: seq<nat>, hs: seq<Handle>, refs: set<Ref>)
    requires Ownership(heap, b, finalizers, hs, refs, false) && heap[b].count == 1
    ensures b !in multiset(finalizers) + Held(hs) && Unshared(hs, refs, b, 0)
  {
    hide Held, Recorded, Intact, Holds, RecordedObj;
    var others := multiset(finalizers) + Held(hs);
    assert Owners(b, finalizers, hs)[b] == 1 + others[b];
    forall i, r | 0 <= i < |hs| && r in hs[i].refs ensures Before(r, b, 0) {
      HeldHas(hs, i);
      assert HandleOk(heap, hs[i]);
      assert r.buf in multiset(hs[i].finalizers);
    }
  }

  lemma RefsFrame(heap: Heap, heap': Heap, refs: set<Ref>, finalizers: seq<nat>, b: nat, referenced: bool,
                  owners: multiset<nat>)
    requires RefsOk(heap, refs, finalizers, b, referenced) && KeepsIntact(heap, heap', owners)
    requires multiset(finalizers) <= owners && (referenced ==> b in owners)
    ensures RefsOk(heap', refs, finalizers, b, referenced)
  {
    hide Intact;
    forall r | r in refs ensures Intact(heap', r) {
      assert r.buf in finalizers ==> r.buf in multiset(finalizers);
    }
  }

  /** A sole owner moves its buffer. */
  lemma Moved(heap: Heap, b: nat, finalizers: seq<nat>, hs: seq<Handle>, refs: set<Ref>, b': nat, buf: Buffer)
    requires Ownership(heap, b, finalizers, hs, refs, false) && heap[b].count == 1
    requires b' !in heap && buf.count == 1
    ensures Ownership((heap - {b})[b' := buf], b', finalizers, hs, refs, false)
    ensures Unshared(hs, refs, b', 0)
  {
    hide Held, HandleOk, Intact, Counted;
    var others := multiset(finalizers) + Held(hs);
    SoleOwner(heap, b, finalizers, hs, refs);
    assert Owners(b, finalizers, hs) == others + multiset{b};
    assert Owners(b', finalizers, hs) == others + multiset{b'};
    MoveCounted(heap, others, b, b', buf);
    HandlesFrame(heap, (heap - {b})[b' := buf], hs, others);
    RefsFrame(heap, (heap - {b})[b' := buf], refs, finalizers, b, false, others);
    NotYet(heap, b, finalizers, hs, refs, false, b');
  }

  /** A buffer that is not there yet is not read. */
  lemma NotYet(heap: Heap, b: nat, finalizers: seq<nat>, hs: seq<Handle>, refs: set<Ref>, referenced: bool, b': nat)
    requires Ownership(heap, b, finalizers, hs, refs, referenced) && b' !in heap
    ensures Unshared(hs, refs, b', 0)
  {
    hide Holds, Recorded, RecordedObj, Counted, Held;
    forall i, r | 0 <= i < |hs| && r in hs[i].refs ensures Before(r, b', 0) {
      assert HandleOk(heap, hs[i]);
    }
  }

  /** A new buffer takes over; the zone keeps the old one if something in it is referenced. */
  function Replaced(heap: Heap, b: nat, referenced: bool, b': nat, buf: Buffer): Heap
    requires b in heap && heap[b].count > 0 && b' !in heap
  {
    if referenced then heap[b' := buf] else Decr(heap[b' := buf], b)
  }

  lemma ReplacedOwned(heap: Heap, b: nat, finalizers: seq<nat>, hs: seq<Handle>, refs: set<Ref>, referenced: bool,
                      b': nat, buf: Buffer)
    requires Ownership(heap, b, finalizers, hs, refs, referenced) && b' !in heap && buf.count == 1
    ensures heap[b].count > 0
    ensures var heap' := Replaced(heap, b, referenced, b', buf);
            var fs := if referenced then finalizers + [b] else finalizers;
            Ownership(heap', b', fs, hs, refs, false) && heap'[b'] == buf && heap'.Keys <= heap.Keys + {b'}
    ensures Unshared(hs, refs, b', 0)
  {
    hide Held, HandleOk, Intact, Counted;
    var owners := Owners(b, finalizers, hs);
    var others := multiset(finalizers) + Held(hs);
    var heap1 := heap[b' := buf];
    NotYet(heap, b, finalizers, hs, refs, referenced, b');
    MallocCounted(heap, owners, b', buf);
    HandlesFrame(heap, heap1, hs, owners);
    RefsFrame(heap, heap1, refs, finalizers, b, referenced, owners);
    DecrCounted(heap, owners, b);
    assert Owners(b', finalizers, hs) == others + multiset{b'};
    assert Owners(b', finalizers + [b], hs) == owners + multiset{b'};
    if !referenced {
      Abandoned(heap1, owners + multiset{b'}, b, others, b');
      HandlesFrame(heap1, Decr(heap1, b), hs, others);
      RefsFrame(heap1, Decr(heap1, b), refs, finalizers, b, false, others);
    }
  }

  lemma Abandoned(heap: Heap, owners: multiset<nat>, b: nat, others: multiset<nat>, b': nat)
    requires Counted(heap, owners) && owners == multiset{b} + others + multiset{b'} && b != b'
    ensures b in heap && heap[b].count > 0 && b' in heap
    ensures Counted(Decr(heap, b), others + multiset{b'}) && KeepsIntact(heap, Decr(heap, b), others)
    ensures Decr(heap, b)[b'] == heap[b']
  {
    hide Intact;
    assert owners - multiset{b} == others + multiset{b'};
    DecrCounted(heap, owners, b);
    assert b' in owners;
  }

  /** flush_zone: the zone becomes an owner of the buffer that it reads. */
  lemma Flushed(heap: Heap, b: nat, finalizers: seq<nat>, hs: seq<Handle>, refs: set<Ref>)
    requires Ownership(heap, b, finalizers, hs, refs, true)
    ensures Ownership(Incr(heap, b), b, finalizers + [b], hs, refs, false)
  {
    hide Held, HandleOk, Intact, Counted;
    var owners := Owners(b, finalizers, hs);
    IncrCounted(heap, owners, b);
    HandlesFrame(heap, Incr(heap, b), hs, owners);
    RefsFrame(heap, Incr(heap, b), refs, finalizers, b, true, owners);
    assert Owners(b, finalizers + [b], hs) == owners + multiset{b};
  }

  /** A finished object takes the zone and its finalizers with it. */
  lemma HandedOut(heap: Heap, b: nat, hs: seq<Handle>, h: Handle)
    requires Ownership(heap, b, h.finalizers, hs, h.refs, false)
    requires Holds(h.zone, h.root, h.v, 0, |h.zone|) && Recorded(h.zone, h.refs) && RecordedObj(h.root, h.refs)
    ensures Ownership(heap, b, [], hs + [h], {}, false)
  {
    hide Held, Holds, Recorded, RecordedObj, Intact, Counted;
    HeldSnoc(hs, h);
    assert Owners(b, [], hs + [h]) == Owners(b, h.finalizers, hs);
    assert HandleOk(heap, h);
    forall i | 0 <= i < |hs + [h]| ensures HandleOk(heap, (hs + [h])[i]) {
      if i < |hs| {
        assert HandleOk(heap, hs[i]);
      }
    }
  }

  lemma UnsharedHandedOut(hs: seq<Handle>, h: Handle, b: nat, at: nat)
    requires Unshared(hs, h.refs, b, at)
    ensures Unshared(hs + [h], {}, b, at)
  {
    forall i, r | 0 <= i < |hs + [h]| && r in (hs + [h])[i].refs ensures Before(r, b, at) {
      if i < |hs| {
        assert r in hs[i].refs;
      }
    }
  }

  /** New references into the current buffer, with the flag set. */
  lemma RefsGrown(heap: Heap, b: nat, finalizers: seq<nat>, hs: seq<Handle>, refs: set<Ref>, referenced: bool,
                  refs': set<Ref>, referenced': bool, data: seq<byte>, lo: nat, hi: nat)
    requires Ownership(heap, b, finalizers, hs, refs, referenced)
    requires Grew(refs, referenced, refs', referenced', b, data, lo, hi)
    requires |data| <= |heap[b].bytes| && data == heap[b].bytes[..|data|]
    ensures Ownership(heap, b, finalizers, hs, refs', referenced')
    ensures Unshared(hs, refs, b, lo) && lo <= hi ==> Unshared(hs, refs', b, hi)
  {
    hide Held, HandleOk, Counted;
    forall r | r in refs' ensures Intact(heap, r) && (r.buf in finalizers || (r.buf == b && referenced')) {
      if r in refs {
        assert Intact(heap, r);
      } else {
        assert InPlace(r, b, data, lo, hi);
        assert data[r.off..r.off + |r.bytes|] == heap[b].bytes[r.off..r.off + |r.bytes|];
      }
    }
    if Unshared(hs, refs, b, lo) && lo <= hi {
      UnsharedLater(hs, refs, b, lo, hi);
      forall r | r in refs' ensures Before(r, b, hi) {
        if r !in refs {
          assert InPlace(r, b, data, lo, hi);
        }
      }
    }
  }

  /** New bytes beyond everything that is read. */
  lemma Filled(heap: Heap, b: nat, finalizers: seq<nat>, hs: seq<Handle>, refs: set<Ref>, referenced: bool, at: nat,
               bytes: seq<byte>)
    requires Ownership(heap, b, finalizers, hs, refs, referenced) && Unshared(hs, refs, b, at)
    requires at <= |heap[b].bytes| == |bytes| && bytes[..at] == heap[b].bytes[..at]
    ensures Ownership(heap[b := heap[b].(bytes := bytes)], b, finalizers, hs, refs, referenced)
  {
    hide Held, Holds, Recorded, RecordedObj, Intact, Before;
    var heap' := heap[b := heap[b].(bytes := bytes)];
    forall i | 0 <= i < |hs| ensures HandleOk(heap', hs[i]) {
      assert HandleOk(heap, hs[i]);
      forall r | r in hs[i].refs ensures Intact(heap', r) {
        FillIntact(heap, b, at, bytes, r);
      }
    }
    forall r | r in refs ensures Intact(heap', r) {
      FillIntact(heap, b, at, bytes, r);
    }
  }

  /** A handle that goes away gives up its buffers, and no other object notices. */
  lemma Dropped(heap: Heap, heap': Heap, b: nat, finalizers: seq<nat>, hs: seq<Handle>, refs: set<Ref>,
                referenced: bool, i: nat)
    requires Ownership(heap, b, finalizers, hs, refs, referenced) && i < |hs|
    requires var rest := hs[..i] + hs[i + 1..];
             var owners := Owners(b, finalizers, rest);
             Counted(heap', owners) && KeepsIntact(heap, heap', owners)
    ensures Ownership(heap', b, finalizers, hs[..i] + hs[i + 1..], refs, referenced)
  {
    hide Held, Holds, Recorded, RecordedObj, Intact, HandleOk;
    var rest := hs[..i] + hs[i + 1..];
    var owners := Owners(b, finalizers, rest);
    assert HandlesOk(heap, rest);
    HandlesFrame(heap, heap', rest, owners);
    RefsFrame(heap, heap', refs, finalizers, b, referenced, owners);
    assert b in owners;
  }

  lemma UnsharedDropped(hs: seq<Handle>, refs: set<Ref>, b: nat, at: nat, i: nat)
    requires Unshared(hs, refs, b, at) && i < |hs|
    ensures Unshared(hs[..i] + hs[i + 1..], refs, b, at)
  {
    hide Before;
    var rest := hs[..i] + hs[i + 1..];
    forall j, r | 0 <= j < |rest| && r in rest[j].refs ensures Before(r, b, at) {
      var k := if j < i then j else j + 1;
      assert rest[j] == hs[k] && r in hs[k].refs;
    }
  }
}
