/**
 clone: a deep copy of an object into a zone of its own, whose size is computed first. The copy of an ext takes the
 size of its data plus one in 32 bits, the computed size in 64.
 */
module Cloning {
  import opened Bytes
  import opened Format
  import opened Encoding
  import opened Limiting
  import opened Arena
  import opened Packing

  const SIZEOF_OBJECT: nat := 24
  const ALIGNOF_OBJECT: nat := 8

  /** A copied value is what a parser delivers that copies every body and refuses none. */
  const COPYING := V2(DEFAULT_LIMITS, (kind, size) => false)

  /** The bytes for the blocks and bodies of a value. */
  ghost function ZoneSize(v: Value): nat
    decreases v, 1
  {
    match v
    case Blob(_, body) => |body|
    case Cont(_, items) => SIZEOF_OBJECT * |items| + ZoneSizes(items)
    case _ => 0
  }

  ghost function ZoneSizes(vs: seq<Value>): nat
    decreases vs, 0
  {
    if vs == [] then 0 else ZoneSize(vs[0]) + ZoneSizes(vs[1..])
  }

  lemma {:induction false} ZoneSizesSnoc(vs: seq<Value>, i: nat)
    requires i < |vs|
    ensures ZoneSizes(vs[..i + 1]) == ZoneSizes(vs[..i]) + ZoneSize(vs[i])
  {
    if i == 0 {
      assert vs[..1][1..] == [] && vs[..0] == [];
    } else {
      ZoneSizesSnoc(vs[1..], i - 1);
      assert vs[..i + 1][1..] == vs[1..][..i] && vs[..i][1..] == vs[1..][..i - 1];
    }
  }

  lemma {:induction false} DeliveredAt(m: Mode, vs: seq<Value>, i: nat)
    requires i < |vs|
    ensures AllDelivered(m, vs)[i] == Delivered(m, vs[i])
  {
    if i > 0 {
      DeliveredAt(m, vs[1..], i - 1);
    }
  }

  /** It needs no buffer: a body that is not empty is in the zone. */
  ghost predicate Detached(o: Obj) {
    o.OBlob? && o.bytes != [] ==> o.loc == InZone
  }

  ghost predicate AllDetached(z: Zone, lo: nat) {
    forall b, i | lo <= b < |z| && 0 <= i < |z[b]| :: Detached(z[b][i])
  }

  function AlignedSize(size: nat, align: nat): nat
    requires align > 0
  {
    (size + align - 1) / align * align
  }

  // ---------------------------------------------------------------- the size

  method AlignedZoneSize(z: Zone, o: Obj, ghost v: Value, ghost lo: nat, ghost hi: nat) returns (s: nat)
    requires WellFormed(v) && Holds(z, o, v, lo, hi)
    ensures s == ZoneSize(v)
    decreases v, 1
  {
    match o
    case OCont(isMap, size, blk) =>
      s := AlignedItemsSize(z, o, v, lo, hi);
    case OBlob(kind, size, _, _) =>
      s := AlignedSize(if kind == ExtK then size + 1 else size, 1);
    case _ =>
      s := 0;
  }

  method AlignedItemsSize(z: Zone, o: Obj, ghost v: Value, ghost lo: nat, ghost hi: nat) returns (s: nat)
    requires WellFormed(v) && Holds(z, o, v, lo, hi) && v.Cont?
    ensures s == ZoneSize(v)
    decreases v, 0
  {
    hide Holds, WellFormed;
    ContOpen(z, o, v, lo, hi);
    var n := Slots(o.isMap, o.size);
    s := AlignedSize(SIZEOF_OBJECT * n, ALIGNOF_OBJECT);
    var i := 0;
    while i < n
      invariant i <= n && s == SIZEOF_OBJECT * n + ZoneSizes(v.items[..i])
    {
      ContItem(z, o, v, lo, hi, i);
      var t := AlignedZoneSize(z, z[o.blk][i], v.items[i], o.blk + 1, hi);
      ZoneSizesSnoc(v.items, i);
      s := s + t;
      i := i + 1;
    }
    assert v.items[..i] == v.items;
  }

  // ---------------------------------------------------------------- the copy

  /** A zone with the blocks that were allocated in it, and the bytes that were asked for. */
  class Target {
    var blocks: Zone
    var requested: nat

    constructor ()
      ensures blocks == [] && requested == 0
    {
      blocks, requested := [], 0;
    }

    /** A block of raw objects. */
    method AllocateObjects(n: nat) returns (blk: nat)
      modifies this
      ensures blk == |old(blocks)| && blocks == old(blocks) + [RawBlock(n)]
      ensures requested == old(requested) + SIZEOF_OBJECT * n
    {
      blk := |blocks|;
      blocks := blocks + [RawBlock(n)];
      requested := requested + SIZEOF_OBJECT * n;
    }

    method AllocateChars(n: nat)
      modifies this`requested
      ensures requested == old(requested) + n
    {
      requested := requested + n;
    }

    /** The copy is in new blocks, reads no buffer, and holds the value but for what 32 bits lose of it. */
    method Copy(z: Zone, o: Obj, ghost v: Value, ghost lo: nat, ghost hi: nat) returns (o': Obj)
      requires WellFormed(v) && Holds(z, o, v, lo, hi)
      modifies this
      ensures |blocks| >= |old(blocks)| && blocks[..|old(blocks)|] == old(blocks)
      ensures Holds(blocks, o', Delivered(COPYING, v), |old(blocks)|, |blocks|)
      ensures Detached(o') && AllDetached(blocks, |old(blocks)|)
      ensures requested == old(requested) + ZoneSize(Delivered(COPYING, v))
      decreases v, 1
    {
      match o
      case OBlob(kind, size, _, bytes) =>
        var n := if kind == ExtK then (size + 1) % TWO_TO_THE_32 else size;
        AllocateChars(n);
        o' := OBlob(kind, size, InZone, bytes[..n]);
      case OCont(_, _, _) =>
        o' := CopyItems(z, o, v, lo, hi);
      case _ =>
        o' := o;
    }

    method CopyItems(z: Zone, o: Obj, ghost v: Value, ghost lo: nat, ghost hi: nat) returns (o': Obj)
      requires WellFormed(v) && Holds(z, o, v, lo, hi) && v.Cont?
      modifies this
      ensures |blocks| >= |old(blocks)| && blocks[..|old(blocks)|] == old(blocks)
      ensures Holds(blocks, o', Delivered(COPYING, v), |old(blocks)|, |blocks|)
      ensures Detached(o') && AllDetached(blocks, |old(blocks)|)
      ensures requested == old(requested) + ZoneSize(Delivered(COPYING, v))
      decreases v, 0
    {
      hide Holds, WellFormed, Delivered;
      ContOpen(z, o, v, lo, hi);
      var n := Slots(o.isMap, o.size);
      ghost var items := AllDelivered(COPYING, v.items);
      var blk := AllocateObjects(n);
      var i := 0;
      while i < n
        invariant i <= n && blk < |blocks| && |blocks[blk]| == n && blocks[..blk] == old(blocks)
        invariant forall j | 0 <= j < i :: Holds(blocks, blocks[blk][j], items[j], blk + 1, |blocks|)
        invariant AllDetached(blocks, blk)
        invariant requested == old(requested) + SIZEOF_OBJECT * n + ZoneSizes(items[..i])
      {
        ContItem(z, o, v, lo, hi, i);
        ghost var was := blocks;
        var x := Copy(z, z[o.blk][i], v.items[i], o.blk + 1, hi);
        DeliveredAt(COPYING, v.items, i);
        ZoneSizesSnoc(items, i);
        Filled(was, blocks, blk, i, items, x);
        blocks := Put(blocks, Ptr(blk, i), x);
        i := i + 1;
      }
      assert items[..i] == items;
      o' := OCont(o.isMap, o.size, blk);
      ItemsHeld(blocks, o', v);
    }
  }

  /** Another item in its slot: what was copied before it is as it was. */
  lemma Filled(was: Zone, z: Zone, blk: nat, n: nat, items: seq<Value>, x: Obj)
    requires blk < |was| <= |z| && z[..|was|] == was && n < |items| == |was[blk]|
    requires forall j | 0 <= j < n :: Holds(was, was[blk][j], items[j], blk + 1, |was|)
    requires Holds(z, x, items[n], |was|, |z|) && Detached(x) && AllDetached(was, blk) && AllDetached(z, |was|)
    ensures var z' := Put(z, Ptr(blk, n), x);
            && (forall j | 0 <= j <= n :: Holds(z', z'[blk][j], items[j], blk + 1, |z'|))
            && AllDetached(z', blk) && z'[..blk] == was[..blk]
  {
    hide Holds;
    assert forall b | 0 <= b < |was| :: z[b] == z[..|was|][b] == was[b];
    var z' := Put(z, Ptr(blk, n), x);
    forall j | 0 <= j <= n ensures Holds(z', z'[blk][j], items[j], blk + 1, |z'|) {
      if j < n {
        HoldsFrame(was, z', was[blk][j], items[j], blk + 1, |was|, blk + 1, |z'|);
      } else {
        HoldsFrame(z, z', x, items[n], |was|, |z|, blk + 1, |z'|);
      }
    }
  }

  lemma ItemsHeld(z: Zone, o: Obj, v: Value)
    requires WellFormed(v) && v.Cont? && o.OCont? && o.isMap == v.isMap && Slots(v.isMap, o.size) == |v.items|
    requires o.blk < |z| && |z[o.blk]| == |v.items|
    requires var items := AllDelivered(COPYING, v.items);
             forall j | 0 <= j < |items| :: Holds(z, z[o.blk][j], items[j], o.blk + 1, |z|)
    ensures Holds(z, o, Delivered(COPYING, v), o.blk, |z|)
    ensures ZoneSize(Delivered(COPYING, v)) == SIZEOF_OBJECT * |v.items| + ZoneSizes(AllDelivered(COPYING, v.items))
  {
  }

  /** A zone of exactly the computed size, or none for an object that needs no memory. */
  method Clone(z: Zone, o: Obj, ghost v: Value, ghost lo: nat, ghost hi: nat)
    returns (zone: Zone, o': Obj, size: nat, requested: nat)
    requires WellFormed(v) && Holds(z, o, v, lo, hi)
    ensures Holds(zone, o', Delivered(COPYING, v), 0, |zone|) && Detached(o') && AllDetached(zone, 0)
    ensures size == ZoneSize(v) && requested == ZoneSize(Delivered(COPYING, v))
  {
    hide Holds, Delivered, ZoneSize;
    size := AlignedZoneSize(z, o, v, lo, hi);
    if size == 0 {
      NothingToCopy(z, o, v, lo, hi);
      return [], o, size, 0;
    }
    var target := new Target();
    o' := target.Copy(z, o, v, lo, hi);
    zone, requested := target.blocks, target.requested;
  }

  lemma NothingToCopy(z: Zone, o: Obj, v: Value, lo: nat, hi: nat)
    requires WellFormed(v) && Holds(z, o, v, lo, hi) && ZoneSize(v) == 0
    ensures Delivered(COPYING, v) == v && Holds([], o, v, 0, 0) && Detached(o)
  {
  }

  /** The clone is the value, and asks for exactly the computed size, if and only if no ext has 2^32 bytes. */
  lemma CloneExact(v: Value)
    requires WellFormed(v)
    ensures Delivered(COPYING, v) == v <==> !LosesExt(COPYING, v)
    ensures ZoneSize(Delivered(COPYING, v)) == ZoneSize(v) <==> !LosesExt(COPYING, v)
  {
    DeliveredWhole(COPYING, v);
    SizeLost(v);
  }

  lemma {:induction false} SizeLost(v: Value)
    requires WellFormed(v)
    ensures if LosesExt(COPYING, v) then ZoneSize(Delivered(COPYING, v)) < ZoneSize(v)
            else ZoneSize(Delivered(COPYING, v)) == ZoneSize(v)
    decreases v, 1
  {
    if v.Cont? {
      SizesLost(v.items);
    }
  }

  lemma {:induction false} SizesLost(vs: seq<Value>)
    requires AllWellFormed(vs)
    ensures if AnyLosesExt(COPYING, vs) then ZoneSizes(AllDelivered(COPYING, vs)) < ZoneSizes(vs)
            else ZoneSizes(AllDelivered(COPYING, vs)) == ZoneSizes(vs)
    decreases vs, 0
  {
    if vs != [] {
      SizeLost(vs[0]);
      SizesLost(vs[1..]);
      assert AllDelivered(COPYING, vs)[1..] == AllDelivered(COPYING, vs[1..]);
    }
  }
}
