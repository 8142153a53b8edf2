/**
 The v1 parser's stack: each open container is a copied object whose size counts the items stored so far, with the
 number that is left, what comes next, and the map key that waits for its value. The last entry is scratch.
 */
module PartialObjects {
  import opened Format
  import opened Resumption
  import opened Arena
  import opened Parsing

  datatype Unit = Unit(obj: Obj, count: nat, next: ItemKind, key: Obj)

  /** The slots that are stored: a key is stored with its value. */
  function Stored(f: Frame): nat {
    if f.isMap then 2 * (|f.done| / 2) else |f.done|
  }

  /** The first n slots of the block hold the first n values; the slots from there on are raw. */
  ghost predicate Filled(z: Zone, blk: nat, vs: seq<Value>, n: nat, hi: nat) {
    && blk < hi <= |z| && n <= |vs| && n <= |z[blk]|
    && (forall i | 0 <= i < n :: Holds(z, z[blk][i], vs[i], blk + 1, hi))
    && (forall i | n <= i < |z[blk]| :: z[blk][i] == Raw)
  }

  ghost predicate Partial(z: Zone, u: Unit, f: Frame, hi: nat) {
    && |f.done| < Need(f)
    && u.obj.OCont? && u.obj.isMap == f.isMap && Slots(f.isMap, u.obj.size) == Stored(f)
    && Elem(u.next, u.count) == ElemOf(f)
    && u.obj.blk < hi <= |z| && |z[u.obj.blk]| == Need(f) && Filled(z, u.obj.blk, f.done, Stored(f), hi)
    && (Stored(f) < |f.done| ==> Holds(z, u.key, f.done[Stored(f)], u.obj.blk + 1, hi))
  }

  function Above(z: Zone, stk: seq<Unit>, j: nat): nat
    requires j < |stk|
  {
    if j + 2 < |stk| && stk[j + 1].obj.OCont? then stk[j + 1].obj.blk else |z|
  }

  ghost predicate Stacked(z: Zone, stk: seq<Unit>, fs: seq<Frame>) {
    && |stk| == |fs| + 1
    && forall j | 0 <= j < |fs| :: Partial(z, stk[j], fs[j], Above(z, stk, j))
  }

  /** The first block that may belong to a new value. */
  function Floor(stk: seq<Unit>): nat {
    if |stk| >= 2 && stk[|stk| - 2].obj.OCont? then stk[|stk| - 2].obj.blk + 1 else 0
  }

  lemma PartialFrame(z: Zone, z': Zone, u: Unit, f: Frame, hi: nat, hi': nat)
    requires Partial(z, u, f, hi) && hi <= hi' <= |z'| && |z| <= |z'|
    requires forall b | u.obj.blk <= b < hi :: z'[b] == z[b]
    ensures Partial(z', u, f, hi')
  {
    var blk := u.obj.blk;
    forall i | 0 <= i < Stored(f) ensures Holds(z', z'[blk][i], f.done[i], blk + 1, hi') {
      HoldsFrame(z, z', z[blk][i], f.done[i], blk + 1, hi, blk + 1, hi');
    }
    if Stored(f) < |f.done| {
      HoldsFrame(z, z', u.key, f.done[Stored(f)], blk + 1, hi, blk + 1, hi');
    }
  }

  /** unpack_array_item: the next slot gets the object, and the size counts it. */
  function StoreItem(z: Zone, o: Obj, x: Obj): Zone
    requires o.OCont? && o.blk < |z| && o.size < |z[o.blk]|
  {
    Put(z, Ptr(o.blk, o.size), x)
  }

  /** unpack_map_item: the next two slots get the key and the value. */
  function StorePair(z: Zone, o: Obj, k: Obj, x: Obj): Zone
    requires o.OCont? && o.blk < |z| && 2 * o.size + 1 < |z[o.blk]|
  {
    Put(Put(z, Ptr(o.blk, 2 * o.size), k), Ptr(o.blk, 2 * o.size + 1), x)
  }

  /** What is stored once the value x of v has arrived in the container u, and the container as it then is. */
  function ZoneAfter(z: Zone, u: Unit, x: Obj): Zone
    requires u.obj.OCont? && u.obj.blk < |z|
    requires u.next == ArrayItem ==> u.obj.size < |z[u.obj.blk]|
    requires u.next == MapValue ==> 2 * u.obj.size + 1 < |z[u.obj.blk]|
  {
    match u.next
    case ArrayItem => StoreItem(z, u.obj, x)
    case MapKey => z
    case MapValue => StorePair(z, u.obj, u.key, x)
  }

  function UnitAfter(u: Unit, x: Obj): Unit
    requires u.obj.OCont? && (u.next != MapKey ==> u.count > 0)
  {
    match u.next
    case ArrayItem => u.(obj := u.obj.(size := u.obj.size + 1), count := u.count - 1)
    case MapKey => u.(key := x, next := MapValue)
    case MapValue => u.(obj := u.obj.(size := u.obj.size + 1), count := u.count - 1, next := MapKey)
  }

  /** Where the next value goes, and how many are left. */
  lemma Counting(z: Zone, u: Unit, f: Frame, hi: nat)
    requires Partial(z, u, f, hi)
    ensures u.count == f.size - u.obj.size && 0 < u.count
    ensures u.next == ArrayItem ==> !f.isMap && u.obj.size == |f.done|
    ensures u.next == MapKey ==> f.isMap && 2 * u.obj.size == |f.done|
    ensures u.next == MapValue ==> f.isMap && 2 * u.obj.size + 1 == |f.done|
  {
    hide Holds, Filled;
  }

  lemma FillNext(z: Zone, blk: nat, vs: seq<Value>, n: nat, x: Obj)
    requires Filled(z, blk, vs, n, |z|) && n < |vs| && n < |z[blk]| && Holds(z, x, vs[n], blk + 1, |z|)
    ensures Filled(Put(z, Ptr(blk, n), x), blk, vs, n + 1, |z|)
  {
    var z' := Put(z, Ptr(blk, n), x);
    forall i | 0 <= i < n + 1 ensures Holds(z', z'[blk][i], vs[i], blk + 1, |z|) {
      HoldsFrame(z, z', z'[blk][i], vs[i], blk + 1, |z|, blk + 1, |z|);
    }
  }

  lemma FillMore(z: Zone, blk: nat, vs: seq<Value>, n: nat, v: Value, hi: nat)
    requires Filled(z, blk, vs, n, hi)
    ensures Filled(z, blk, vs + [v], n, hi)
  {
    hide Holds;
  }

  lemma FullHolds(z: Zone, o: Obj, isMap: bool, vs: seq<Value>)
    requires o.OCont? && o.isMap == isMap && Slots(isMap, o.size) == |vs| > 0
    requires Filled(z, o.blk, vs, |vs|, |z|) && |z[o.blk]| == |vs|
    ensures Holds(z, o, Cont(isMap, vs), o.blk, |z|)
  {
  }

  /** The container u has room for a value, and what becomes of it when the value v arrives as x. */
  ghost predicate Takes(z: Zone, u: Unit, f: Frame, x: Obj, v: Value) {
    && u.count > 0 && u.obj.OCont? && u.obj.blk < |z|
    && (u.next == ArrayItem ==> u.obj.size < |z[u.obj.blk]|)
    && (u.next == MapValue ==> 2 * u.obj.size + 1 < |z[u.obj.blk]|)
    && |ZoneAfter(z, u, x)| == |z|
    && (forall b | 0 <= b < |z| && b != u.obj.blk :: ZoneAfter(z, u, x)[b] == z[b])
    && (|f.done| + 1 == Need(f) <==> u.next != MapKey && u.count == 1)
    && (|f.done| + 1 < Need(f) ==> Partial(ZoneAfter(z, u, x), UnitAfter(u, x), f.(done := f.done + [v]), |z|))
    && (|f.done| + 1 == Need(f) ==>
        Holds(ZoneAfter(z, u, x), UnitAfter(u, x).obj, Cont(f.isMap, f.done + [v]), u.obj.blk, |z|))
  }

  lemma TakeItem(z: Zone, u: Unit, f: Frame, x: Obj, v: Value)
    requires Partial(z, u, f, |z|) && Holds(z, x, v, u.obj.blk + 1, |z|) && u.next == ArrayItem
    ensures Takes(z, u, f, x, v)
  {
    hide Holds, Filled;
    Counting(z, u, f, |z|);
    var blk, vs := u.obj.blk, f.done + [v];
    FillMore(z, blk, f.done, |f.done|, v, |z|);
    FillNext(z, blk, vs, |f.done|, x);
    if |vs| == Need(f) {
      FullHolds(ZoneAfter(z, u, x), UnitAfter(u, x).obj, f.isMap, vs);
    }
  }

  lemma TakeKey(z: Zone, u: Unit, f: Frame, x: Obj, v: Value)
    requires Partial(z, u, f, |z|) && Holds(z, x, v, u.obj.blk + 1, |z|) && u.next == MapKey
    ensures Takes(z, u, f, x, v)
  {
    hide Holds, Filled;
    Counting(z, u, f, |z|);
    FillMore(z, u.obj.blk, f.done, |f.done|, v, |z|);
  }

  lemma TakePair(z: Zone, u: Unit, f: Frame, x: Obj, v: Value)
    requires Partial(z, u, f, |z|) && Holds(z, x, v, u.obj.blk + 1, |z|) && u.next == MapValue
    ensures Takes(z, u, f, x, v)
  {
    hide Holds, Filled;
    Counting(z, u, f, |z|);
    var blk, vs, n := u.obj.blk, f.done + [v], |f.done| - 1;
    var z1 := Put(z, Ptr(blk, n), u.key);
    FillMore(z, blk, f.done, n, v, |z|);
    FillNext(z, blk, vs, n, u.key);
    HoldsFrame(z, z1, x, v, blk + 1, |z|, blk + 1, |z|);
    FillNext(z1, blk, vs, n + 1, x);
    if |vs| == Need(f) {
      FullHolds(ZoneAfter(z, u, x), UnitAfter(u, x).obj, f.isMap, vs);
    }
  }

  /** The entry of the innermost container, below the scratch entry. */
  function Inner(stk: seq<Unit>): Unit
    requires |stk| >= 2
  {
    stk[|stk| - 2]
  }

  lemma StackTakes(z: Zone, stk: seq<Unit>, fs: seq<Frame>, x: Obj, v: Value)
    requires Stacked(z, stk, fs) && fs != [] && Holds(z, x, v, Floor(stk), |z|)
    ensures Takes(z, Inner(stk), Top(fs), x, v)
  {
    hide Holds, Takes;
    var n := |fs|;
    assert Partial(z, stk[n - 1], fs[n - 1], Above(z, stk, n - 1));
    match stk[n - 1].next
    case ArrayItem => TakeItem(z, stk[n - 1], fs[n - 1], x, v);
    case MapKey => TakeKey(z, stk[n - 1], fs[n - 1], x, v);
    case MapValue => TakePair(z, stk[n - 1], fs[n - 1], x, v);
  }

  /** The blocks of the first n containers climb the stack. */
  ghost predicate Climbs(z: Zone, stk: seq<Unit>, n: nat)
    requires n <= |stk|
  {
    && (forall i | 0 <= i < n :: stk[i].obj.OCont? && stk[i].obj.blk < |z|)
    && (forall i, j | 0 <= i < j < n :: stk[i].obj.blk < stk[j].obj.blk)
  }

  lemma StackedAt(z: Zone, stk: seq<Unit>, fs: seq<Frame>, j: nat)
    requires Stacked(z, stk, fs) && j < |fs|
    ensures |stk| == |fs| + 1 && Partial(z, stk[j], fs[j], Above(z, stk, j))
  {
    hide Partial, Above;
  }

  /** Below the innermost container the blocks of an entry end where the next entry's begin. */
  lemma AboveOuter(z: Zone, z': Zone, stk: seq<Unit>, stk': seq<Unit>, n: nat, j: nat)
    requires |stk| == n + 1 && j < n - 1 && Climbs(z, stk, n) && |z'| == |z|
    requires n <= |stk'| <= n + 1 && stk'[..n - 1] == stk[..n - 1]
    requires |stk'| == n + 1 ==> stk'[n - 1].obj.OCont? && stk'[n - 1].obj.blk == stk[n - 1].obj.blk
    ensures stk'[j] == stk[j] && stk[j].obj.OCont? && stk[n - 1].obj.OCont?
    ensures Above(z, stk, j) <= stk[n - 1].obj.blk < |z|
    ensures Above(z, stk, j) <= Above(z', stk', j) <= |z'|
  {
    assert stk'[j] == stk'[..n - 1][j] == stk[j];
    if j + 1 < n - 1 {
      assert stk'[j + 1] == stk'[..n - 1][j + 1] == stk[j + 1];
    }
  }

  /** A change of the innermost container's block leaves the containers around it as they were. */
  lemma OuterFrame(z: Zone, z': Zone, stk: seq<Unit>, fs: seq<Frame>, stk': seq<Unit>)
    requires Stacked(z, stk, fs) && fs != [] && |z'| == |z| && |stk'| >= |fs| && stk'[..|fs| - 1] == stk[..|fs| - 1]
    requires |stk'| == |fs| + 1 ==> stk'[|fs| - 1].obj.OCont? && stk'[|fs| - 1].obj.blk == Inner(stk).obj.blk
    requires |stk'| <= |fs| + 1
    requires forall b | 0 <= b < |z| && b != Inner(stk).obj.blk :: z'[b] == z[b]
    ensures forall j | 0 <= j < |fs| - 1 :: Partial(z', stk'[j], fs[j], Above(z', stk', j))
  {
    hide Stacked, Partial, Above, Climbs;
    var n := |fs|;
    Climbing(z, stk, fs);
    forall j | 0 <= j < n - 1 ensures Partial(z', stk'[j], fs[j], Above(z', stk', j)) {
      StackedAt(z, stk, fs, j);
      AboveOuter(z, z', stk, stk', n, j);
      PartialFrame(z, z', stk[j], fs[j], Above(z, stk, j), Above(z', stk', j));
    }
  }

  lemma Climbing(z: Zone, stk: seq<Unit>, fs: seq<Frame>)
    requires Stacked(z, stk, fs)
    ensures |stk| == |fs| + 1 && Climbs(z, stk, |fs|)
  {
    hide Holds, Filled;
    forall i | 0 <= i < |fs| ensures stk[i].obj.OCont? && stk[i].obj.blk < |z| {
      StackedAt(z, stk, fs, i);
    }
    forall i, j | 0 <= i < j < |fs| ensures stk[i].obj.blk < stk[j].obj.blk {
      ClimbingTo(z, stk, fs, i, j);
    }
  }

  lemma {:induction false} ClimbingTo(z: Zone, stk: seq<Unit>, fs: seq<Frame>, i: nat, j: nat)
    requires Stacked(z, stk, fs) && i < j < |fs|
    ensures stk[i].obj.OCont? && stk[j].obj.OCont? && stk[i].obj.blk < stk[j].obj.blk
    decreases j
  {
    hide Holds, Filled, Stacked;
    StackedAt(z, stk, fs, j);
    StackedAt(z, stk, fs, j - 1);
    if i < j - 1 {
      ClimbingTo(z, stk, fs, i, j - 1);
    }
  }

  /** The container is not full: the stack stays as high as it is. */
  lemma StackNext(z: Zone, stk: seq<Unit>, fs: seq<Frame>, x: Obj, v: Value)
    requires Stacked(z, stk, fs) && fs != [] && Takes(z, Inner(stk), Top(fs), x, v) && !Fills(fs)
    ensures Stacked(ZoneAfter(z, Inner(stk), x), stk[|stk| - 2 := UnitAfter(Inner(stk), x)], Add(fs, v))
  {
    hide Holds, Filled;
    var n := |fs|;
    var u := Inner(stk);
    var z', stk', fs' := ZoneAfter(z, u, x), stk[n - 1 := UnitAfter(u, x)], Add(fs, v);
    assert Partial(z, stk[n - 1], fs[n - 1], Above(z, stk, n - 1));
    OuterFrame(z, z', stk, fs, stk');
    forall j | 0 <= j < |fs'| ensures Partial(z', stk'[j], fs'[j], Above(z', stk', j)) {
      if j < n - 1 {
        assert Partial(z', stk'[j], fs[j], Above(z', stk', j));
      }
    }
  }

  /** The container is full: its entry becomes scratch and its object is the value that is complete. */
  lemma StackPop(z: Zone, stk: seq<Unit>, fs: seq<Frame>, x: Obj, v: Value)
    requires Stacked(z, stk, fs) && fs != [] && Takes(z, Inner(stk), Top(fs), x, v) && Fills(fs)
    ensures var stk' := stk[..|stk| - 2] + [UnitAfter(Inner(stk), x)];
            var z' := ZoneAfter(z, Inner(stk), x);
            && Stacked(z', stk', Pop(fs))
            && Holds(z', UnitAfter(Inner(stk), x).obj, Cont(Top(fs).isMap, Top(fs).done + [v]), Floor(stk'), |z'|)
  {
    hide Holds, Filled;
    var n := |fs|;
    var u := Inner(stk);
    var z', stk', fs' := ZoneAfter(z, u, x), stk[..n - 1] + [UnitAfter(u, x)], Pop(fs);
    assert Partial(z, stk[n - 1], fs[n - 1], Above(z, stk, n - 1));
    OuterFrame(z, z', stk, fs, stk');
    forall j | 0 <= j < |fs'| ensures Partial(z', stk'[j], fs'[j], Above(z', stk', j)) {
      assert Partial(z', stk'[j], fs[j], Above(z', stk', j));
    }
    Climbing(z, stk, fs);
    HoldsFrame(z', z', UnitAfter(u, x).obj, Cont(Top(fs).isMap, Top(fs).done + [v]), u.obj.blk, |z|, Floor(stk'), |z'|);
  }

  /** A new container: the scratch entry becomes its entry, and a fresh scratch entry is pushed. */
  lemma StackPush(z: Zone, stk: seq<Unit>, fs: seq<Frame>, isMap: bool, n: nat, scratch: Unit)
    requires Stacked(z, stk, fs) && n > 0
    ensures var u := Unit(OCont(isMap, 0, |z|), n, if isMap then MapKey else ArrayItem, Top(stk).key);
            Stacked(z + [RawBlock(Slots(isMap, n))], Pop(stk) + [u, scratch], fs + [Frame(isMap, n, [])])
  {
    hide Holds;
    var u := Unit(OCont(isMap, 0, |z|), n, if isMap then MapKey else ArrayItem, Top(stk).key);
    var z', stk', fs' := z + [RawBlock(Slots(isMap, n))], Pop(stk) + [u, scratch], fs + [Frame(isMap, n, [])];
    forall j | 0 <= j < |fs'| ensures Partial(z', stk'[j], fs'[j], Above(z', stk', j)) {
      if j < |fs| {
        assert Partial(z, stk[j], fs[j], Above(z, stk, j));
        PartialFrame(z, z', stk[j], fs[j], Above(z, stk, j), Above(z', stk', j));
      }
    }
  }
}
