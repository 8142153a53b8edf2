/**
 Objects as the parsers build them in a zone: blocks of slots that are allocated raw and filled through pointers.
 Block 0 is the parser's own root object. An open container owns the block it fills; the blocks of its finished
 items lie above it and below the block of the container that is open inside it, so a write through the top slot
 pointer cannot reach anything finished.
 */
module Arena {
  import opened Bytes
  import opened Format
  import opened Resumption

  /** Where the bytes of a body are: in a parser's buffer, or copied to the zone. */
  datatype Loc = InBuffer(buf: nat, off: nat) | InZone

  datatype Obj =
    | Raw
    | ONil
    | OBool(b: bool)
    | OPos(n: nat)
    | ONeg(i: int)
    | OF32(bits32: nat)
    | OF64(bits64: nat)
    | OBlob(kind: Kind, size: nat, loc: Loc, bytes: seq<byte>)
    | OCont(isMap: bool, size: nat, blk: nat)

  type Zone = seq<seq<Obj>>

  datatype Ptr = Null | Ptr(blk: nat, off: nat)

  /** The 32-bit size field of an ext leaves out the type byte. */
  function SizeField(kind: Kind, len: nat): nat {
    if kind == ExtK then (len + TWO_TO_THE_32 - 1) % TWO_TO_THE_32 else len
  }

  ghost predicate IsLeaf(o: Obj, v: Value) {
    match v
    case Nil => o == ONil
    case Bool(b) => o == OBool(b)
    case UInt(n) => o == OPos(n)
    case NInt(i) => o == ONeg(i)
    case F32(n) => o == OF32(n)
    case F64(n) => o == OF64(n)
    case Blob(kind, body) => o.OBlob? && o.kind == kind && o.bytes == body && o.size == SizeField(kind, |body|)
    case Cont(isMap, items) => o.OCont? && o.isMap == isMap && o.size == 0 && items == []
  }

  /** The object o is the value v, and every block it points to, directly or not, is in lo..hi. */
  ghost predicate Holds(z: Zone, o: Obj, v: Value, lo: nat, hi: nat)
    decreases v
  {
    if v.Cont? && v.items != [] then
      && o.OCont? && o.isMap == v.isMap && Slots(v.isMap, o.size) == |v.items|
      && lo <= o.blk < hi <= |z| && |z[o.blk]| == |v.items|
      && forall i | 0 <= i < |v.items| :: Holds(z, z[o.blk][i], v.items[i], o.blk + 1, hi)
    else IsLeaf(o, v)
  }

  /** The size of a body is the number of its bytes, that of an ext the number of bytes after its type byte. */
  lemma BodySize(z: Zone, o: Obj, v: Value, lo: nat, hi: nat)
    requires Holds(z, o, v, lo, hi) && v.Blob? && (v.kind == ExtK ==> 0 < |v.body| <= TWO_TO_THE_32)
    ensures o.OBlob? && o.kind == v.kind && o.bytes == v.body
    ensures |v.body| == if v.kind == ExtK then 1 + o.size else o.size
  {
  }

  lemma {:induction false} HoldsFrame(z: Zone, z': Zone, o: Obj, v: Value, lo: nat, hi: nat, lo': nat, hi': nat)
    requires Holds(z, o, v, lo, hi) && lo' <= lo && hi <= hi' && hi <= |z| && hi' <= |z'|
    requires forall b | lo <= b < hi :: z'[b] == z[b]
    ensures Holds(z', o, v, lo', hi')
    decreases v
  {
    if v.Cont? && v.items != [] {
      forall i | 0 <= i < |v.items| ensures Holds(z', z'[o.blk][i], v.items[i], o.blk + 1, hi') {
        HoldsFrame(z, z', z[o.blk][i], v.items[i], o.blk + 1, hi, o.blk + 1, hi');
      }
    }
  }

  // ---------------------------------------------------------------- slot pointers

  predicate InZoneSlot(z: Zone, p: Ptr) {
    p.Ptr? && p.blk < |z| && p.off < |z[p.blk]|
  }

  function Slot(z: Zone, p: Ptr): Obj
    requires InZoneSlot(z, p)
  {
    z[p.blk][p.off]
  }

  function Put(z: Zone, p: Ptr, o: Obj): (z': Zone)
    requires InZoneSlot(z, p)
    ensures |z'| == |z| && |z'[p.blk]| == |z[p.blk]| && Slot(z', p) == o
    ensures forall b | 0 <= b < |z| && b != p.blk :: z'[b] == z[b]
    ensures forall i | 0 <= i < |z[p.blk]| && i != p.off :: z'[p.blk][i] == z[p.blk][i]
  {
    z[p.blk := z[p.blk][p.off := o]]
  }

  function RawBlock(n: nat): seq<Obj> {
    seq(n, _ => Raw)
  }

  function Top<T>(s: seq<T>): T
    requires s != []
  {
    s[|s| - 1]
  }

  function Pop<T>(s: seq<T>): seq<T>
    requires s != []
  {
    s[..|s| - 1]
  }

  function Bump(p: Ptr): Ptr
    requires p.Ptr?
  {
    p.(off := p.off + 1)
  }

  function BumpTop(stk: seq<Ptr>): seq<Ptr>
    requires stk != [] && Top(stk).Ptr?
  {
    Pop(stk) + [Bump(Top(stk))]
  }

  /** The container at p is open: q points to its next slot, what is before is done, what is after is raw. */
  ghost predicate Level(z: Zone, p: Ptr, q: Ptr, f: Frame, hi: nat) {
    && InZoneSlot(z, p) && InZoneSlot(z, q) && p.blk < q.blk < hi <= |z|
    && Slot(z, p) == OCont(f.isMap, f.size, q.blk)
    && |z[q.blk]| == Need(f) && q.off == |f.done|
    && (forall i | 0 <= i < |f.done| :: Holds(z, z[q.blk][i], f.done[i], q.blk + 1, hi))
    && (forall i | |f.done| < i < Need(f) :: z[q.blk][i] == Raw)
  }

  function Hi(z: Zone, stk: seq<Ptr>, j: nat): nat
    requires forall i | 0 <= i < |stk| :: stk[i].Ptr?
  {
    if j + 2 < |stk| then stk[j + 2].blk else |z|
  }

  /** The slot pointers follow the open containers from the root. */
  ghost predicate Coupled(z: Zone, stk: seq<Ptr>, fs: seq<Frame>) {
    && |stk| == |fs| + 1 && (forall i | 0 <= i < |stk| :: InZoneSlot(z, stk[i]))
    && stk[0] == Ptr(0, 0)
    && (forall i, j | 0 <= i < j < |stk| :: stk[i].blk < stk[j].blk)
    && (forall j | 0 <= j < |fs| :: Level(z, stk[j], stk[j + 1], fs[j], Hi(z, stk, j)))
  }

  /** The slot to fill next has not been filled: it is raw, or it is the root. */
  ghost predicate Vacant(z: Zone, stk: seq<Ptr>)
    requires stk != [] && InZoneSlot(z, Top(stk))
  {
    Slot(z, Top(stk)) == (if |stk| == 1 then ONil else Raw)
  }

  /** The top slot holds the value v. */
  ghost predicate TopHolds(z: Zone, stk: seq<Ptr>, v: Value)
    requires stk != [] && InZoneSlot(z, Top(stk))
  {
    Holds(z, Slot(z, Top(stk)), v, Top(stk).blk + 1, |z|)
  }

  lemma LevelFrame(z: Zone, z': Zone, p: Ptr, q: Ptr, f: Frame, hi: nat, hi': nat)
    requires Level(z, p, q, f, hi) && hi <= hi' <= |z'| && |z| <= |z'|
    requires z'[p.blk] == z[p.blk] && |z'[q.blk]| == |z[q.blk]|
    requires forall i | 0 <= i < |z[q.blk]| && i != q.off :: z'[q.blk][i] == z[q.blk][i]
    requires forall b | q.blk < b < hi :: z'[b] == z[b]
    ensures Level(z', p, q, f, hi')
  {
    forall i | 0 <= i < |f.done| ensures Holds(z', z'[q.blk][i], f.done[i], q.blk + 1, hi') {
      HoldsFrame(z, z', z[q.blk][i], f.done[i], q.blk + 1, hi, q.blk + 1, hi');
    }
  }

  /** Writing the top slot leaves every open container as it was. */
  lemma PutTop(z: Zone, stk: seq<Ptr>, fs: seq<Frame>, o: Obj)
    requires Coupled(z, stk, fs)
    ensures Coupled(Put(z, Top(stk), o), stk, fs)
  {
    hide Holds;
    var z' := Put(z, Top(stk), o);
    forall j | 0 <= j < |fs| ensures Level(z', stk[j], stk[j + 1], fs[j], Hi(z', stk, j)) {
      LevelFrame(z, z', stk[j], stk[j + 1], fs[j], Hi(z, stk, j), Hi(z', stk, j));
    }
  }

  /** A filled slot that is not the last of its container: the pointer moves on to a raw slot. */
  lemma AdvanceTop(z: Zone, stk: seq<Ptr>, fs: seq<Frame>, v: Value)
    requires Coupled(z, stk, fs) && fs != [] && !Fills(fs) && TopHolds(z, stk, v)
    ensures Coupled(z, BumpTop(stk), Add(fs, v)) && Vacant(z, BumpTop(stk))
  {
    hide Holds;
    var stk', fs' := BumpTop(stk), Add(fs, v);
    forall j | 0 <= j < |fs'| ensures Level(z, stk'[j], stk'[j + 1], fs'[j], Hi(z, stk', j)) {
      assert Level(z, stk[j], stk[j + 1], fs[j], Hi(z, stk, j));
    }
  }

  lemma CloseLevel(z: Zone, p: Ptr, q: Ptr, f: Frame, v: Value)
    requires Level(z, p, q, f, |z|) && |f.done| + 1 == Need(f)
    requires Holds(z, z[q.blk][q.off], v, q.blk + 1, |z|)
    ensures Holds(z, Slot(z, p), Cont(f.isMap, f.done + [v]), p.blk + 1, |z|)
  {
    var items := f.done + [v];
    forall i | 0 <= i < |items| ensures Holds(z, z[q.blk][i], items[i], q.blk + 1, |z|) {
    }
  }

  lemma LevelWiden(z: Zone, p: Ptr, q: Ptr, f: Frame, hi: nat, hi': nat)
    requires Level(z, p, q, f, hi) && hi <= hi' <= |z|
    ensures Level(z, p, q, f, hi')
  {
    hide Holds;
    LevelFrame(z, z, p, q, f, hi, hi');
  }

  lemma PopLevels(z: Zone, stk: seq<Ptr>, fs: seq<Frame>)
    requires Coupled(z, stk, fs) && fs != []
    ensures Coupled(z, Pop(stk), Pop(fs))
  {
    hide Level;
    var stk', fs' := Pop(stk), Pop(fs);
    forall j | 0 <= j < |fs'| ensures Level(z, stk'[j], stk'[j + 1], fs'[j], Hi(z, stk', j)) {
      LevelWiden(z, stk[j], stk[j + 1], fs[j], Hi(z, stk, j), Hi(z, stk', j));
    }
  }

  /** A filled last slot: the container around it holds all its items. */
  lemma CloseTop(z: Zone, stk: seq<Ptr>, fs: seq<Frame>, v: Value)
    requires Coupled(z, stk, fs) && fs != [] && Fills(fs) && TopHolds(z, stk, v)
    ensures Coupled(z, Pop(stk), Pop(fs))
    ensures TopHolds(z, Pop(stk), Cont(Top(fs).isMap, Top(fs).done + [v]))
  {
    hide Holds;
    var n := |fs|;
    PopLevels(z, stk, fs);
    assert Level(z, stk[n - 1], stk[n], fs[n - 1], |z|);
    CloseLevel(z, stk[n - 1], stk[n], fs[n - 1], v);
  }

  /** A new container: its header fills the top slot, and its own raw block is next. */
  lemma OpenTop(z: Zone, stk: seq<Ptr>, fs: seq<Frame>, isMap: bool, n: nat)
    requires Coupled(z, stk, fs) && n > 0
    ensures var z' := Put(z, Top(stk), OCont(isMap, n, |z|)) + [RawBlock(Slots(isMap, n))];
            var stk' := stk + [Ptr(|z|, 0)];
            Coupled(z', stk', fs + [Frame(isMap, n, [])]) && Vacant(z', stk')
  {
    hide Holds;
    PutTop(z, stk, fs, OCont(isMap, n, |z|));
    var z1 := Put(z, Top(stk), OCont(isMap, n, |z|));
    var z' := z1 + [RawBlock(Slots(isMap, n))];
    var stk', fs' := stk + [Ptr(|z|, 0)], fs + [Frame(isMap, n, [])];
    forall j | 0 <= j < |fs'| ensures Level(z', stk'[j], stk'[j + 1], fs'[j], Hi(z', stk', j)) {
      if j < |fs| {
        LevelFrame(z1, z', stk[j], stk[j + 1], fs[j], Hi(z1, stk, j), Hi(z', stk', j));
      }
    }
  }
}
