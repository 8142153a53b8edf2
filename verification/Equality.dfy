/**
 operator== on objects. Floats compare as numbers, and the bytes of an ext are compared from its type byte on but
 counted without it, so that the last byte of its data is never looked at.
 */
module Equality {
  import opened Bytes
  import opened Format
  import opened Encoding
  import opened Arena
  import opened Packing

  // ---------------------------------------------------------------- floats by their bit patterns

  /** Infinity's pattern without its sign; the patterns beyond it are not numbers. */
  const INFINITY_32: nat := 0x7f80_0000
  const INFINITY_64: nat := 0x7ff0_0000_0000_0000

  function Half(wide: bool): nat {
    if wide then TWO_TO_THE_63 else 0x8000_0000
  }

  predicate NaN(wide: bool, bits: nat) {
    bits % Half(wide) > (if wide then INFINITY_64 else INFINITY_32)
  }

  predicate Zero(wide: bool, bits: nat) {
    bits % Half(wide) == 0
  }

  predicate FloatsEqual(wide: bool, x: nat, y: nat) {
    !NaN(wide, x) && !NaN(wide, y) && (x == y || (Zero(wide, x) && Zero(wide, y)))
  }

  /** A float 64 has 1 sign bit, 11 exponent bits and 52 mantissa bits, a float 32 has 1, 8 and 23. */
  lemma Layout64(bits: nat)
    requires bits < TWO_TO_THE_64
    ensures NaN(true, bits) <==> bits / 0x10_0000_0000_0000 % 0x800 == 0x7ff && bits % 0x10_0000_0000_0000 != 0
    ensures Zero(true, bits) <==> bits == 0 || bits == 0x8000_0000_0000_0000
  {
    var low := if bits < TWO_TO_THE_63 then bits else bits - TWO_TO_THE_63;
    assert bits % TWO_TO_THE_63 == low;
    assert bits / 0x10_0000_0000_0000 % 0x800 == low / 0x10_0000_0000_0000;
  }

  lemma Layout32(bits: nat)
    requires bits < TWO_TO_THE_32
    ensures NaN(false, bits) <==> bits / 0x80_0000 % 0x100 == 0xff && bits % 0x80_0000 != 0
    ensures Zero(false, bits) <==> bits == 0 || bits == 0x8000_0000
  {
    var low := if bits < 0x8000_0000 then bits else bits - 0x8000_0000;
    assert bits % 0x8000_0000 == low;
    assert bits / 0x80_0000 % 0x100 == low / 0x80_0000;
  }

  // ---------------------------------------------------------------- what the comparison means

  ghost predicate Alike(v: Value, w: Value)
    decreases v
  {
    match v
    case F32(bits) => w.F32? && FloatsEqual(false, bits, w.bits32)
    case F64(bits) => w.F64? && FloatsEqual(true, bits, w.bits64)
    case Blob(kind, body) =>
      && w.Blob? && w.kind == kind && |body| == |w.body|
      && (if kind == ExtK && body != [] then body[..|body| - 1] == w.body[..|body| - 1] else body == w.body)
    case Cont(isMap, items) =>
      w.Cont? && w.isMap == isMap && |items| == |w.items| && forall i | 0 <= i < |items| :: Alike(items[i], w.items[i])
    case _ => v == w
  }

  ghost predicate HasNaN(v: Value)
    decreases v
  {
    match v
    case F32(bits) => NaN(false, bits)
    case F64(bits) => NaN(true, bits)
    case Cont(_, items) => exists i :: 0 <= i < |items| && HasNaN(items[i])
    case _ => false
  }

  /** Nothing in v is a zero, which has two signs, or an ext, whose last byte is not compared. */
  ghost predicate Precise(v: Value)
    decreases v
  {
    match v
    case F32(bits) => !Zero(false, bits)
    case F64(bits) => !Zero(true, bits)
    case Blob(kind, _) => kind != ExtK
    case Cont(_, items) => forall i | 0 <= i < |items| :: Precise(items[i])
    case _ => true
  }

  /** An object equals itself exactly when it holds no NaN. */
  lemma {:induction false} AlikeSelf(v: Value)
    ensures Alike(v, v) <==> !HasNaN(v)
    decreases v
  {
    if v.Cont? {
      forall i | 0 <= i < |v.items| ensures Alike(v.items[i], v.items[i]) <==> !HasNaN(v.items[i]) {
        AlikeSelf(v.items[i]);
      }
    }
  }

  lemma {:induction false} AlikePrecise(v: Value, w: Value)
    requires Alike(v, w) && Precise(v)
    ensures v == w
    decreases v
  {
    if v.Cont? {
      forall i | 0 <= i < |v.items| ensures v.items[i] == w.items[i] {
        AlikePrecise(v.items[i], w.items[i]);
      }
    }
  }

  function Flipped(wide: bool, bits: nat): (r: nat)
    requires Zero(wide, bits) && bits < 2 * Half(wide)
    ensures r != bits && Zero(wide, r) && r < 2 * Half(wide) && FloatsEqual(wide, bits, r)
  {
    if bits == 0 then Half(wide) else 0
  }

  lemma {:induction false} UpdateWellFormed(vs: seq<Value>, i: nat, v: Value)
    requires AllWellFormed(vs) && WellFormed(v) && i < |vs|
    ensures AllWellFormed(vs[i := v])
  {
    if i > 0 {
      UpdateWellFormed(vs[1..], i - 1, v);
      assert vs[i := v][1..] == vs[1..][i - 1 := v];
    } else {
      assert vs[i := v][1..] == vs[1..];
    }
  }

  /** Otherwise there is another value that compares equal. */
  lemma {:induction false} Twin(v: Value) returns (w: Value)
    requires WellFormed(v) && !HasNaN(v) && !Precise(v)
    ensures w != v && WellFormed(w) && Alike(v, w)
    decreases v
  {
    match v
    case F32(bits) => w := F32(Flipped(false, bits));
    case F64(bits) => w := F64(Flipped(true, bits));
    case Blob(kind, body) =>
      var n := |body| - 1;
      w := Blob(kind, body[n := if body[n] == 0 then 1 else 0]);
      assert body[n := if body[n] == 0 then 1 else 0][..n] == body[..n];
      assert w.body[n] != body[n];
    case Cont(isMap, items) =>
      var i :| 0 <= i < |items| && !Precise(items[i]);
      AllWellFormedAt(items, i);
      var x := Twin(items[i]);
      w := Cont(isMap, items[i := x]);
      assert w.items[i] != items[i];
      UpdateWellFormed(items, i, x);
      forall j | 0 <= j < |items| ensures Alike(items[j], w.items[j]) {
        AlikeSelf(items[j]);
      }
  }

  /** For a value without NaN, equal means the same exactly when it holds no zero float and no ext. */
  lemma EqualMeansSame(v: Value)
    requires WellFormed(v) && !HasNaN(v)
    ensures (forall w | WellFormed(w) && Alike(v, w) :: w == v) <==> Precise(v)
  {
    if Precise(v) {
      forall w | WellFormed(w) && Alike(v, w) ensures w == v {
        AlikePrecise(v, w);
      }
    } else {
      var twin := Twin(v);
      assert !(WellFormed(twin) && Alike(v, twin) ==> twin == v);
    }
  }

  /** Two ext objects of one type and size that differ in their last byte compare equal. */
  lemma LastByteIgnored(kind: byte, data: seq<byte>, b: byte, c: byte)
    ensures Alike(Blob(ExtK, [kind] + data + [b]), Blob(ExtK, [kind] + data + [c]))
  {
    assert ([kind] + data + [b])[..1 + |data|] == [kind] + data == ([kind] + data + [c])[..1 + |data|];
  }

  // ---------------------------------------------------------------- what is compared, written out

  /**
   A float equals itself unless its exponent is all ones and its mantissa is not zero; floats of different patterns
   are equal only when they are the two zeros.
   */
  lemma Floats64(x: nat, y: nat)
    requires x < TWO_TO_THE_64 && y < TWO_TO_THE_64
    ensures Alike(F64(x), F64(x)) <==>
            !(x / 0x10_0000_0000_0000 % 0x800 == 0x7ff && x % 0x10_0000_0000_0000 != 0)
    ensures x != y ==> (Alike(F64(x), F64(y)) <==> (|| (x == 0 && y == 0x8000_0000_0000_0000)
                                                    || (x == 0x8000_0000_0000_0000 && y == 0)))
  {
    Layout64(x);
    Layout64(y);
  }

  lemma Floats32(x: nat, y: nat)
    requires x < TWO_TO_THE_32 && y < TWO_TO_THE_32
    ensures Alike(F32(x), F32(x)) <==> !(x / 0x80_0000 % 0x100 == 0xff && x % 0x80_0000 != 0)
    ensures x != y ==> (Alike(F32(x), F32(y)) <==> (x == 0 && y == 0x8000_0000) || (x == 0x8000_0000 && y == 0))
  {
    Layout32(x);
    Layout32(y);
  }

  /** Bodies of one kind and length, byte by byte; only of an ext is the last byte left out. */
  lemma Bodies(kind: Kind, body: seq<byte>, w: Value)
    ensures Alike(Blob(kind, body), w) <==>
            (&& w.Blob? && w.kind == kind && |w.body| == |body|
             && forall i | 0 <= i < (if kind == ExtK then |body| - 1 else |body|) :: body[i] == w.body[i])
  {
    var n := if kind == ExtK && body != [] then |body| - 1 else |body|;
    assert body[..|body|] == body;
    if w.Blob? && w.kind == kind && |w.body| == |body| {
      assert w.body[..|body|] == w.body;
      assert body[..n] == w.body[..n] <==> forall i | 0 <= i < n :: body[i] == w.body[i];
    }
  }

  // ---------------------------------------------------------------- the comparison

  method ObjectsEqual(z: Zone, x: Obj, z': Zone, y: Obj,
                      ghost v: Value, ghost lo: nat, ghost hi: nat, ghost w: Value, ghost lo': nat, ghost hi': nat)
    returns (eq: bool)
    requires WellFormed(v) && WellFormed(w) && Holds(z, x, v, lo, hi) && Holds(z', y, w, lo', hi')
    ensures eq == Alike(v, w)
    ensures x.OF64? && y == x ==>
              (eq <==> !(x.bits64 / 0x10_0000_0000_0000 % 0x800 == 0x7ff && x.bits64 % 0x10_0000_0000_0000 != 0))
    ensures x.OF32? && y == x ==> (eq <==> !(x.bits32 / 0x80_0000 % 0x100 == 0xff && x.bits32 % 0x80_0000 != 0))
    decreases v, 1
  {
    hide NaN, Zero;
    match x
    case ONil => return y == ONil;
    case OBool(_) => return y == x;
    case OPos(_) => return y == x;
    case ONeg(_) => return y == x;
    case OF32(bits) =>
      Floats32(bits, bits);
      return y.OF32? && FloatsEqual(false, bits, y.bits32);
    case OF64(bits) =>
      Floats64(bits, bits);
      return y.OF64? && FloatsEqual(true, bits, y.bits64);
    case OBlob(kind, size, _, bytes) =>
      return y.OBlob? && y.kind == kind && y.size == size && bytes[..size] == y.bytes[..size];
    case OCont(isMap, size, blk) =>
      if !y.OCont? || y.isMap != isMap || y.size != size {
        return false;
      } else if size == 0 {
        return true;
      }
      eq := ItemsEqual(z, x, z', y, v, lo, hi, w, lo', hi');
  }

  /** The loops over the elements, and over the keys and values of pairs. */
  method ItemsEqual(z: Zone, x: Obj, z': Zone, y: Obj,
                    ghost v: Value, ghost lo: nat, ghost hi: nat, ghost w: Value, ghost lo': nat, ghost hi': nat)
    returns (eq: bool)
    requires WellFormed(v) && WellFormed(w) && Holds(z, x, v, lo, hi) && Holds(z', y, w, lo', hi')
    requires v.Cont? && w.Cont? && x.OCont? && y.OCont? && x.isMap == y.isMap && x.size == y.size > 0
    ensures eq == Alike(v, w)
    decreases v, 0
  {
    hide Holds, WellFormed;
    ContOpen(z, x, v, lo, hi);
    ContOpen(z', y, w, lo', hi');
    var i := 0;
    while i < Slots(x.isMap, x.size)
      invariant i <= |v.items| && forall j | 0 <= j < i :: Alike(v.items[j], w.items[j])
    {
      ContItem(z, x, v, lo, hi, i);
      ContItem(z', y, w, lo', hi', i);
      var same := ObjectsEqual(z, z[x.blk][i], z', z'[y.blk][i], v.items[i], x.blk + 1, hi, w.items[i], y.blk + 1, hi');
      if !same {
        return false;
      }
      i := i + 1;
    }
    return true;
  }
}
