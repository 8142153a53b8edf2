/** The pieces together: packing and then unpacking, and the two parsers side by side. */
module EndToEnd {
  import opened Bytes
  import opened Canonical
  import opened Format
  import opened Decoding
  import opened Encoding
  import opened Limiting
  import opened Arena
  import opened Parsing
  import opened Unpacking
  import opened Packing
  import opened Wire
  import SimpleBuffer

  method PackThenUnpack(z: Zone, o: Obj, ghost v: Value, ghost lo: nat, ghost hi: nat,
                        limit: Limits, func: (Kind, nat) -> bool, suffix: seq<byte>, buf: nat)
    returns (ret: ParseReturn, off: nat, zone: Zone, root: Obj)
    requires WellFormed(v) && Holds(z, o, v, lo, hi) && |Encode(v)| < TWO_TO_THE_64
    ensures var m := V2(limit, func);
            Within(m, 1, v) ==>
              && ret == (if suffix == [] then Success else ExtraBytes) && off == |Encode(v)|
              && Holds(zone, root, Delivered(m, v), 0, |zone|)
  {
    hide Concat, Encode, Decode, Holds, Within, Delivered, WellFormed;
    var packer := new Packer();
    assert Concat([]) == [] && SmallLocals([]) by {
      ConcatNext([], 0);
    }
    packer.PackObject(z, o, v, lo, hi);
    var sbuf := new SimpleBuffer.SBuffer();
    sbuf.WriteAll(packer.stream);
    var data := sbuf.data[..sbuf.size] + suffix;
    assert data == Encode(v) + suffix && data[0..] == data;
    UnpackPacked(V2(limit, func), v, suffix);
    EncodeSome(v);
    ret, off, zone, root := UnpackV2(limit, func, data, 0, buf);
  }

  /** A packed value that was cut short anywhere asks both parsers for more bytes, and moves no offset. */
  method UnpackCut(limit: Limits, func: (Kind, nat) -> bool, ghost v: Value, data: seq<byte>, buf: nat)
    returns (ret1: ParseReturn, ret2: ParseReturn, off1: nat, off2: nat)
    requires WellFormed(v) && data < Encode(v)
    ensures Within(V1(limit, func), 1, v) ==> ret1 == InsufficientBytes && off1 == 0
    ensures Within(V2(limit, func), 1, v) ==> ret2 == InsufficientBytes && off2 == 0
  {
    hide Encode, Decode, Holds, Within, Delivered, WellFormed;
    var zone, root;
    ret1, off1, zone, root := UnpackV1(limit, func, data, 0, buf);
    ret2, off2, zone, root := UnpackV2(limit, func, data, 0, buf);
    assert data[0..] == data;
    if Within(V1(limit, func), 1, v) {
      CutShort(V1(limit, func), v, data);
    }
    if Within(V2(limit, func), 1, v) {
      CutShort(V2(limit, func), v, data);
    }
  }

  lemma CutShort(m: Mode, v: Value, data: seq<byte>)
    requires WellFormed(v) && data < Encode(v) && Within(m, 1, v)
    ensures Decode(m, 1, data) == More
  {
    hide Encode, Decode, Within, Delivered, WellFormed;
    var rest := Encode(v)[|data|..];
    assert data + rest == Encode(v) == Encode(v) + [];
    UnpackPacked(m, v, []);
    if Decode(m, 1, data) != More {
      DecodeFinal(m, 1, data, rest);
    }
  }

  /** The byte that is never used is a parse error for both, whatever comes after it. */
  method UnpackNeverUsed(limit: Limits, func: (Kind, nat) -> bool, more: seq<byte>, buf: nat)
    returns (ret1: ParseReturn, ret2: ParseReturn, off1: nat, off2: nat)
    ensures ret1 == ret2 == ParseError && off1 == off2 == 0
  {
    hide Decode, Holds;
    var zone, root;
    var data := [0xc1] + more;
    ret1, off1, zone, root := UnpackV1(limit, func, data, 0, buf);
    ret2, off2, zone, root := UnpackV2(limit, func, data, 0, buf);
    assert data[0..] == data;
    ReadsOneByte(V1(limit, func), 1, 0, more);
    ReadsOneByte(V2(limit, func), 1, 0, more);
  }

  lemma EncodeSome(v: Value)
    requires WellFormed(v)
    ensures Encode(v) != []
  {
    RoundTrip(v, 1, []);
  }

  /** Both parsers on the same bytes, with any limits. */
  method UnpackTwice(limit: Limits, func: (Kind, nat) -> bool, data: seq<byte>, off: nat, buf: nat)
    returns (ret1: ParseReturn, ret2: ParseReturn, off1: nat, off2: nat, zone1: Zone, root1: Obj, zone2: Zone,
             root2: Obj)
    requires off <= |data|
    ensures !ret1.Threw? && !ret2.Threw? ==> ret1 == ret2 && off1 == off2
    ensures ret1.Threw? && TakesWide(limit, func, |data| - off) ==> ret2.Threw?
    ensures Roomy(limit, 1, |data| - off) ==> !ret1.Threw? && !ret2.Threw?
    ensures ret1 == Success || ret1 == ExtraBytes ==>
              var o := Decode(Standard, 1, data[off..]);
              o.Done? && off < off1 <= |data| && o.rest == data[off1..] && Holds(zone1, root1, o.v, 0, |zone1|)
    ensures ret2 == Success || ret2 == ExtraBytes ==>
              var (m, o) := (V2(limit, func), Decode(Standard, 1, data[off..]));
              && o.Done? && off < off2 <= |data| && o.rest == data[off2..]
              && Holds(zone2, root2, Delivered(m, o.v), 0, |zone2|) && (Delivered(m, o.v) == o.v <==> !LosesExt(m, o.v))
  {
    hide Decode, Holds, LosesExt, Delivered, Roomy, TakesWide;
    ret1, off1, zone1, root1 := UnpackV1(limit, func, data, off, buf);
    ret2, off2, zone2, root2 := UnpackV2(limit, func, data, off, buf);
    var s := data[off..];
    ParsersAgree(limit, func, s);
    StandardNeverOver(1, s);
    if Roomy(limit, 1, |s|) {
      Unlimited(V1(limit, func), 1, s);
      Unlimited(V2(limit, func), 1, s);
    }
    if TakesWide(limit, func, |s|) && !Decode(V2(limit, func), 1, s).Over? {
      ThrowsLess(limit, func, 1, s);
    }
    if Decode(Standard, 1, s).Done? {
      Shortest(1, s);
      DeliveredWhole(V2(limit, func), Decode(Standard, 1, s).v);
    }
    NothingDecodes(V1(limit, func));
    NothingDecodes(V2(limit, func));
  }

  lemma NothingDecodes(m: Mode)
    ensures Decode(m, 1, []) == More
  {
  }
}
