/** unpack: one message from a byte buffer, with either parser, and what packing first guarantees about it. */
module Unpacking {
  import opened Bytes
  import opened Format
  import opened Encoding
  import opened Limiting
  import opened Arena
  import opened Parsing
  import ObjectVisitor
  import ParseV1
  import ParseV2

  /** The result of unpack at offset off; exceptions leave the caller's offset alone. */
  ghost predicate Unpacks(m: Mode, data: seq<byte>, off: nat, ret: ParseReturn, off': nat, zone: Zone, root: Obj) {
    if off >= |data| then ret == InsufficientBytes && off' == off
    else
      match Decode(m, 1, data[off..])
      case Done(w, rest) =>
        && ret == (if rest == [] then Success else ExtraBytes)
        && off < off' <= |data| && rest == data[off'..]
        && Holds(zone, root, w, 0, |zone|)
      case More => ret == InsufficientBytes && off' == off
      case Bad => ret == ParseError && off' == off
      case Over(what) => ret == Threw(what) && off' == off
  }

  /** unpack_imp and parse_imp of v2, with the exceptions that its visitor throws. */
  method UnpackV2(limit: Limits, func: (Kind, nat) -> bool, data: seq<byte>, off: nat, buf: nat)
    returns (ret: ParseReturn, off': nat, zone: Zone, root: Obj)
    ensures Unpacks(V2(limit, func), data, off, ret, off', zone, root)
  {
    hide Decode, Coupled, Mirrors, Holds;
    if |data| <= off {
      return InsufficientBytes, off, [], Raw;
    }
    var visitor := new ObjectVisitor.Visitor(limit, func);
    var h := new ParseV2.Context(visitor);
    var noff;
    ret, noff := h.Execute(data, off, buf);
    assert [] + data[off..] == data[off..];
    match ret
    case Success =>
      RootHolds(h);
      return if noff < |data| then ExtraBytes else Success, noff, visitor.zone, visitor.zone[0][0];
    case Continue => return InsufficientBytes, off, [], Raw;
    case _ => return ret, off, [], Raw;
  }

  lemma RootHolds(h: ParseV2.Context)
    requires h.After(Success)
    ensures |h.visitor.zone| > 0 && |h.visitor.zone[0]| > 0
    ensures Holds(h.visitor.zone, h.visitor.zone[0][0], h.value, 0, |h.visitor.zone|)
  {
    var z := h.visitor.zone;
    assert h.visitor.stack[0] == Ptr(0, 0);
    HoldsFrame(z, z, z[0][0], h.value, 1, |z|, 0, |z|);
  }

  /** unpack_imp of v1, with the exceptions that its callers throw. */
  method UnpackV1(limit: Limits, func: (Kind, nat) -> bool, data: seq<byte>, off: nat, buf: nat)
    returns (ret: ParseReturn, off': nat, zone: Zone, root: Obj)
    ensures Unpacks(V1(limit, func), data, off, ret, off', zone, root)
  {
    hide Decode, Holds;
    if |data| <= off {
      return InsufficientBytes, off, [], Raw;
    }
    var ctx := new ParseV1.Context(limit, func);
    var noff;
    ret, noff := ctx.Execute(data, off, buf);
    assert [] + data[off..] == data[off..];
    match ret
    case Success =>
      return if noff < |data| then ExtraBytes else Success, noff, ctx.zone, ctx.stack[0].obj;
    case Continue => return InsufficientBytes, off, [], Raw;
    case _ => return ret, off, [], Raw;
  }

  /**
   What was packed comes back, and whatever follows it is extra bytes: exactly when the limits let the value through.
   */
  lemma UnpackPacked(m: Mode, v: Value, r: seq<byte>)
    requires WellFormed(v)
    ensures Decode(m, 1, Encode(v) + r) == Done(Delivered(m, v), r) <==> Within(m, 1, v)
    ensures !LosesExt(m, v) || !m.V2? ==> Delivered(m, v) == v
  {
    hide Tok, Decode, Encode;
    RoundTrip(v, 1, r);
    LimitsExact(m, 1, Encode(v) + r);
    DeliveredWhole(m, v);
  }
}
