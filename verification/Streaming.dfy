/**
 Chunk independence: however a byte stream is cut, feeding it to the unpacker gives the objects of the whole stream.
 */
module Streaming {
  import opened Bytes
  import opened Format
  import opened Decoding
  import opened Buffers
  import opened Parsing
  import opened StreamUnpacker

  /** The objects at the front of a stream, why there are no more, and the bytes after the last of them. */
  datatype Streamed = Streamed(vs: seq<Value>, why: Outcome, rest: seq<byte>)

  ghost function Stream(m: Mode, s: seq<byte>): (r: Streamed)
    ensures !r.why.Done?
    decreases |s|
  {
    match Decode(m, 1, s)
    case Done(v, rest) => var r := Stream(m, rest); Streamed([v] + r.vs, r.why, r.rest)
    case why => Streamed([], why, s)
  }

  ghost function After(m: Mode, r: Streamed, u: seq<byte>): Streamed {
    if r.why != More then Streamed(r.vs, r.why, r.rest + u)
    else var r' := Stream(m, r.rest + u); Streamed(r.vs + r'.vs, r'.why, r'.rest)
  }

  /** A stream can be decoded in two parts: what was left of the first goes before the second. */
  lemma {:induction false} StreamSplit(m: Mode, s: seq<byte>, u: seq<byte>)
    ensures Stream(m, s + u) == After(m, Stream(m, s), u)
    decreases |s|
  {
    hide Decode;
    if Decode(m, 1, s).Done? {
      var v, rest := Decode(m, 1, s).v, Decode(m, 1, s).rest;
      DecodeFinal(m, 1, s, u);
      StreamSplit(m, rest, u);
      var r := Stream(m, rest);
      var r' := Stream(m, r.rest + u);
      assert [v] + (r.vs + r'.vs) == ([v] + r.vs) + r'.vs;
    } else if Decode(m, 1, s) != More {
      DecodeFinal(m, 1, s, u);
    } else {
      assert [] + Stream(m, s + u).vs == Stream(m, s + u).vs;
    }
  }

  ghost function Flat(chunks: seq<seq<byte>>): seq<byte> {
    if chunks == [] then [] else chunks[0] + Flat(chunks[1..])
  }

  ghost function Values(hs: seq<Handle>): (vs: seq<Value>)
    ensures |vs| == |hs| && forall i | 0 <= i < |hs| :: vs[i] == hs[i].v
  {
    seq(|hs|, i requires 0 <= i < |hs| => hs[i].v)
  }

  /** The unpacker has come to where the stream r ends, and has handed out its objects after those of hs. */
  ghost predicate Arrived(u: Unpacker, ret: ParseReturn, hs: seq<Handle>, r: Streamed)
    reads u, u.ctx, u.ctx.visitor
  {
    && |hs| <= |u.handles| && u.handles[..|hs|] == hs && Values(u.handles[|hs|..]) == r.vs
    && match r.why
       case More => ret == Continue && u.Usable() && u.Pending() == r.rest
       case Bad => ret == ParseError && u.Owned()
       case Over(what) => ret == Threw(what) && u.Owned()
       case _ => false
  }

  /** On the way: the objects handed out since hs, and then those of the pending bytes, are those of r. */
  ghost predicate Along(m: Mode, hs: seq<Handle>, hs': seq<Handle>, pending: seq<byte>, r: Streamed) {
    var r' := Stream(m, pending);
    && |hs| <= |hs'| && hs'[..|hs|] == hs
    && Values(hs'[|hs|..]) + r'.vs == r.vs && r'.why == r.why && r'.rest == r.rest
  }

  lemma AlongNext(m: Mode, hs: seq<Handle>, hs': seq<Handle>, pending: seq<byte>, r: Streamed, h: Handle)
    requires Along(m, hs, hs', pending, r) && Decode(m, 1, pending).Done? && h.v == Decode(m, 1, pending).v
    ensures Along(m, hs, hs' + [h], Decode(m, 1, pending).rest, r)
  {
    hide Decode;
    var more := Stream(m, Decode(m, 1, pending).rest).vs;
    assert (hs' + [h])[|hs|..] == hs'[|hs|..] + [h];
    assert Values(hs'[|hs|..] + [h]) == Values(hs'[|hs|..]) + [h.v];
    assert Values(hs'[|hs|..]) + ([h.v] + more) == (Values(hs'[|hs|..]) + [h.v]) + more;
    assert (hs' + [h])[..|hs|] == hs;
  }

  lemma AlongEnd(m: Mode, hs: seq<Handle>, hs': seq<Handle>, pending: seq<byte>, r: Streamed)
    requires Along(m, hs, hs', pending, r) && !Decode(m, 1, pending).Done?
    ensures Values(hs'[|hs|..]) == r.vs && Decode(m, 1, pending) == r.why && pending == r.rest
  {
    assert Values(hs'[|hs|..]) + [] == Values(hs'[|hs|..]);
  }

  /** next() until it has no more. */
  method Drain(u: Unpacker) returns (ret: ParseReturn)
    requires u.Usable()
    modifies u, u.ctx, u.ctx.visitor
    ensures Arrived(u, ret, old(u.handles), Stream(u.M(), old(u.Pending()))) && u.used == old(u.used)
  {
    hide Decode, Unpacker.Usable, Unpacker.Owned, Unpacker.Pending, Along, Stream;
    ghost var m, hs, r := u.M(), u.handles, Stream(u.M(), u.Pending());
    ret := Success;
    AlongStart(m, hs, u.Pending());
    while ret == Success
      invariant ret == Success ==> u.Usable() && Along(m, hs, u.handles, u.Pending(), r)
      invariant ret != Success ==> Arrived(u, ret, hs, r)
      invariant u.used == old(u.used)
      decreases ret == Success, if ret == Success then |u.Pending()| else 0
    {
      ghost var hs', pending := u.handles, u.Pending();
      AlongExtends(m, hs, hs', pending, r);
      ret := u.Next();
      if ret == Success {
        assert u.handles == hs' + [u.handles[|hs'|]];
        AlongNext(m, hs, hs', pending, r, u.handles[|hs'|]);
      } else {
        AlongEnd(m, hs, hs', pending, r);
      }
    }
  }

  lemma AlongStart(m: Mode, hs: seq<Handle>, pending: seq<byte>)
    ensures Along(m, hs, hs, pending, Stream(m, pending))
  {
    assert Values(hs[|hs|..]) + Stream(m, pending).vs == Stream(m, pending).vs;
  }

  lemma AlongExtends(m: Mode, hs: seq<Handle>, hs': seq<Handle>, pending: seq<byte>, r: Streamed)
    requires Along(m, hs, hs', pending, r)
    ensures |hs| <= |hs'| && hs'[..|hs|] == hs
  {
  }

  lemma {:induction false} FlatNext(chunks: seq<seq<byte>>, i: nat)
    requires i < |chunks|
    ensures Flat(chunks[..i + 1]) == Flat(chunks[..i]) + chunks[i]
    ensures Flat(chunks) == Flat(chunks[..i + 1]) + Flat(chunks[i + 1..])
  {
    if i == 0 {
      assert chunks[..1][1..] == [] && chunks[..1][0] == chunks[0];
    } else {
      FlatNext(chunks[1..], i - 1);
      assert chunks[..i + 1][1..] == chunks[1..][..i] && chunks[..i][1..] == chunks[1..][..i - 1];
      assert chunks[1..][i..] == chunks[i + 1..];
    }
  }

  /** The pending bytes, the bytes that came before them and a chunk. */
  lemma ArrivedOn(u: Unpacker, ret: ParseReturn, hs: seq<Handle>, hs1: seq<Handle>, seen: seq<byte>, c: seq<byte>)
    requires var r := Stream(u.M(), seen);
             && r.why == More && |hs| <= |hs1| && hs1[..|hs|] == hs && Values(hs1[|hs|..]) == r.vs
             && Arrived(u, ret, hs1, Stream(u.M(), r.rest + c))
    ensures Arrived(u, ret, hs, Stream(u.M(), seen + c))
  {
    hide Stream, Unpacker.Usable, Unpacker.Owned, Unpacker.Pending;
    StreamSplit(u.M(), seen, c);
    assert u.handles[..|hs|] == u.handles[..|hs1|][..|hs|];
    assert u.handles[|hs|..] == u.handles[..|hs1|][|hs|..] + u.handles[|hs1|..];
    assert Values(u.handles[|hs|..]) == Values(hs1[|hs|..]) + Values(u.handles[|hs1|..]);
  }

  /** A stream that has ended badly has ended for good. */
  lemma ArrivedBadly(u: Unpacker, ret: ParseReturn, hs: seq<Handle>, s: seq<byte>, more: seq<byte>)
    requires Arrived(u, ret, hs, Stream(u.M(), s)) && ret != Continue
    ensures Arrived(u, ret, hs, Stream(u.M(), s + more))
  {
    hide Stream, Unpacker.Usable, Unpacker.Owned, Unpacker.Pending;
    StreamSplit(u.M(), s, more);
  }

  /** One chunk into the buffer, as the documentation of the unpacker has it. */
  method FeedChunk(u: Unpacker, c: seq<byte>)
    requires u.Usable() && u.used + |c| < TWO_TO_THE_64
    modifies u, u.ctx.visitor`referenced
    ensures u.Usable() && u.Pending() == old(u.Pending()) + c
    ensures u.handles == old(u.handles) && u.used <= old(u.used) + |c|
  {
    hide Unpacker.Usable, Unpacker.Pending, Unpacker.MessageSize;
    u.ReserveBuffer(|c|);
    u.Fill(c);
    u.BufferConsumed(|c|);
  }

  /** The objects do not depend on the cuts. */
  method Feed(u: Unpacker, chunks: seq<seq<byte>>) returns (ret: ParseReturn)
    requires u.Usable() && Decode(u.M(), 1, u.Pending()) == More
    requires u.used + |Flat(chunks)| < TWO_TO_THE_64
    modifies u, u.ctx, u.ctx.visitor
    ensures Arrived(u, ret, old(u.handles), Stream(u.M(), old(u.Pending()) + Flat(chunks)))
  {
    hide Unpacker.Usable, Unpacker.Pending, Unpacker.Owned, Flat, Decode, Stream;
    ghost var hs, p, m := u.handles, u.Pending(), u.M();
    var i := 0;
    ret := Continue;
    ghost var seen := p;
    FlatNone(chunks, p);
    AlongStart(m, hs, p);
    AlongEnd(m, hs, hs, p, Stream(m, p));
    while i < |chunks|
      invariant i <= |chunks| && ret == Continue
      invariant seen == p + Flat(chunks[..i]) && Arrived(u, ret, hs, Stream(m, seen))
      invariant u.used <= old(u.used) + |Flat(chunks[..i])|
    {
      FlatNext(chunks, i);
      ghost var hs1 := u.handles;
      FeedChunk(u, chunks[i]);
      ret := Drain(u);
      ArrivedOn(u, ret, hs, hs1, seen, chunks[i]);
      assert seen + chunks[i] == p + Flat(chunks[..i + 1]);
      seen := seen + chunks[i];
      i := i + 1;
      if ret != Continue {
        ArrivedBadly(u, ret, hs, seen, Flat(chunks[i..]));
        assert seen + Flat(chunks[i..]) == p + Flat(chunks);
        return;
      }
    }
    assert chunks[..i] == chunks;
  }

  lemma FlatNone(chunks: seq<seq<byte>>, p: seq<byte>)
    ensures Flat(chunks[..0]) == [] && p + Flat(chunks[..0]) == p
  {
  }
}
