/**
 What a suspended parser still has to do. Its open containers are frames, and the part of the current token
 that it has already read is written back as the shortest header that says the same (Pending). A parser state
 tracks the bytes it has consumed when, whatever bytes come next, resuming from the state gives the outcome
 of decoding everything from the start.
 */
module Resumption {
  import opened Bytes
  import opened Format

  /** A container that is not full: its number of items (pairs for a map), and the values read so far. */
  datatype Frame = Frame(isMap: bool, size: nat, done: seq<Value>)

  function Need(f: Frame): nat {
    Slots(f.isMap, f.size)
  }

  ghost predicate Unfinished(fs: seq<Frame>) {
    forall i | 0 <= i < |fs| :: |fs[i].done| < Need(fs[i])
  }

  /** The outcome once the value v is complete inside the frames fs and the bytes s follow. */
  ghost function Complete(m: Mode, fs: seq<Frame>, v: Value, s: seq<byte>): Outcome
    requires Unfinished(fs)
    decreases |fs|
  {
    if fs == [] then Done(v, s)
    else
      var f := fs[|fs| - 1];
      match DecodeAll(m, |fs| + 1, Need(f) - |f.done| - 1, s)
      case AllDone(vs, r) => Complete(m, fs[..|fs| - 1], Cont(f.isMap, f.done + [v] + vs), r)
      case Stopped(why) => why
  }

  /** The outcome when a value is expected inside the frames fs and the bytes s follow. */
  ghost function Resume(m: Mode, fs: seq<Frame>, s: seq<byte>): Outcome
    requires Unfinished(fs)
  {
    match Decode(m, |fs| + 1, s)
    case Done(v, r) => Complete(m, fs, v, r)
    case o => o
  }

  function Add(fs: seq<Frame>, v: Value): seq<Frame>
    requires fs != []
  {
    var f := fs[|fs| - 1];
    fs[..|fs| - 1] + [f.(done := f.done + [v])]
  }

  predicate Fills(fs: seq<Frame>)
    requires fs != []
  {
    |fs[|fs| - 1].done| + 1 == Need(fs[|fs| - 1])
  }

  lemma DecodeAllHead(m: Mode, depth: nat, k: nat, s: seq<byte>)
    requires k > 0
    ensures var o := Decode(m, depth, s);
            DecodeAll(m, depth, k, s) ==
            if !o.Done? then Stopped(o) else
            var t := DecodeAll(m, depth, k - 1, o.rest);
            if t.Stopped? then t else AllDone([o.v] + t.vs, t.rest)
  {
    hide Tok;
  }

  /** A value that does not fill its container: the next value is expected in the same container. */
  lemma StepItem(m: Mode, fs: seq<Frame>, v: Value, s: seq<byte>)
    requires Unfinished(fs) && fs != [] && !Fills(fs)
    ensures Unfinished(Add(fs, v)) && Complete(m, fs, v, s) == Resume(m, Add(fs, v), s)
  {
    hide Tok, Decode, DecodeAll;
    var f := fs[|fs| - 1];
    var k := Need(f) - |f.done| - 1;
    assert Add(fs, v)[..|fs| - 1] == fs[..|fs| - 1];
    DecodeAllHead(m, |fs| + 1, k, s);
    var o := Decode(m, |fs| + 1, s);
    if o.Done? {
      var t := DecodeAll(m, |fs| + 1, k - 1, o.rest);
      if t.AllDone? {
        assert f.done + [v] + ([o.v] + t.vs) == (f.done + [v]) + [o.v] + t.vs;
      }
    }
  }

  /** A value that fills its container: the container is complete in the frames around it. */
  lemma StepClose(m: Mode, fs: seq<Frame>, v: Value, s: seq<byte>)
    requires Unfinished(fs) && fs != [] && Fills(fs)
    ensures var f := fs[|fs| - 1];
            Complete(m, fs, v, s) == Complete(m, fs[..|fs| - 1], Cont(f.isMap, f.done + [v]), s)
  {
    var f := fs[|fs| - 1];
    assert f.done + [v] + [] == f.done + [v];
  }

  /** A container header that is allowed: its first item is expected. */
  lemma StepOpen(m: Mode, fs: seq<Frame>, isMap: bool, n: nat, s: seq<byte>, r: seq<byte>)
    requires Unfinished(fs) && Tok(m, s) == Open(isMap, n, r) && n > 0
    requires !OverCount(m, isMap, n) && !OverDepth(m, |fs| + 1, n)
    ensures Unfinished(fs + [Frame(isMap, n, [])])
    ensures Resume(m, fs, s) == Resume(m, fs + [Frame(isMap, n, [])], r)
  {
    hide Tok, DecodeAll;
    var fs' := fs + [Frame(isMap, n, [])];
    var k := Slots(isMap, n);
    assert fs'[..|fs'| - 1] == fs;
    DecodeAllHead(m, |fs| + 2, k, r);
    var o := Decode(m, |fs| + 2, r);
    if o.Done? {
      var t := DecodeAll(m, |fs| + 2, k - 1, o.rest);
      if t.AllDone? {
        assert [] + [o.v] + t.vs == [o.v] + t.vs;
      }
    }
  }

  // ---------------------------------------------------------------- parser states

  const CS_HEADER: nat := 0x00
  const CS_STR_VALUE: nat := 0x20
  const CS_BIN_VALUE: nat := 0x21
  const CS_EXT_VALUE: nat := 0x22

  /** The number of bytes after the header 0xc0 + cs before anything can be decided. */
  function TrailOf(cs: nat): (n: nat)
    requires 0x04 <= cs <= 0x1f
    ensures n >= 1
  {
    if cs <= 0x06 then Width(cs - 0x04)
    else if cs <= 0x09 then Width(cs - 0x07)
    else if cs == 0x0a then 4
    else if cs == 0x0b then 8
    else if cs <= 0x0f then Width(cs - 0x0c)
    else if cs <= 0x13 then Width(cs - 0x10)
    else if cs <= 0x18 then 1 + Width(cs - 0x14)
    else if cs <= 0x1b then Width(cs - 0x19)
    else if cs <= 0x1d then Width(cs - 0x1b)
    else Width(cs - 0x1d)
  }

  function ValueState(kind: Kind): nat {
    match kind case StrK => CS_STR_VALUE case BinK => CS_BIN_VALUE case ExtK => CS_EXT_VALUE
  }

  function KindOf(cs: nat): Kind {
    if cs == CS_STR_VALUE then StrK else if cs == CS_BIN_VALUE then BinK else ExtK
  }

  predicate StateOk(cs: nat, trail: nat) {
    || cs == CS_HEADER
    || (0x04 <= cs <= 0x1f && trail == TrailOf(cs))
    || (CS_STR_VALUE <= cs <= CS_EXT_VALUE && 1 <= trail < TWO_TO_THE_32 + (if cs == CS_EXT_VALUE then 1 else 0))
  }

  /** The token bytes behind the cursor, in the shortest form that means the same. */
  ghost function Pending(cs: nat, trail: nat): (p: seq<byte>)
    requires StateOk(cs, trail)
    ensures cs == CS_HEADER ==> p == []
  {
    Pow256Widths();
    if cs == CS_HEADER then []
    else if cs <= 0x1f then [0xc0 + cs]
    else
      var kind := KindOf(cs);
      [SizedCode(kind) + 2] + Store(if kind == ExtK then trail - 1 else trail, 4)
  }

  ghost predicate TracksOn(m: Mode, c: seq<byte>, cs: nat, trail: nat, fs: seq<Frame>, r: seq<byte>)
    requires StateOk(cs, trail) && Unfinished(fs)
  {
    Decode(m, 1, c + r) == Resume(m, fs, Pending(cs, trail) + r)
  }

  /** The state is where the consumed bytes c lead, for every continuation. */
  ghost predicate Tracks(m: Mode, c: seq<byte>, cs: nat, trail: nat, fs: seq<Frame>) {
    StateOk(cs, trail) && Unfinished(fs) && forall r :: TracksOn(m, c, cs, trail, fs, r)
  }

  ghost predicate DeliversOn(m: Mode, c: seq<byte>, fs: seq<Frame>, v: Value, r: seq<byte>)
    requires Unfinished(fs)
  {
    Decode(m, 1, c + r) == Complete(m, fs, v, r)
  }

  /** The consumed bytes c end with the value v, complete inside the frames fs. */
  ghost predicate Delivers(m: Mode, c: seq<byte>, fs: seq<Frame>, v: Value) {
    Unfinished(fs) && forall r :: DeliversOn(m, c, fs, v, r)
  }

  ghost predicate EmitsOn(m: Mode, p: seq<byte>, t: Token, r: seq<byte>) {
    Tok(m, p + r) == match t
                     case Leaf(v, _) => Leaf(v, r)
                     case Open(isMap, n, _) => Open(isMap, n, r)
                     case NoToken(_) => t
  }

  /** The bytes p are exactly the token t, whatever follows. */
  ghost predicate Emits(m: Mode, p: seq<byte>, t: Token) {
    forall r :: EmitsOn(m, p, t, r)
  }

  lemma TracksStart(m: Mode)
    ensures Tracks(m, [], CS_HEADER, 0, [])
  {
    hide Tok, Decode;
    forall r ensures TracksOn(m, [], CS_HEADER, 0, [], r) {
      assert [] + r == r;
    }
  }

  /** After the bytes x a whole leaf is behind the cursor. */
  lemma TrackLeaf(m: Mode, c: seq<byte>, cs: nat, trail: nat, fs: seq<Frame>, x: seq<byte>, v: Value)
    requires Tracks(m, c, cs, trail, fs) && Emits(m, Pending(cs, trail) + x, Leaf(v, []))
    ensures Delivers(m, c + x, fs, v)
  {
    hide Tok, Pending, Complete;
    var p := Pending(cs, trail);
    forall r ensures DeliversOn(m, c + x, fs, v, r) {
      assert TracksOn(m, c, cs, trail, fs, x + r);
      assert EmitsOn(m, p + x, Leaf(v, []), r);
      assert c + x + r == c + (x + r) && p + x + r == p + (x + r);
    }
  }

  /** After the bytes x the header of a container that is not empty is behind the cursor. */
  lemma TrackOpen(m: Mode, c: seq<byte>, cs: nat, trail: nat, fs: seq<Frame>, x: seq<byte>, isMap: bool, n: nat)
    requires Tracks(m, c, cs, trail, fs) && Emits(m, Pending(cs, trail) + x, Open(isMap, n, []))
    requires n > 0 && !OverCount(m, isMap, n) && !OverDepth(m, |fs| + 1, n)
    ensures Tracks(m, c + x, CS_HEADER, 0, fs + [Frame(isMap, n, [])])
  {
    hide Tok, Complete, Resume, Decode, Pending, OverCount, OverDepth;
    var p := Pending(cs, trail);
    var fs' := fs + [Frame(isMap, n, [])];
    assert Unfinished(fs');
    forall r ensures TracksOn(m, c + x, CS_HEADER, 0, fs', r) {
      assert TracksOn(m, c, cs, trail, fs, x + r);
      assert EmitsOn(m, p + x, Open(isMap, n, []), r);
      assert c + x + r == c + (x + r) && p + x + r == p + (x + r);
      StepOpen(m, fs, isMap, n, p + (x + r), r);
      assert [] + r == r;
    }
  }

  /** After the bytes x an empty container is behind the cursor. */
  lemma TrackEmpty(m: Mode, c: seq<byte>, cs: nat, trail: nat, fs: seq<Frame>, x: seq<byte>, isMap: bool)
    requires Tracks(m, c, cs, trail, fs) && Emits(m, Pending(cs, trail) + x, Open(isMap, 0, []))
    requires !OverCount(m, isMap, 0) && !OverDepth(m, |fs| + 1, 0)
    ensures Delivers(m, c + x, fs, Cont(isMap, []))
  {
    hide Tok, Complete, Pending, OverCount, OverDepth;
    var p := Pending(cs, trail);
    forall r ensures DeliversOn(m, c + x, fs, Cont(isMap, []), r) {
      assert TracksOn(m, c, cs, trail, fs, x + r);
      assert EmitsOn(m, p + x, Open(isMap, 0, []), r);
      assert c + x + r == c + (x + r) && p + x + r == p + (x + r);
      assert DecodeAll(m, |fs| + 2, 0, r) == AllDone([], r);
    }
  }

  /** The bytes x only change what is pending. */
  lemma TrackTrail(m: Mode, c: seq<byte>, cs: nat, trail: nat, fs: seq<Frame>, x: seq<byte>, cs': nat, trail': nat)
    requires Tracks(m, c, cs, trail, fs) && StateOk(cs', trail')
    requires forall r :: SameToken(m, Pending(cs, trail) + x, Pending(cs', trail'), r)
    ensures Tracks(m, c + x, cs', trail', fs)
  {
    hide Tok, Pending, Complete, DecodeAll;
    var p, p' := Pending(cs, trail), Pending(cs', trail');
    forall r ensures TracksOn(m, c + x, cs', trail', fs, r) {
      assert TracksOn(m, c, cs, trail, fs, x + r);
      assert SameToken(m, p + x, p', r);
      assert c + x + r == c + (x + r) && p + x + r == p + (x + r);
    }
  }

  ghost predicate SameToken(m: Mode, p: seq<byte>, p': seq<byte>, r: seq<byte>) {
    Tok(m, p + r) == Tok(m, p' + r)
  }

  /** A complete value moves on to the next slot of its container. */
  lemma TrackItem(m: Mode, c: seq<byte>, fs: seq<Frame>, v: Value)
    requires Delivers(m, c, fs, v) && fs != [] && !Fills(fs)
    ensures Tracks(m, c, CS_HEADER, 0, Add(fs, v))
  {
    hide Tok, Decode, Complete, Resume;
    StepItem(m, fs, v, []);
    forall r ensures TracksOn(m, c, CS_HEADER, 0, Add(fs, v), r) {
      assert DeliversOn(m, c, fs, v, r);
      StepItem(m, fs, v, r);
      assert [] + r == r;
    }
  }

  /** A complete value that takes the last slot completes its container. */
  lemma TrackClose(m: Mode, c: seq<byte>, fs: seq<Frame>, v: Value)
    requires Delivers(m, c, fs, v) && fs != [] && Fills(fs)
    ensures var f := fs[|fs| - 1]; Delivers(m, c, fs[..|fs| - 1], Cont(f.isMap, f.done + [v]))
  {
    hide Tok, Decode, Complete;
    var f := fs[|fs| - 1];
    var fs', v' := fs[..|fs| - 1], Cont(f.isMap, f.done + [v]);
    forall r ensures DeliversOn(m, c, fs', v', r) {
      assert DeliversOn(m, c, fs, v, r);
      StepClose(m, fs, v, r);
    }
  }

  /** At a header the trail means nothing. */
  lemma TrackHeader(m: Mode, c: seq<byte>, trail: nat, fs: seq<Frame>, trail': nat)
    requires Tracks(m, c, CS_HEADER, trail, fs)
    ensures Tracks(m, c, CS_HEADER, trail', fs)
  {
    hide Decode, Resume;
    forall r ensures TracksOn(m, c, CS_HEADER, trail', fs, r) {
      assert TracksOn(m, c, CS_HEADER, trail, fs, r);
    }
  }

  lemma TracksOk(m: Mode, c: seq<byte>, cs: nat, trail: nat, fs: seq<Frame>)
    requires Tracks(m, c, cs, trail, fs)
    ensures StateOk(cs, trail) && Unfinished(fs)
  {
  }
}
