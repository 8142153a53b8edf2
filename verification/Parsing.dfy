/** What both parsers share: their results, the stack of open containers, and the meaning of an answer. */
module Parsing {
  import opened Bytes
  import opened Format
  import opened Resumption
  import opened StateTokens
  import opened Arena

  datatype ParseReturn = Success | ExtraBytes | Continue | ParseError | Threw(what: Limit) | InsufficientBytes

  datatype ItemKind = ArrayItem | MapKey | MapValue

  datatype Elem = Elem(kind: ItemKind, rest: nat)

  /** What the parser's stack says about an open container: the items or pairs that are left. */
  ghost function ElemOf(f: Frame): Elem
    requires |f.done| < Need(f)
  {
    if !f.isMap then Elem(ArrayItem, f.size - |f.done|)
    else Elem(if |f.done| % 2 == 0 then MapKey else MapValue, f.size - |f.done| / 2)
  }

  ghost predicate Mirrors(es: seq<Elem>, fs: seq<Frame>) {
    |es| == |fs| && Unfinished(fs) && forall j | 0 <= j < |fs| :: es[j] == ElemOf(fs[j])
  }

  ghost predicate EndsOn(m: Mode, c: seq<byte>, o: Outcome, r: seq<byte>) {
    Decode(m, 1, c + r) == o
  }

  ghost predicate Ends(m: Mode, c: seq<byte>, o: Outcome) {
    forall r :: EndsOn(m, c, o, r)
  }

  /**
   The answer to the bytes data[pos..], given that the bytes c came before them in the message: cur is where the
   parser stops, and consumed what it has taken in when it needs more.
   */
  ghost predicate Answers(m: Mode, c: seq<byte>, data: seq<byte>, pos: nat, ret: ParseReturn, cur: nat, value: Value,
                          consumed: seq<byte>)
    requires pos <= |data|
  {
    match Decode(m, 1, c + data[pos..])
    case Done(v, rest) => ret == Success && value == v && pos <= cur <= |data| && rest == data[cur..]
    case More => ret == Continue && pos <= cur <= |data| && consumed == c + data[pos..cur]
    case Bad => ret == ParseError && pos <= cur < |data| && data[cur] == 0xc1
    case Over(what) => ret == Threw(what)
  }

  lemma Cuts(c: seq<byte>, data: seq<byte>, a: nat, b: nat, d: nat)
    requires a <= b <= d <= |data|
    ensures c + data[a..b] + data[b..d] == c + data[a..d]
  {
  }

  lemma OneByte(c: seq<byte>, data: seq<byte>, at: nat)
    requires at < |data|
    ensures c + [data[at]] == c + data[at..at + 1]
  {
  }

  /** The answer does not depend on how the bytes before it were cut. */
  lemma AnswerJoin(m: Mode, c: seq<byte>, data: seq<byte>, off: nat, pos: nat, ret: ParseReturn, cur: nat, value: Value,
                   consumed: seq<byte>)
    requires off <= pos <= |data| && Answers(m, c + data[off..pos], data, pos, ret, cur, value, consumed)
    ensures Answers(m, c, data, off, ret, cur, value, consumed)
    ensures ret.Threw? ==> Answers(m, c, data, off, ret, off, value, consumed)
  {
    hide Decode;
    assert c + data[off..pos] + data[pos..] == c + data[off..];
  }

  lemma LeafHolds(o: Obj, v: Value, lo: nat, z: Zone)
    requires IsLeaf(o, v)
    ensures Holds(z, o, v, lo, |z|)
  {
  }

  lemma EmptyToken(m: Mode, kind: Kind)
    ensures BodyToken(m, kind, []) == Leaf(Blob(kind, []), [])
  {
  }

  lemma FixextSmall(cs: nat)
    requires 0x14 <= cs <= 0x18
    ensures TrailOf(cs) <= 17
  {
  }

  /** The trail table, entry by entry. */
  lemma TrailTable(table: seq<nat>, b: byte)
    requires table == [1, 2, 4, 1, 2, 4, 4, 8, 1, 2, 4, 8, 1, 2, 4, 8, 2, 3, 5, 9, 17, 1, 2, 4, 2, 4, 2, 4]
    requires 0xc4 <= b <= 0xdf
    ensures table[b - 0xc4] == TrailOf(b - 0xc0) && b % 32 == b - 0xc0
  {
  }

  // ---------------------------------------------------------------- steps of either parser

  lemma OverEnds(m: Mode, c: seq<byte>, cs: nat, trail: nat, fs: seq<Frame>, x: seq<byte>, isMap: bool, n: nat)
    requires Tracks(m, c, cs, trail, fs) && Emits(m, Pending(cs, trail) + x, Open(isMap, n, []))
    requires OverCount(m, isMap, n) || OverDepth(m, |fs| + 1, n)
    ensures Ends(m, c + x, Over(if OverCount(m, isMap, n) then CountLimit(isMap) else DepthLimit))
  {
    hide Tracks, Emits, Pending, OverCount, OverDepth, Decode;
    var what := if OverCount(m, isMap, n) then CountLimit(isMap) else DepthLimit;
    forall r ensures EndsOn(m, c + x, Over(what), r) {
      TrackOver(m, c, cs, trail, fs, x, isMap, n, r);
    }
  }

  lemma StopEnds(m: Mode, c: seq<byte>, cs: nat, trail: nat, fs: seq<Frame>, x: seq<byte>, why: Outcome)
    requires Tracks(m, c, cs, trail, fs) && Emits(m, Pending(cs, trail) + x, NoToken(why)) && !why.Done?
    ensures Ends(m, c + x, why)
  {
    hide Tracks, Emits, Pending, Decode;
    forall r ensures EndsOn(m, c + x, why, r) {
      TrackStop(m, c, cs, trail, fs, x, why, r);
    }
  }

  /** A header byte that only changes what is pending. */
  lemma HeaderPends(m: Mode, c: seq<byte>, cs: nat, trail: nat, fs: seq<Frame>, b: byte, cs': nat, trail': nat)
    requires Tracks(m, c, cs, trail, fs) && cs == CS_HEADER
    requires || (0xc4 <= b <= 0xdf && cs' == b - 0xc0 && trail' == TrailOf(cs'))
             || (0xa0 < b <= 0xbf && cs' == CS_STR_VALUE && trail' == b - 0xa0)
    ensures Tracks(m, c + [b], cs', trail', fs)
  {
    hide Tracks, Pending, SameToken, TrailOf;
    TracksOk(m, c, cs, trail, fs);
    forall r ensures SameToken(m, Pending(cs, trail) + [b], Pending(cs', trail'), r) {
      if 0xc4 <= b {
        HeaderTrail(m, trail, b, r);
      } else {
        HeaderStr(m, trail, b, r);
      }
    }
    TrackTrail(m, c, cs, trail, fs, [b], cs', trail');
  }

  /** A length that is not zero only changes what is pending. */
  lemma SizePends(m: Mode, c: seq<byte>, cs: nat, trail: nat, fs: seq<Frame>, x: seq<byte>)
    requires Tracks(m, c, cs, trail, fs) && (0x04 <= cs <= 0x09 || 0x19 <= cs <= 0x1b) && |x| == TrailOf(cs) == trail
    requires BodyLen(SizedOf(cs).0, Load(x)) > 0
    ensures var kind := SizedOf(cs).0; Tracks(m, c + x, ValueState(kind), BodyLen(kind, Load(x)), fs)
  {
    hide Tracks, Pending, SameToken, TrailOf, Load, BodyLen;
    var kind := SizedOf(cs).0;
    var len := BodyLen(kind, Load(x));
    TracksOk(m, c, cs, trail, fs);
    TrailSize(m, cs, x, []);
    forall r ensures SameToken(m, Pending(cs, trail) + x, Pending(ValueState(kind), len), r) {
      TrailSize(m, cs, x, r);
    }
    TrackTrail(m, c, cs, trail, fs, x, ValueState(kind), len);
  }

  /** With fewer bytes left than the state waits for, the answer is that more are needed. */
  lemma AnswerMore(m: Mode, c: seq<byte>, cs: nat, trail: nat, fs: seq<Frame>, c0: seq<byte>, data: seq<byte>, pos: nat,
                   cur: nat, value: Value)
    requires Tracks(m, c, cs, trail, fs)
    requires pos <= cur <= |data| && c == c0 + data[pos..cur]
    requires |data| - cur < (if cs == CS_HEADER then 1 else trail)
    ensures Answers(m, c0, data, pos, Continue, cur, value, c)
  {
    hide Decode, Tracks;
    var r := data[cur..];
    assert c + r == c0 + data[pos..];
    TrackShort(m, c, cs, trail, fs, r);
  }

  lemma TrailPositive(m: Mode, c: seq<byte>, cs: nat, trail: nat, fs: seq<Frame>)
    requires Tracks(m, c, cs, trail, fs) && cs != CS_HEADER
    ensures trail >= 1
  {
  }

  /** A verdict on the bytes up to end, when it is final, is the answer to all of data[pos..]. */
  lemma AnswerFinal(m: Mode, c: seq<byte>, c0: seq<byte>, data: seq<byte>, pos: nat, end: nat, ret: ParseReturn,
                    cur: nat, value: Value)
    requires pos <= end <= |data| && c == c0 + data[pos..end]
    requires match ret
             case Success => Delivers(m, c, [], value) && cur == end
             case ParseError => Ends(m, c, Bad) && pos <= cur < |data| && data[cur] == 0xc1
             case Threw(what) => Ends(m, c, Over(what))
             case _ => false
    ensures Answers(m, c0, data, pos, ret, cur, value, c)
  {
    hide Decode;
    var r := data[end..];
    assert c + r == c0 + data[pos..];
    match ret
    case Success => assert DeliversOn(m, c, [], value, r);
    case ParseError => assert EndsOn(m, c, Bad, r);
    case Threw(what) => assert EndsOn(m, c, Over(what), r);
  }
}
