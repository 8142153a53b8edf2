/**
 The write queue of a session. Submissions and completion handlers run one at a time on a strand; exit_ is an atomic
 flag that another thread may raise at any moment, so it may rise before every read of it.
 */
module AsyncWriter {
  import opened Bytes

  type Item = seq<byte>

  /** The queue and the flags, and beside them what has happened: which items were submitted, started and completed. */
  datatype State = State(queue: seq<Item>, exit: bool, closed: bool,
                         submitted: seq<Item>, started: seq<Item>, completed: seq<Item>,
                         outstanding: seq<Item>, failed: bool)

  /** raise, raise1.. say whether the other thread raises exit_ just before the reads of it. */
  datatype Event =
    | Submit(data: Item, raise: bool)
    | Completion(ok: bool, raise1: bool, raise2: bool, raise3: bool)
    | SetExit

  const INITIAL := State([], false, false, [], [], [], [], false)

  // ---------------------------------------------------------------- what a step means

  ghost predicate Enabled(s: State, e: Event) {
    e.Completion? ==> s.outstanding != []
  }

  ghost function Raise(s: State, raise: bool): State {
    s.(exit := s.exit || raise)
  }

  ghost function Start(s: State): State
    requires s.queue != []
  {
    if s.exit then s else s.(started := s.started + [s.queue[0]], outstanding := s.outstanding + [s.queue[0]])
  }

  ghost function Step(s: State, e: Event): State
    requires Enabled(s, e) && (e.Completion? ==> s.queue != [])
  {
    match e
    case Submit(data, raise) =>
      var s1 := s.(queue := s.queue + [data], submitted := s.submitted + [data]);
      if |s1.queue| > 1 then s1 else Start(Raise(s1, raise))
    case Completion(ok, raise1, raise2, raise3) =>
      var s1 := s.(outstanding := s.outstanding[1..]);
      var s2 :=
        if !ok then s1.(failed := true)
        else
          var s3 := s1.(queue := s1.queue[1..], completed := s1.completed + [s1.queue[0]]);
          if s3.queue == [] then s3
          else if Raise(s3, raise1).exit then Raise(s3, raise1)
          else Start(Raise(s3, raise2));
      var s4 := Raise(s2, raise3);
      if s4.exit then s4.(closed := true) else s4
    case SetExit => Raise(s, true)
  }

  // ---------------------------------------------------------------- the class

  class Writer {
    var writeQueue: seq<Item>
    var exit: bool
    var closed: bool
    ghost var submitted: seq<Item>
    ghost var started: seq<Item>
    ghost var completed: seq<Item>
    ghost var outstanding: seq<Item>
    ghost var failed: bool

    ghost function Now(): State
      reads this
    {
      State(writeQueue, exit, closed, submitted, started, completed, outstanding, failed)
    }

    constructor ()
      ensures Now() == INITIAL && Invariant(Now())
    {
      writeQueue, exit, closed := [], false, false;
      submitted, started, completed, outstanding, failed := [], [], [], [], false;
    }

    method DoWrite(raise: bool)
      requires writeQueue != []
      modifies this
      ensures Now() == Start(Raise(old(Now()), raise))
    {
      exit := exit || raise;
      if exit {
        return;
      }
      ghost var item := writeQueue[0];
      started := started + [item];
      outstanding := outstanding + [item];
    }

    method Write(data: Item, raise: bool)
      modifies this
      ensures Now() == Step(old(Now()), Submit(data, raise))
    {
      writeQueue := writeQueue + [data];
      submitted := submitted + [data];
      if |writeQueue| > 1 {
        return;
      }
      DoWrite(raise);
    }

    method Handler(ok: bool, raise1: bool, raise2: bool, raise3: bool)
      requires outstanding != [] && writeQueue != []
      modifies this
      ensures Now() == Step(old(Now()), Completion(ok, raise1, raise2, raise3))
    {
      outstanding := outstanding[1..];
      if ok {
        completed := completed + [writeQueue[0]];
        writeQueue := writeQueue[1..];
        if |writeQueue| > 0 {
          exit := exit || raise1;
          if !exit {
            DoWrite(raise2);
          }
        }
      } else {
        failed := true;
      }
      exit := exit || raise3;
      if exit {
        closed := true;
      }
    }
  }

  // ---------------------------------------------------------------- every run

  /**
   Completed items and then the queue are what was submitted, in order. At most one write is outstanding, for the
   front item, and without errors and exit one is outstanding exactly when something is queued.
   */
  ghost predicate Invariant(s: State) {
    && s.completed + s.queue == s.submitted
    && (s.outstanding != [] ==> s.queue != [] && s.outstanding == [s.queue[0]] && !s.failed)
    && (s.failed ==> s.queue != [])
    && s.started == s.completed + (if s.failed then [s.queue[0]] else s.outstanding)
    && (!s.failed && !s.exit ==> (s.outstanding != [] <==> s.queue != []))
    && (s.closed ==> s.exit)
  }

  lemma StepKeeps(s: State, e: Event)
    requires Invariant(s) && Enabled(s, e)
    ensures e.Completion? ==> s.queue != []
    ensures Invariant(Step(s, e))
  {
    match e
    case Submit(data, raise) =>
      assert s.completed + (s.queue + [data]) == s.submitted + [data];
    case Completion(ok, raise1, raise2, raise3) =>
      assert s.outstanding[1..] == [];
      var s1 := s.(outstanding := s.outstanding[1..]);
      if ok {
        PopKeeps(s);
      } else {
        RaiseKeeps(s1.(failed := true), raise3);
      }
    case SetExit =>
      RaiseKeeps(s, true);
  }

  lemma RaiseKeeps(s: State, raise: bool)
    requires Invariant(s)
    ensures Invariant(Raise(s, raise))
  {
  }

  /** The front item is done; unless exit is seen, the next one is started. */
  lemma PopKeeps(s: State)
    requires Invariant(s) && s.outstanding != []
    ensures var s1 := s.(outstanding := [], queue := s.queue[1..], completed := s.completed + [s.queue[0]]);
            && (s1.queue == [] ==> Invariant(s1)) && Invariant(Raise(s1, true))
            && (s1.queue != [] ==> forall raise :: Invariant(Start(Raise(s1, raise))))
  {
    assert (s.completed + [s.queue[0]]) + s.queue[1..] == s.submitted;
  }

  /** A completion only happens while a write is outstanding. */
  ghost function Next(s: State, e: Event): (s': State)
    requires Invariant(s)
    ensures Invariant(s')
  {
    if Enabled(s, e) then
      StepKeeps(s, e);
      Step(s, e)
    else s
  }

  /** A run is any mix of events. */
  ghost function Run(s: State, es: seq<Event>): (s': State)
    requires Invariant(s)
    ensures Invariant(s')
    decreases |es|
  {
    if es == [] then s else Run(Next(s, es[0]), es[1..])
  }

  /** Nothing is sent out of order, twice, or before what was submitted first. */
  lemma InOrder(es: seq<Event>)
    ensures var s := Run(INITIAL, es);
            && s.completed <= s.started <= s.submitted && |s.started| <= |s.completed| + 1
            && |s.outstanding| <= 1 && (s.outstanding != [] ==> s.outstanding == s.started[|s.completed|..])
  {
    var s := Run(INITIAL, es);
    assert s.submitted == s.completed + s.queue;
    if s.queue != [] {
      assert s.queue == [s.queue[0]] + s.queue[1..];
      assert s.submitted[..|s.completed| + 1] == s.completed + [s.queue[0]];
    }
  }

  /** After an error, or once exit is seen with nothing outstanding, no write is started again. */
  ghost predicate Stuck(s: State) {
    s.outstanding == [] && (s.failed || s.exit)
  }

  lemma {:induction false} StuckForGood(s: State, es: seq<Event>)
    requires Invariant(s) && Stuck(s)
    ensures var s' := Run(s, es); Stuck(s') && s'.started == s.started && s'.completed == s.completed
    decreases |es|
  {
    if es != [] {
      StuckForGood(Next(s, es[0]), es[1..]);
    }
  }

  /** And in no other state: then something can still be started or completed. */
  lemma StuckExactly(s: State)
    requires Invariant(s)
    ensures Stuck(s) <==> forall es :: Run(s, es).started == s.started && Run(s, es).completed == s.completed
  {
    if Stuck(s) {
      forall es ensures Run(s, es).started == s.started && Run(s, es).completed == s.completed {
        StuckForGood(s, es);
      }
    } else {
      var e := if s.outstanding != [] then Completion(true, false, false, false) else Submit([], false);
      RunOne(s, e);
      assert |Run(s, [e]).started| > |s.started| || |Run(s, [e]).completed| > |s.completed|;
    }
  }

  lemma RunOne(s: State, e: Event)
    requires Invariant(s)
    ensures Run(s, [e]) == Next(s, e)
  {
    assert [e][1..] == [];
    assert Run(Next(s, e), []) == Next(s, e);
  }

  ghost function Completions(n: nat): seq<Event> {
    if n == 0 then [] else [Completion(true, false, false, false)] + Completions(n - 1)
  }

  /** Without errors and exit the queue drains: one completion for each item. */
  lemma {:induction false} Drains(s: State)
    requires Invariant(s) && !s.failed && !s.exit
    ensures var s' := Run(s, Completions(|s.queue|));
            s'.queue == [] && s'.outstanding == [] && s'.completed == s.submitted == s'.submitted && !s'.closed
    decreases |s.queue|
  {
    if s.queue != [] {
      var e := Completion(true, false, false, false);
      var es := Completions(|s.queue|);
      StepKeeps(s, e);
      assert es[0] == e && es[1..] == Completions(|s.queue| - 1);
      Drains(Step(s, e));
    }
  }

  // ---------------------------------------------------------------- closing the socket

  /**
   What an event does, field by field. A successful completion takes the front item off the queue, an error leaves it
   there; the next write is started only without exit; and a completion that leaves exit set closes the socket.
   */
  lemma StepEffects(s: State, e: Event)
    requires Invariant(s) && Enabled(s, e)
    ensures var (s', more) := (Step(s, e), e.Completion? && e.ok && |s.queue| > 1);
            && s'.submitted == s.submitted + (if e.Submit? then [e.data] else [])
            && s'.completed == s.completed + (if e.Completion? && e.ok then [s.queue[0]] else [])
            && s'.submitted == s'.completed + s'.queue
            && (s'.exit <==> (|| s.exit || e.SetExit? || (e.Submit? && s.queue == [] && e.raise)
                              || (e.Completion? && e.raise3) || (more && (e.raise1 || e.raise2))))
            && (e.Completion? ==> s'.outstanding ==
                                  if more && !s.exit && !e.raise1 && !e.raise2 then [s.queue[1]] else [])
            && (e.Submit? ==> s'.outstanding == if s.queue == [] && !s'.exit then [e.data] else s.outstanding)
            && (e.SetExit? ==> s'.outstanding == s.outstanding)
            && (s'.failed <==> s.failed || (e.Completion? && !e.ok))
            && (s'.closed <==> s.closed || (e.Completion? && s'.exit))
  {
    StepKeeps(s, e);
  }

  /** A completion, the last of these events, that leaves exit set. */
  ghost predicate EndsWithExit(s: State, es: seq<Event>)
    requires Invariant(s) && es != []
  {
    var n := |es| - 1;
    es[n].Completion? && Enabled(Run(s, es[..n]), es[n]) && Run(s, es).exit
  }

  /** Over a run the socket is closed if and only if some completion of it left exit set. */
  lemma {:induction false} ClosedExactly(s: State, es: seq<Event>)
    requires Invariant(s) && !s.closed
    ensures Run(s, es).closed <==> exists i :: 0 < i <= |es| && EndsWithExit(s, es[..i])
    decreases |es|
  {
    hide Invariant, EndsWithExit;
    if es != [] {
      var n := |es| - 1;
      ClosedByLast(s, es);
      ClosedExactly(s, es[..n]);
      forall i | 0 < i <= n ensures es[..n][..i] == es[..i] {
      }
      assert es[..|es|] == es;
    }
  }

  lemma ClosedByLast(s: State, es: seq<Event>)
    requires Invariant(s) && es != []
    ensures Run(s, es).closed <==> Run(s, es[..|es| - 1]).closed || EndsWithExit(s, es)
  {
    hide Enabled, Invariant, Run, Step;
    var (n, last) := (|es| - 1, es[|es| - 1]);
    assert es[..n] + [last] == es;
    RunSnoc(s, es[..n], last);
    var s1 := Run(s, es[..n]);
    if Enabled(s1, last) {
      StepEffects(s1, last);
    }
  }

  lemma {:induction false} RunSnoc(s: State, es: seq<Event>, e: Event)
    requires Invariant(s)
    ensures Run(s, es + [e]) == Next(Run(s, es), e)
    decreases |es|
  {
    hide Invariant, Enabled;
    if es == [] {
      assert es + [e] == [e];
      RunOne(s, e);
    } else {
      assert (es + [e])[1..] == es[1..] + [e];
      RunSnoc(Next(s, es[0]), es[1..], e);
    }
  }

  ghost predicate UnderWrite(s: State) {
    s.closed && s.outstanding != []
  }

  /** A completion that starts the next write, with exit rising between that and the handler's last read of it. */
  ghost predicate Races(s: State, e: Event) {
    Enabled(s, e) && e.Completion? && e.ok && |s.queue| > 1 && !s.exit && !e.raise1 && !e.raise2 && e.raise3
  }

  /** The socket is closed under a write by such a completion, and by nothing else. */
  lemma ClosesExactly(s: State, e: Event)
    requires Invariant(s) && !UnderWrite(s)
    ensures UnderWrite(Next(s, e)) <==> Races(s, e)
  {
    if Enabled(s, e) {
      StepKeeps(s, e);
    }
  }

  ghost predicate EverUnderWrite(s: State, es: seq<Event>)
    requires Invariant(s)
    decreases |es|
  {
    UnderWrite(s) || (es != [] && EverUnderWrite(Next(s, es[0]), es[1..]))
  }

  ghost predicate EverRaces(s: State, es: seq<Event>)
    requires Invariant(s)
    decreases |es|
  {
    es != [] && (Races(s, es[0]) || EverRaces(Next(s, es[0]), es[1..]))
  }

  /** In a run the socket is ever closed under a write if and only if such a completion is part of it. */
  lemma {:induction false} ClosedUnderWriteExactly(s: State, es: seq<Event>)
    requires Invariant(s) && !UnderWrite(s)
    ensures EverUnderWrite(s, es) <==> EverRaces(s, es)
    decreases |es|
  {
    hide Races;
    if es != [] {
      ClosesExactly(s, es[0]);
      if !UnderWrite(Next(s, es[0])) {
        ClosedUnderWriteExactly(Next(s, es[0]), es[1..]);
      }
    }
  }

  /** There are such runs. */
  lemma ClosedUnderWrite(a: Item, b: Item)
    ensures var es := [Submit(a, false), Submit(b, false), Completion(true, false, false, true)];
            var s := Run(INITIAL, es);
            s.closed && s.outstanding == [b] && s.completed == [a]
  {
    var es := [Submit(a, false), Submit(b, false), Completion(true, false, false, true)];
    var s1 := Next(INITIAL, es[0]);
    var s2 := Next(s1, es[1]);
    assert s1.outstanding == [a] && s2.queue == [a, b];
    assert es[1..] == [es[1], es[2]] && es[1..][1..] == [es[2]];
    RunOne(s2, es[2]);
    assert Run(s1, es[1..]) == Next(s2, es[2]);
  }
}
