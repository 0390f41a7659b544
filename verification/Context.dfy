/** The thread's current handle (`src/context.rs`), and the work callback that sets it
    (`src/task/spawn.rs`). */
module Contexts {
  import opened Options

  /** A pool handle; `instance` is the callback it was last used in, if any. */
  datatype Handle = Handle(pool: int, priority: nat, instance: Option<int>)

  /** What a thread runs. `Within` is a block that begins with `let _guard = h.enter()`;
      `Spawn` clones the current handle into a queue; `Callback` is the work callback with
      the handle that was queued and the runnable it popped. */
  datatype Code =
    | Current
    | Spawn
    | Panic
    | Within(h: Handle, body: seq<Code>)
    | WithinCurrent(body: seq<Code>)
    | Callback(instance: int, queued: Handle, runnable: seq<Code>)

  /** What is seen: handles returned by `try_current`, handles that went into a queue. */
  datatype Event = Saw(seen: Option<Handle>) | Queued(h: Handle) | NoContext

  datatype Trace = Trace(events: seq<Event>, panicked: bool)

  // ---- the reference: lexical scoping ----

  /** Everything sees the handle of the innermost block around it, and nothing else. */
  function Lexical(code: seq<Code>, around: Option<Handle>): Trace
    decreases code, 0
  {
    if code == [] then Trace([], false)
    else
      var one := LexicalOne(code[0], around);
      if one.panicked then one
      else
        var rest := Lexical(code[1..], around);
        Trace(one.events + rest.events, rest.panicked)
  }

  /** `current()` without a context panics. */
  function LexicalOne(c: Code, around: Option<Handle>): Trace
    decreases c, 1
  {
    match c
    case Current => Trace([Saw(around)], false)
    case Spawn => if around.None? then Trace([NoContext], true) else Trace([Queued(around.value)], false)
    case Panic => Trace([], true)
    case Within(h, body) => Lexical(body, Some(h))
    case WithinCurrent(body) =>
      if around.None? then Trace([NoContext], true) else Lexical(body, around)
    case Callback(instance, queued, runnable) =>
      Trace(Lexical(runnable, Some(queued.(instance := Some(instance)))).events, false)
  }

  // ---- the thread-local slot and its guards ----

  class ContextGuard {
    var previous: Option<Handle>

    constructor (previous: Option<Handle>)
      ensures this.previous == previous
    {
      this.previous := previous;
    }
  }

  class ThreadContext {
    var slot: Option<Handle>
    var events: seq<Event>

    constructor ()
      ensures slot == None && events == []
    {
      slot, events := None, [];
    }

    /** `Handle::enter`. */
    method Enter(h: Handle) returns (guard: ContextGuard)
      modifies this`slot
      ensures slot == Some(h) && fresh(guard) && guard.previous == old(slot)
    {
      var previous := slot;
      slot := Some(h);
      guard := new ContextGuard(previous);
    }

    /** `Drop for ContextGuard`. */
    method DropGuard(guard: ContextGuard)
      modifies this`slot, guard
      ensures slot == old(guard.previous) && guard.previous == None
    {
      slot := guard.previous;
      guard.previous := None;
    }

    /** Running code against the slot. For any nesting, and whether or not it panics, the
        slot is afterwards what it was, and what was seen is what lexical scoping says. */
    method Run(code: seq<Code>) returns (panicked: bool)
      modifies this
      ensures slot == old(slot)
      ensures events == old(events) + Lexical(code, slot).events
      ensures panicked == Lexical(code, slot).panicked
      decreases code, 0
    {
      if code == [] {
        return false;
      }
      panicked := RunOne(code[0]);
      if !panicked {
        panicked := Run(code[1..]);
      }
    }

    method RunOne(c: Code) returns (panicked: bool)
      modifies this
      ensures slot == old(slot)
      ensures events == old(events) + LexicalOne(c, slot).events
      ensures panicked == LexicalOne(c, slot).panicked
      decreases c, 1
    {
      panicked := false;
      match c {
        case Current =>
          events := events + [Saw(slot)];
        case Spawn =>
          if slot.None? {
            events := events + [NoContext];
            panicked := true;
          } else {
            events := events + [Queued(slot.value)];
          }
        case Panic =>
          panicked := true;
        case Within(h, body) =>
          var guard := Enter(h);
          panicked := Run(body);
          DropGuard(guard);
        case WithinCurrent(body) =>
          if slot.None? {
            events := events + [NoContext];
            panicked := true;
          } else {
            var guard := Enter(slot.value);
            panicked := Run(body);
            DropGuard(guard);
          }
        case Callback(instance, queued, runnable) =>
          WorkCallback(instance, queued, runnable);
      }
    }

    /** The callback's tail: the popped handle is given this callback's instance and
        entered, and the runnable's panic is caught before the guard is dropped. */
    method WorkCallback(instance: int, queued: Handle, runnable: seq<Code>)
      modifies this
      ensures slot == old(slot)
      ensures events == old(events) + Lexical(runnable, Some(queued.(instance := Some(instance)))).events
      decreases runnable, 1
    {
      var handle := queued.(instance := Some(instance));
      var guard := Enter(handle);
      var caught := Run(runnable);
      DropGuard(guard);
    }
  }

  // ---- what lexical scoping gives the running task ----

  /** The handles user code enters, at any depth. */
  function Entered(code: seq<Code>): set<Handle>
    decreases code, 0
  {
    if code == [] then {} else EnteredOne(code[0]) + Entered(code[1..])
  }

  function EnteredOne(c: Code): set<Handle>
    decreases c, 1
  {
    match c
    case Within(h, body) => {h} + Entered(body)
    case WithinCurrent(body) => Entered(body)
    case Callback(instance, queued, runnable) => {queued.(instance := Some(instance))} + Entered(runnable)
    case _ => {}
  }

  predicate From(e: Event, handles: set<Handle>) {
    match e
    case Saw(seen) => seen.Some? && seen.value in handles
    case Queued(h) => h in handles
    case NoContext => false
  }

  lemma {:induction false} SeesOnlyEntered(code: seq<Code>, around: Handle, handles: set<Handle>)
    requires around in handles && Entered(code) <= handles
    ensures forall e :: e in Lexical(code, Some(around)).events ==> From(e, handles)
    decreases code, 0
  {
    if code != [] {
      OneSeesOnlyEntered(code[0], around, handles);
      SeesOnlyEntered(code[1..], around, handles);
    }
  }

  lemma {:induction false} OneSeesOnlyEntered(c: Code, around: Handle, handles: set<Handle>)
    requires around in handles && EnteredOne(c) <= handles
    ensures forall e :: e in LexicalOne(c, Some(around)).events ==> From(e, handles)
    decreases c, 1
  {
    match c
    case Current =>
    case Spawn =>
    case Panic =>
    case Within(h, body) => SeesOnlyEntered(body, h, handles);
    case WithinCurrent(body) => SeesOnlyEntered(body, around, handles);
    case Callback(instance, queued, runnable) =>
      SeesOnlyEntered(runnable, queued.(instance := Some(instance)), handles);
  }

  /** Inside a block the entered handle is the one seen, whatever is current around it, or a
      handle that is entered further in. */
  lemma BlockSeesItsHandle(h: Handle, body: seq<Code>, around: Option<Handle>, e: Event)
    requires e in LexicalOne(Within(h, body), around).events
    ensures From(e, {h} + Entered(body))
    ensures Entered(body) == {} ==> e == Saw(Some(h)) || e == Queued(h)
  {
    SeesOnlyEntered(body, h, {h} + Entered(body));
  }

  /** Entering the current handle again is entering it by name. */
  lemma CurrentByName(h: Handle, body: seq<Code>, around: Option<Handle>)
    ensures LexicalOne(WithinCurrent(body), Some(h)) == LexicalOne(Within(h, body), around)
  {
  }

  /** What code that enters nothing sees and queues, one event for each query and spawn. */
  lemma {:induction false} EachQueryIsSeen(code: seq<Code>, around: Option<Handle>)
    requires forall i :: 0 <= i < |code| ==> code[i].Current? || (code[i].Spawn? && around.Some?)
    ensures var t := Lexical(code, around);
            && !t.panicked && |t.events| == |code|
            && forall i :: 0 <= i < |code| ==>
                 t.events[i] == if code[i].Current? then Saw(around) else Queued(around.value)
  {
    if code != [] {
      EachQueryIsSeen(code[1..], around);
    }
  }

  // ---- what a panic leaves ----

  /** Code that does not panic is followed by what comes after; code that does, by nothing. */
  lemma {:induction false} RunsOn(before: seq<Code>, after: seq<Code>, around: Option<Handle>)
    ensures
      var one, two := Lexical(before, around), Lexical(after, around);
      Lexical(before + after, around) ==
        if one.panicked then one else Trace(one.events + two.events, two.panicked)
  {
    if before == [] {
      assert before + after == after;
    } else {
      RunsOn(before[1..], after, around);
      assert (before + after)[0] == before[0] && (before + after)[1..] == before[1..] + after;
      var c, one, two := LexicalOne(before[0], around), Lexical(before[1..], around), Lexical(after, around);
      assert (c.events + one.events) + two.events == c.events + (one.events + two.events);
    }
  }

  lemma OneAndRest(c: Code, rest: seq<Code>, around: Option<Handle>)
    ensures
      var one, two := LexicalOne(c, around), Lexical(rest, around);
      Lexical([c] + rest, around) == if one.panicked then one else Trace(one.events + two.events, two.panicked)
  {
    assert ([c] + rest)[1..] == rest;
  }

  /** What a panic cuts off: what was seen before it stays, and nothing comes after. */
  lemma PanicEnds(before: seq<Code>, after: seq<Code>, around: Option<Handle>)
    requires !Lexical(before, around).panicked
    ensures Lexical(before + [Panic] + after, around) == Trace(Lexical(before, around).events, true)
  {
    assert before + [Panic] + after == before + ([Panic] + after);
    RunsOn(before, [Panic] + after, around);
    OneAndRest(Panic, after, around);
    assert Lexical(before, around).events + [] == Lexical(before, around).events;
  }

  /** After a block that ends, all that was seen in it is seen, and the code around it goes on
      with the handle it had. */
  lemma BlockGoesOn(h: Handle, body: seq<Code>, rest: seq<Code>, around: Option<Handle>)
    requires !Lexical(body, Some(h)).panicked
    ensures Lexical([Within(h, body)] + rest, around)
            == Trace(Lexical(body, Some(h)).events + Lexical(rest, around).events, Lexical(rest, around).panicked)
  {
    OneAndRest(Within(h, body), rest, around);
  }

  /** A panic in a block ends the block, with what was seen in it so far, and goes on through
      the code around it. */
  lemma PanicLeavesBlock(h: Handle, before: seq<Code>, after: seq<Code>, rest: seq<Code>, around: Option<Handle>)
    requires !Lexical(before, Some(h)).panicked
    ensures Lexical([Within(h, before + [Panic] + after)] + rest, around)
            == Trace(Lexical(before, Some(h)).events, true)
  {
    PanicEnds(before, after, Some(h));
    OneAndRest(Within(h, before + [Panic] + after), rest, around);
  }

  /** Asking for the current handle where there is none panics, as `Handle::current` does. */
  lemma NoContextPanics(c: Code, rest: seq<Code>)
    requires c.Spawn? || c.WithinCurrent?
    ensures Lexical([c] + rest, None) == Trace([NoContext], true)
  {
    OneAndRest(c, rest, None);
  }

  /** Around a callback the code goes on, whether or not its runnable panics and whatever is
      current; all that the runnable saw is seen. */
  lemma CallbackGoesOn(instance: int, queued: Handle, runnable: seq<Code>, rest: seq<Code>, around: Option<Handle>)
    ensures
      var own := Handle(queued.pool, queued.priority, Some(instance));
      Lexical([Callback(instance, queued, runnable)] + rest, around)
      == Trace(Lexical(runnable, Some(own)).events + Lexical(rest, around).events, Lexical(rest, around).panicked)
  {
    OneAndRest(Callback(instance, queued, runnable), rest, around);
  }

  /** So a callback's panic cuts off the rest of its runnable only. */
  lemma CallbackContainsPanic(instance: int, queued: Handle, before: seq<Code>, after: seq<Code>,
                              rest: seq<Code>, around: Option<Handle>)
    requires !Lexical(before, Some(Handle(queued.pool, queued.priority, Some(instance)))).panicked
    ensures
      var own := Handle(queued.pool, queued.priority, Some(instance));
      Lexical([Callback(instance, queued, before + [Panic] + after)] + rest, around)
      == Trace(Lexical(before, Some(own)).events + Lexical(rest, around).events, Lexical(rest, around).panicked)
  {
    PanicEnds(before, after, Some(Handle(queued.pool, queued.priority, Some(instance))));
    CallbackGoesOn(instance, queued, before + [Panic] + after, rest, around);
  }

  /** While user code enters no handle but the current one, all that a running task sees
      and queues is the popped handle with the instance of the callback running it, however
      stale the instance it was queued with, and there is always a context. */
  lemma RunsUnderOwnInstance(instance: int, queued: Handle, runnable: seq<Code>, e: Event)
    requires Entered(runnable) == {}
    requires e in LexicalOne(Callback(instance, queued, runnable), None).events
    ensures var own := Handle(queued.pool, queued.priority, Some(instance));
            e == Saw(Some(own)) || e == Queued(own)
  {
    var own := queued.(instance := Some(instance));
    SeesOnlyEntered(runnable, own, {own});
  }

  /** The queue is where staleness comes from: what a task spawns is queued with the
      spawner's instance, and runs with its own. */
  lemma StaleInQueueOnly(first: int, second: int, handle: Handle)
    ensures var own := handle.(instance := Some(first));
            && LexicalOne(Callback(first, handle, [Spawn]), None).events == [Queued(own)]
            && LexicalOne(Callback(second, own, [Current]), None).events == [Saw(Some(own.(instance := Some(second))))]
  {
    var own := handle.(instance := Some(first));
    var next := own.(instance := Some(second));
    assert Lexical([Spawn], Some(own)).events == [Queued(own)] + Lexical([], Some(own)).events;
    assert Lexical([Current], Some(next)).events == [Saw(Some(next))] + Lexical([], Some(next)).events;
  }

  // ---- guards dropped in any order ----

  datatype Guard = Guard(h: Handle, previous: Option<Handle>)

  datatype Op = Enter(h: Handle) | Drop(i: nat)

  /** The slot, and the guards alive in the order they were made. */
  datatype Stack = Stack(slot: Option<Handle>, live: seq<Guard>)

  predicate Possible(s: Stack, op: Op) {
    op.Drop? ==> op.i < |s.live|
  }

  function After(s: Stack, op: Op): Stack
    requires Possible(s, op)
  {
    match op
    case Enter(h) => Stack(Some(h), s.live + [Guard(h, s.slot)])
    case Drop(i) => Stack(s.live[i].previous, s.live[..i] + s.live[i + 1..])
  }

  predicate Feasible(s: Stack, ops: seq<Op>)
    decreases |ops|, 0
  {
    ops != [] ==> Feasible(s, ops[..|ops| - 1]) && Possible(AfterAll(s, ops[..|ops| - 1]), ops[|ops| - 1])
  }

  function AfterAll(s: Stack, ops: seq<Op>): Stack
    requires Feasible(s, ops)
    decreases |ops|, 1
  {
    if ops == [] then s else After(AfterAll(s, ops[..|ops| - 1]), ops[|ops| - 1])
  }

  lemma {:induction false} PrefixFeasible(s: Stack, ops: seq<Op>, n: nat)
    requires Feasible(s, ops) && n <= |ops|
    ensures Feasible(s, ops[..n])
  {
    if n == |ops| {
      assert ops[..n] == ops;
    } else {
      PrefixFeasible(s, ops[..|ops| - 1], n);
      assert ops[..|ops| - 1][..n] == ops[..n];
    }
  }

  // ---- which orders give back the earlier context ----

  /** Which of `ops` made the `i`-th of the guards now alive. */
  function MadeBy(base: Option<Handle>, ops: seq<Op>, i: nat): (n: nat)
    requires Feasible(Stack(base, []), ops) && i < |AfterAll(Stack(base, []), ops).live|
    ensures n < |ops| && ops[n].Enter?
    ensures AfterAll(Stack(base, []), ops).live[i].h == ops[n].h
  {
    var init, last := ops[..|ops| - 1], ops[|ops| - 1];
    match last
    case Enter(_) => if i == |AfterAll(Stack(base, []), init).live| then |init| else MadeBy(base, init, i)
    case Drop(j) => MadeBy(base, init, if i < j then i else i + 1)
  }

  /** The context after the first `n` operations. */
  function ContextAfter(base: Option<Handle>, ops: seq<Op>, n: nat): Option<Handle>
    requires Feasible(Stack(base, []), ops) && n <= |ops|
  {
    PrefixFeasible(Stack(base, []), ops, n);
    AfterAll(Stack(base, []), ops[..n]).slot
  }

  /** However guards were made and dropped before, each holds the context it was made in. */
  lemma {:induction false} GuardHoldsItsContext(base: Option<Handle>, ops: seq<Op>, i: nat)
    requires Feasible(Stack(base, []), ops) && i < |AfterAll(Stack(base, []), ops).live|
    ensures AfterAll(Stack(base, []), ops).live[i].previous == ContextAfter(base, ops, MadeBy(base, ops, i))
  {
    var init, last := ops[..|ops| - 1], ops[|ops| - 1];
    var n := MadeBy(base, ops, i);
    assert init[..n] == ops[..n];
    match last
    case Enter(_) =>
      if i == |AfterAll(Stack(base, []), init).live| {
        assert ops[..n] == init;
      } else {
        GuardHoldsItsContext(base, init, i);
      }
    case Drop(j) => GuardHoldsItsContext(base, init, if i < j then i else i + 1);
  }

  /** A sequence of enters and drops that ends with the last guard's drop gives back the
      earlier context exactly if that guard was made while the earlier context was current. */
  lemma GivesBackExactlyWhen(base: Option<Handle>, ops: seq<Op>)
    requires Feasible(Stack(base, []), ops + [Drop(0)]) && Feasible(Stack(base, []), ops)
    requires |AfterAll(Stack(base, []), ops).live| == 1
    ensures
      var end := AfterAll(Stack(base, []), ops + [Drop(0)]);
      && end.live == []
      && (end.slot == base <==> ContextAfter(base, ops, MadeBy(base, ops, 0)) == base)
  {
    assert (ops + [Drop(0)])[..|ops|] == ops;
    GuardHoldsItsContext(base, ops, 0);
  }

  /** First all the enters, then all the drops, in an order of their own. */
  predicate EntersThenDrops(base: Option<Handle>, enters: seq<Op>, drops: seq<Op>) {
    && (forall i :: 0 <= i < |enters| ==> enters[i].Enter? && base != Some(enters[i].h))
    && (forall i :: 0 <= i < |drops| ==> drops[i].Drop?)
  }

  lemma {:induction false} ContextsOfEnters(base: Option<Handle>, enters: seq<Op>, n: nat)
    requires n <= |enters| && Feasible(Stack(base, []), enters)
    requires forall i :: 0 <= i < |enters| ==> enters[i].Enter? && base != Some(enters[i].h)
    ensures ContextAfter(base, enters, n) == base <==> n == 0
  {
    if n > 0 {
      PrefixFeasible(Stack(base, []), enters, n);
      assert enters[..n][|enters[..n]| - 1] == enters[n - 1];
    }
  }

  /** Of blocks that are all entered before any guard is dropped, none of them entering the
      earlier context's own handle, the drops give that context back exactly if the guard
      dropped last is the one made first, whatever the order of the others. */
  lemma OutermostLastExactlyWhen(base: Option<Handle>, enters: seq<Op>, drops: seq<Op>)
    requires EntersThenDrops(base, enters, drops)
    requires Feasible(Stack(base, []), enters + drops) && Feasible(Stack(base, []), enters + drops + [Drop(0)])
    requires |AfterAll(Stack(base, []), enters + drops).live| == 1
    ensures
      AfterAll(Stack(base, []), enters + drops + [Drop(0)]).slot == base <==> MadeBy(base, enters + drops, 0) == 0
  {
    var ops := enters + drops;
    var n := MadeBy(base, ops, 0);
    GivesBackExactlyWhen(base, ops);
    assert n < |enters|;
    PrefixFeasible(Stack(base, []), ops, |enters|);
    assert ops[..|enters|] == enters && ops[..n] == enters[..n];
    ContextsOfEnters(base, enters, n);
  }

  // ---- guards dropped innermost first ----

  /** The handle of the innermost live guard. */
  function Innermost(base: Option<Handle>, live: seq<Guard>): Option<Handle> {
    if live == [] then base else Some(live[|live| - 1].h)
  }

  predicate Consistent(base: Option<Handle>, s: Stack) {
    && s.slot == Innermost(base, s.live)
    && forall i :: 0 <= i < |s.live| ==> s.live[i].previous == Innermost(base, s.live[..i])
  }

  lemma StepConsistent(base: Option<Handle>, s: Stack, op: Op)
    requires Consistent(base, s) && Possible(s, op) && (op.Drop? ==> op.i == |s.live| - 1)
    ensures Consistent(base, After(s, op))
  {
    var t := After(s, op);
    forall i | 0 <= i < |t.live|
      ensures t.live[i].previous == Innermost(base, t.live[..i])
    {
      if i < |s.live| {
        assert t.live[..i] == s.live[..i];
      } else {
        assert t.live[..i] == s.live;
      }
    }
    if op.Drop? {
      assert t.live == s.live[..op.i];
    }
  }

  /** Every drop is of the innermost live guard. */
  predicate Nested(s: Stack, ops: seq<Op>)
    requires Feasible(s, ops)
    decreases |ops|
  {
    ops != [] ==>
      var init, last := ops[..|ops| - 1], ops[|ops| - 1];
      Nested(s, init) && (last.Drop? ==> last.i == |AfterAll(s, init).live| - 1)
  }

  /** Dropped innermost first, guards keep the innermost live one current throughout, and
      give back the earlier context when the last is gone. */
  lemma {:induction false} NestedRestores(base: Option<Handle>, s: Stack, ops: seq<Op>)
    requires Consistent(base, s) && Feasible(s, ops) && Nested(s, ops)
    ensures Consistent(base, AfterAll(s, ops))
    ensures AfterAll(s, ops).live == [] ==> AfterAll(s, ops).slot == base
    decreases |ops|
  {
    if ops != [] {
      var init, last := ops[..|ops| - 1], ops[|ops| - 1];
      NestedRestores(base, s, init);
      StepConsistent(base, AfterAll(s, init), last);
    }
  }

  /** Dropped outermost first, two guards leave the outer handle current for good. */
  lemma OuterFirstLeaks(base: Option<Handle>, outer: Handle, inner: Handle)
    requires base != Some(outer) && outer != inner
    ensures var s := After(After(Stack(base, []), Enter(outer)), Enter(inner));
            var t := After(s, Drop(0));
            && t.slot == base && t.live == [Guard(inner, Some(outer))]
            && After(t, Drop(0)) == Stack(Some(outer), [])
  {
  }

  /** The guard objects alive, and what each holds. */
  predicate Mirrors(live: seq<ContextGuard>, s: Stack)
    reads live
  {
    && |live| == |s.live|
    && (forall i :: 0 <= i < |live| ==> live[i].previous == s.live[i].previous)
    && (forall i, j :: 0 <= i < j < |live| ==> live[i] != live[j])
  }

  method UseGuard(context: ThreadContext, live: seq<ContextGuard>, op: Op, ghost s: Stack)
    returns (now: seq<ContextGuard>)
    requires Mirrors(live, s) && s.slot == context.slot && Possible(s, op)
    modifies context`slot, live
    ensures Mirrors(now, After(s, op)) && context.slot == After(s, op).slot
    ensures forall i :: 0 <= i < |now| ==> now[i] in live || fresh(now[i])
  {
    match op {
      case Enter(h) =>
        var guard := context.Enter(h);
        now := live + [guard];
      case Drop(i) =>
        context.DropGuard(live[i]);
        now := live[..i] + live[i + 1..];
    }
  }

  /** The guards as objects: the slot goes where the stack of guards says, in whatever order
      they are dropped. */
  method UseGuards(context: ThreadContext, ops: seq<Op>)
    requires Feasible(Stack(context.slot, []), ops)
    modifies context`slot
    ensures context.slot == AfterAll(Stack(old(context.slot), []), ops).slot
  {
    var live: seq<ContextGuard> := [];
    ghost var s := Stack(context.slot, []);
    for n := 0 to |ops|
      invariant Feasible(Stack(old(context.slot), []), ops[..n])
      invariant s == AfterAll(Stack(old(context.slot), []), ops[..n])
      invariant Mirrors(live, s) && s.slot == context.slot && forall i :: 0 <= i < |live| ==> fresh(live[i])
    {
      PrefixFeasible(Stack(old(context.slot), []), ops, n + 1);
      assert ops[..n + 1][..n] == ops[..n];
      live := UseGuard(context, live, ops[n], s);
      s := After(s, ops[n]);
    }
    assert ops[..|ops|] == ops;
  }
}
