/** Why `pop().unwrap()` never fails and the queue pointer is always live. */
module PoolTheorems {
  import opened Options
  import opened PoolModel

  /** Threads between push and submit on a lane. */
  function Between(s: Pool, p: Priority): set<int> {
    set t | t in s.pushers && s.pushers[t].lane == p
  }

  /** Callbacks started on a lane that have not popped yet. */
  function Unpopped(s: Pool, p: Priority): set<int> {
    set c | c in s.callbacks && s.callbacks[c] == Started(p)
  }

  function RunningSet(s: Pool): set<int> {
    set c | c in s.callbacks && s.callbacks[c].Running?
  }

  /** Queue length is what is still to be popped. */
  predicate Counted(s: Pool, p: Priority) {
    |On(s, p).queue| == On(s, p).submitted + |Between(s, p)| + |Unpopped(s, p)|
  }

  function Queued(s: Pool): nat {
    |s.high.queue| + |s.normal.queue| + |s.low.queue|
  }

  /** Every handle, every queue entry and every running callback owns one clone of the Arc. */
  predicate Owned(s: Pool) {
    && s.refs == |s.handles| + Queued(s) + |RunningSet(s)|
    && (s.dropped <==> s.refs == 0)
  }

  predicate Borrows(s: Pool) {
    forall t :: t in s.pushers ==> s.pushers[t].handle in s.handles
  }

  predicate Healthy(s: Pool) {
    forall c :: c in s.callbacks ==> s.callbacks[c].Started? || s.callbacks[c].Running?
  }

  /** First in, first out, and each entry's handle has the lane's priority. */
  predicate InLane(l: Lane, p: Priority) {
    && l.pushed == l.popped + l.queue
    && |l.runs| == |l.popped|
    && forall i :: 0 <= i < |l.pushed| ==> l.pushed[i].handle.priority == p
  }

  predicate Holds(s: Pool, c: int, p: Priority, i: nat) {
    c in s.callbacks && s.callbacks[c] == Running(p, i)
  }

  /** A popped runnable is being run by one callback and has not been run, or has been run
      once and is held by none. */
  ghost predicate RunOnce(s: Pool, p: Priority) {
    && (forall c, d, i: nat :: Holds(s, c, p, i) && Holds(s, d, p, i) ==> c == d)
    && (forall c, i: nat :: Holds(s, c, p, i) ==> i < |On(s, p).runs| && On(s, p).runs[i] == 0)
    && (forall i: nat :: i < |On(s, p).runs| && On(s, p).runs[i] != 1 ==> exists c :: Holds(s, c, p, i))
  }

  ghost predicate LaneOk(s: Pool, p: Priority) {
    Counted(s, p) && InLane(On(s, p), p) && RunOnce(s, p)
  }

  predicate Upkeep(s: Pool) {
    Owned(s) && Borrows(s) && Healthy(s)
  }

  ghost predicate Inv(s: Pool) {
    Upkeep(s) && forall p :: LaneOk(s, p)
  }

  /** A step that leaves a lane, its pushers and its callbacks alone. */
  predicate SameOn(s: Pool, t: Pool, p: Priority) {
    On(t, p) == On(s, p) && Between(t, p) == Between(s, p) && Unpopped(t, p) == Unpopped(s, p)
  }

  ghost predicate SameHolders(s: Pool, t: Pool, p: Priority) {
    forall c, i: nat :: Holds(t, c, p, i) <==> Holds(s, c, p, i)
  }

  lemma LaneSame(s: Pool, t: Pool, p: Priority)
    requires LaneOk(s, p) && SameOn(s, t, p) && SameHolders(s, t, p)
    ensures LaneOk(t, p)
  {
  }

  lemma LanesSame(s: Pool, t: Pool)
    requires forall p :: LaneOk(s, p)
    requires t.callbacks == s.callbacks && t.pushers == s.pushers
    requires t.high == s.high && t.normal == s.normal && t.low == s.low
    ensures forall p :: LaneOk(t, p)
  {
    forall p
      ensures LaneOk(t, p)
    {
      assert LaneOk(s, p);
      assert SameOn(s, t, p);
      assert SameHolders(s, t, p);
      LaneSame(s, t, p);
    }
  }

  lemma OneMore(handles: map<int, Handle>, h: int, handle: Handle)
    requires h !in handles
    ensures |handles[h := handle]| == |handles| + 1
  {
    assert handles[h := handle].Keys == handles.Keys + {h};
  }

  lemma MoreOwned(s: Pool, h: int, handle: Handle)
    requires Owned(s) && h !in s.handles && s.refs > 0
    ensures Owned(s.(handles := s.handles[h := handle], refs := s.refs + 1))
  {
    OneMore(s.handles, h, handle);
    assert RunningSet(s.(handles := s.handles[h := handle], refs := s.refs + 1)) == RunningSet(s);
  }

  /** One more handle, made while there is another owner. */
  lemma MoreHandles(s: Pool, h: int, handle: Handle)
    requires Upkeep(s) && h !in s.handles && s.refs > 0
    ensures Upkeep(s.(handles := s.handles[h := handle], refs := s.refs + 1))
  {
    MoreOwned(s, h, handle);
  }

  lemma CloneStep(s: Pool, a: Action)
    requires Inv(s) && Enabled(s, a) && (a.Clone? || a.CloneCurrent?)
    ensures Inv(Next(s, a))
  {
    var t := Next(s, a);
    assert a.CloneCurrent? ==> a.c in RunningSet(s);
    assert a.Clone? ==> a.h in s.handles.Keys;
    MoreHandles(s, a.as_, t.handles[a.as_]);
    LanesSame(s, t);
  }

  lemma SetPriorityStep(s: Pool, a: Action)
    requires Inv(s) && Enabled(s, a) && a.SetPriority?
    ensures Inv(Next(s, a))
  {
    var t := Next(s, a);
    LanesSame(s, t);
    assert RunningSet(t) == RunningSet(s);
    assert t.handles.Keys == s.handles.Keys;
  }

  lemma DropHandleStep(s: Pool, h: int)
    requires Inv(s) && Enabled(s, DropHandle(h))
    ensures Inv(Next(s, DropHandle(h)))
  {
    var t := Next(s, DropHandle(h));
    LanesSame(s, t);
    assert RunningSet(t) == RunningSet(s);
    assert t.handles.Keys == s.handles.Keys - {h};
    assert forall th :: th in s.pushers ==> s.pushers[th].handle != h;
  }

  lemma RunOnceSame(s: Pool, t: Pool, p: Priority)
    requires RunOnce(s, p) && On(t, p).runs == On(s, p).runs && SameHolders(s, t, p)
    ensures RunOnce(t, p)
  {
  }

  lemma PushInLane(l: Lane, p: Priority, e: Entry)
    requires InLane(l, p) && e.handle.priority == p
    ensures InLane(l.(queue := l.queue + [e], pushed := l.pushed + [e]), p)
  {
  }

  lemma PushUpkeep(s: Pool, th: int, h: int)
    requires Upkeep(s) && Enabled(s, Push(th, h))
    ensures Upkeep(Next(s, Push(th, h)))
  {
    assert RunningSet(Next(s, Push(th, h))) == RunningSet(s);
  }

  /** What a push changes. */
  predicate Pushed(s: Pool, t: Pool, th: int, h: int, p: Priority)
    requires h in s.handles
  {
    var e := Entry(s.tasks, s.handles[h]);
    && t.callbacks == s.callbacks && t.pushers == s.pushers[th := Pusher(h, s.handles[h].priority)]
    && On(t, p) == if p == s.handles[h].priority
                   then On(s, p).(queue := On(s, p).queue + [e], pushed := On(s, p).pushed + [e])
                   else On(s, p)
  }

  lemma PushIsPushed(s: Pool, th: int, h: int, p: Priority)
    requires Enabled(s, Push(th, h))
    ensures Pushed(s, Next(s, Push(th, h)), th, h, p)
  {
  }

  lemma PushLane(s: Pool, t: Pool, th: int, h: int, p: Priority)
    requires LaneOk(s, p) && h in s.handles && th !in s.pushers && Pushed(s, t, th, h, p)
    ensures LaneOk(t, p)
  {
    PushCounted(s, t, th, h, p);
    if p == s.handles[h].priority {
      PushInLane(On(s, p), p, Entry(s.tasks, s.handles[h]));
    }
    assert SameHolders(s, t, p);
    RunOnceSame(s, t, p);
  }

  lemma PushCounted(s: Pool, t: Pool, th: int, h: int, p: Priority)
    requires Counted(s, p) && h in s.handles && th !in s.pushers && Pushed(s, t, th, h, p)
    ensures Counted(t, p)
  {
    assert Unpopped(t, p) == Unpopped(s, p);
    PushBetween(s, t, th, h, p);
  }

  lemma PushBetween(s: Pool, t: Pool, th: int, h: int, p: Priority)
    requires h in s.handles && th !in s.pushers && t.pushers == s.pushers[th := Pusher(h, s.handles[h].priority)]
    ensures Between(t, p) == Between(s, p) + if p == s.handles[h].priority then {th} else {}
    ensures th !in Between(s, p)
  {
  }

  lemma SubmitUpkeep(s: Pool, th: int)
    requires Upkeep(s) && Enabled(s, Submit(th))
    ensures Upkeep(Next(s, Submit(th)))
  {
    assert RunningSet(Next(s, Submit(th))) == RunningSet(s);
  }

  /** What a submit changes. */
  predicate Submitted(s: Pool, t: Pool, th: int, p: Priority)
    requires th in s.pushers
  {
    && t.callbacks == s.callbacks && t.pushers == s.pushers - {th}
    && On(t, p) == if p == s.pushers[th].lane then On(s, p).(submitted := On(s, p).submitted + 1) else On(s, p)
  }

  lemma SubmitIsSubmitted(s: Pool, th: int, p: Priority)
    requires Enabled(s, Submit(th))
    ensures Submitted(s, Next(s, Submit(th)), th, p)
  {
  }

  lemma SubmitLane(s: Pool, t: Pool, th: int, p: Priority)
    requires LaneOk(s, p) && th in s.pushers && Submitted(s, t, th, p)
    ensures LaneOk(t, p)
  {
    assert Unpopped(t, p) == Unpopped(s, p);
    assert SameHolders(s, t, p);
    RunOnceSame(s, t, p);
    if p == s.pushers[th].lane {
      assert Between(t, p) == Between(s, p) - {th} && th in Between(s, p);
    } else {
      assert Between(t, p) == Between(s, p);
    }
  }

  lemma StartUpkeep(s: Pool, c: int, q: Priority)
    requires Upkeep(s) && Enabled(s, Start(c, q))
    ensures Upkeep(Next(s, Start(c, q)))
  {
    assert RunningSet(Next(s, Start(c, q))) == RunningSet(s);
  }

  lemma StartUnpopped(s: Pool, t: Pool, c: int, p: Priority)
    requires c !in s.callbacks && t.pushers == s.pushers && t.callbacks == s.callbacks[c := Started(p)]
    ensures Between(t, p) == Between(s, p)
    ensures Unpopped(t, p) == Unpopped(s, p) + {c} && c !in Unpopped(s, p)
  {
  }

  lemma StartCounted(s: Pool, c: int, p: Priority)
    requires Counted(s, p) && Enabled(s, Start(c, p))
    ensures Counted(Next(s, Start(c, p)), p)
  {
    StartUnpopped(s, Next(s, Start(c, p)), c, p);
  }

  lemma StartLane(s: Pool, c: int, q: Priority, p: Priority)
    requires LaneOk(s, p) && Enabled(s, Start(c, q))
    ensures LaneOk(Next(s, Start(c, q)), p)
  {
    var t := Next(s, Start(c, q));
    assert SameHolders(s, t, p);
    if p == q {
      StartCounted(s, c, p);
      RunOnceSame(s, t, p);
    } else {
      assert Between(t, p) == Between(s, p);
      assert Unpopped(t, p) == Unpopped(s, p);
      LaneSame(s, t, p);
    }
  }

  /** A callback about to pop has something to pop, and a pool to pop it from. */
  lemma PopIsSafe(s: Pool, c: int)
    requires Inv(s) && c in s.callbacks && s.callbacks[c].Started?
    ensures On(s, s.callbacks[c].lane).queue != [] && s.refs > 0 && !s.dropped
  {
    var p := s.callbacks[c].lane;
    assert c in Unpopped(s, p);
    assert LaneOk(s, p);
  }

  predicate CanPop(s: Pool, c: int) {
    c in s.callbacks && s.callbacks[c].Started? && On(s, s.callbacks[c].lane).queue != [] && !s.dropped
  }

  lemma PopUpkeep(s: Pool, c: int)
    requires Upkeep(s) && CanPop(s, c)
    ensures Upkeep(PopNext(s, c))
  {
    var t := PopNext(s, c);
    PopMoves(s, c);
    assert t.pushers == s.pushers && t.handles == s.handles && t.refs == s.refs && t.dropped == s.dropped;
  }

  lemma PopMoves(s: Pool, c: int)
    requires CanPop(s, c)
    ensures var t := PopNext(s, c);
            && RunningSet(t) == RunningSet(s) + {c} && c !in RunningSet(s)
            && Queued(t) == Queued(s) - 1
  {
  }

  lemma PopOwnLane(s: Pool, c: int, p: Priority)
    requires LaneOk(s, p) && CanPop(s, c) && p == s.callbacks[c].lane
    ensures LaneOk(PopNext(s, c), p)
  {
    var t := PopNext(s, c);
    var n: nat := |On(s, p).popped|;
    assert Between(t, p) == Between(s, p);
    assert Unpopped(t, p) == Unpopped(s, p) - {c} && c in Unpopped(s, p);
    assert forall d, i: nat :: Holds(t, d, p, i) <==> Holds(s, d, p, i) || (d == c && i == n);
    assert On(t, p).popped + On(t, p).queue == On(s, p).popped + On(s, p).queue;
    PopRunOnce(s, c, p, t);
  }

  lemma PopRunOnce(s: Pool, c: int, p: Priority, t: Pool)
    requires RunOnce(s, p) && On(t, p).runs == On(s, p).runs + [0]
    requires forall d, i: nat :: Holds(t, d, p, i) <==> Holds(s, d, p, i) || (d == c && i == |On(s, p).runs|)
    ensures RunOnce(t, p)
  {
    assert Holds(t, c, p, |On(s, p).runs|);
    forall i: nat | i < |On(t, p).runs| && On(t, p).runs[i] != 1
      ensures exists d :: Holds(t, d, p, i)
    {
      if i < |On(s, p).runs| {
        var d :| Holds(s, d, p, i);
        assert Holds(t, d, p, i);
      }
    }
  }

  lemma PopLane(s: Pool, c: int, p: Priority)
    requires LaneOk(s, p) && CanPop(s, c)
    ensures LaneOk(PopNext(s, c), p)
  {
    var t := PopNext(s, c);
    if p == s.callbacks[c].lane {
      PopOwnLane(s, c, p);
    } else {
      assert SameHolders(s, t, p);
      assert Between(t, p) == Between(s, p) && Unpopped(t, p) == Unpopped(s, p);
      LaneSame(s, t, p);
    }
  }

  lemma WithQueued(s: Pool, p: Priority, l: Lane)
    requires l.queue == On(s, p).queue
    ensures Queued(With(s, p, l)) == Queued(s)
  {
  }

  lemma AfterRunKeeps(s: Pool, c: int)
    requires Enabled(s, Finish(c))
    ensures
      var u := AfterRun(s, c);
      && u.handles == s.handles && u.pushers == s.pushers && u.refs == s.refs && u.dropped == s.dropped
      && u.callbacks == s.callbacks - {c} && Queued(u) == Queued(s)
  {
    var run := s.callbacks[c];
    var l := On(s, run.lane);
    WithQueued(s, run.lane, l.(runs := l.runs[run.i := l.runs[run.i] + 1]));
  }

  lemma FinishUpkeep(s: Pool, c: int)
    requires Upkeep(s) && Enabled(s, Finish(c))
    ensures Upkeep(Next(s, Finish(c)))
  {
    var u, t := AfterRun(s, c), Next(s, Finish(c));
    AfterRunKeeps(s, c);
    assert RunningSet(t) == RunningSet(s) - {c} && c in RunningSet(s);
    assert Queued(t) == Queued(u);
  }

  lemma FinishRunOnce(s: Pool, c: int, p: Priority, t: Pool)
    requires RunOnce(s, p) && c in s.callbacks && s.callbacks[c].Running? && s.callbacks[c].lane == p
    requires s.callbacks[c].i < |On(s, p).runs|
    requires On(t, p).runs == On(s, p).runs[s.callbacks[c].i := On(s, p).runs[s.callbacks[c].i] + 1]
    requires forall d, i: nat :: Holds(t, d, p, i) <==> Holds(s, d, p, i) && d != c
    ensures RunOnce(t, p)
  {
    assert Holds(s, c, p, s.callbacks[c].i);
    forall i: nat | i < |On(t, p).runs| && On(t, p).runs[i] != 1
      ensures exists d :: Holds(t, d, p, i)
    {
      var d :| Holds(s, d, p, i);
      assert Holds(t, d, p, i);
    }
  }

  lemma FinishOn(s: Pool, c: int, p: Priority)
    requires Enabled(s, Finish(c))
    ensures
      var run := s.callbacks[c];
      On(Next(s, Finish(c)), p) ==
        if p == run.lane then On(s, p).(runs := On(s, p).runs[run.i := On(s, p).runs[run.i] + 1]) else On(s, p)
  {
  }

  lemma FinishLane(s: Pool, c: int, p: Priority)
    requires LaneOk(s, p) && Enabled(s, Finish(c))
    ensures LaneOk(Next(s, Finish(c)), p)
  {
    var t := Next(s, Finish(c));
    FinishOn(s, c, p);
    AfterRunKeeps(s, c);
    assert t.callbacks == s.callbacks - {c} && t.pushers == s.pushers;
    assert Between(t, p) == Between(s, p) && Unpopped(t, p) == Unpopped(s, p);
    if p == s.callbacks[c].lane {
      assert forall d, i: nat :: Holds(t, d, p, i) <==> Holds(s, d, p, i) && d != c;
      FinishRunOnce(s, c, p, t);
    } else {
      assert SameHolders(s, t, p);
      LaneSame(s, t, p);
    }
  }

  lemma StepKeeps(s: Pool, a: Action)
    requires Inv(s) && Enabled(s, a)
    ensures Inv(Next(s, a))
  {
    match a
    case Push(th, h) =>
      PushUpkeep(s, th, h);
      forall p ensures LaneOk(Next(s, a), p) { PushIsPushed(s, th, h, p); PushLane(s, Next(s, a), th, h, p); }
    case Submit(th) =>
      SubmitUpkeep(s, th);
      forall p ensures LaneOk(Next(s, a), p) { SubmitIsSubmitted(s, th, p); SubmitLane(s, Next(s, a), th, p); }
    case Start(c, q) =>
      StartUpkeep(s, c, q);
      forall p ensures LaneOk(Next(s, a), p) { StartLane(s, c, q, p); }
    case Pop(c) =>
      PopIsSafe(s, c);
      PopUpkeep(s, c);
      forall p ensures LaneOk(Next(s, a), p) { PopLane(s, c, p); }
    case Finish(c) =>
      FinishUpkeep(s, c);
      forall p ensures LaneOk(Next(s, a), p) { FinishLane(s, c, p); }
    case Clone(_, _) => CloneStep(s, a);
    case CloneCurrent(_, _) => CloneStep(s, a);
    case SetPriority(_, _) => SetPriorityStep(s, a);
    case DropHandle(h) => DropHandleStep(s, h);
  }

  lemma {:induction false} InvariantHolds(run: seq<Action>)
    requires IsRun(INIT, run)
    ensures Inv(Exec(INIT, run))
  {
    if run == [] {
      assert INIT.handles.Keys == {0};
      assert RunningSet(INIT) == {};
      forall p
        ensures LaneOk(INIT, p)
      {
        assert Between(INIT, p) == {} && Unpopped(INIT, p) == {};
      }
    } else {
      var before := run[..|run| - 1];
      InvariantHolds(before);
      StepKeeps(Exec(INIT, before), run[|run| - 1]);
    }
  }

  /** For any number of pushers and callbacks, in any order: the pop's queue is not empty and
      its pool is alive, no callback has ever panicked on `unwrap` or followed a dead pointer. */
  lemma PopNeverFails(run: seq<Action>, c: int)
    requires IsRun(INIT, run) && c in Exec(INIT, run).callbacks
    ensures
      var s := Exec(INIT, run);
      && !s.callbacks[c].Panicked? && !s.callbacks[c].Dangling?
      && (s.callbacks[c].Started? ==> On(s, s.callbacks[c].lane).queue != [] && s.refs > 0 && !s.dropped)
  {
    InvariantHolds(run);
    if Exec(INIT, run).callbacks[c].Started? {
      PopIsSafe(Exec(INIT, run), c);
    }
  }

  /** A lane is empty exactly when nothing is submitted, nobody is between push and submit
      and no started callback has yet to pop. */
  lemma EmptyExactlyWhen(run: seq<Action>, p: Priority)
    requires IsRun(INIT, run)
    ensures
      var s := Exec(INIT, run);
      On(s, p).queue == [] <==> On(s, p).submitted == 0 && Between(s, p) == {} && Unpopped(s, p) == {}
  {
    InvariantHolds(run);
    assert LaneOk(Exec(INIT, run), p);
  }

  lemma NobodyLeft(s: Pool)
    requires Inv(s) && s.dropped
    ensures s.handles == map[] && s.pushers == map[] && RunningSet(s) == {} && s.callbacks == map[]
    ensures forall p :: On(s, p).queue == [] && On(s, p).submitted == 0
  {
    assert s.handles.Keys == {};
    forall t
      ensures t !in s.pushers
    {
    }
    assert s.pushers.Keys == {};
    forall p
      ensures On(s, p).queue == [] && On(s, p).submitted == 0 && Unpopped(s, p) == {}
    {
      assert LaneOk(s, p);
    }
    forall c
      ensures c !in s.callbacks
    {
      assert c !in RunningSet(s) && c !in Unpopped(s, High) && c !in Unpopped(s, Normal) && c !in Unpopped(s, Low);
    }
    assert s.callbacks.Keys == {};
  }

  /** When the pool is dropped all three queues are empty and nothing that could touch them
      is left: no submission, no callback, no thread in `push_task`, no handle. */
  lemma DropFindsNobody(run: seq<Action>)
    requires IsRun(INIT, run) && Exec(INIT, run).dropped
    ensures
      var s := Exec(INIT, run);
      && s.handles == map[] && s.pushers == map[] && s.callbacks == map[]
      && forall p :: On(s, p).queue == [] && On(s, p).submitted == 0
  {
    InvariantHolds(run);
    NobodyLeft(Exec(INIT, run));
  }

  /** Pops of a lane follow its pushes, and whatever priorities handles took in between,
      each entry carries a handle of the lane's own. */
  lemma FirstInFirstOut(run: seq<Action>, p: Priority)
    requires IsRun(INIT, run)
    ensures
      var l := On(Exec(INIT, run), p);
      && l.popped <= l.pushed && l.queue == l.pushed[|l.popped|..]
      && forall e :: e in l.queue ==> e.handle.priority == p
  {
    InvariantHolds(run);
    var l := On(Exec(INIT, run), p);
    assert LaneOk(Exec(INIT, run), p);
  }

  /** Once nothing is under way, each runnable pushed has been run exactly once. */
  lemma EachRunsOnce(run: seq<Action>, p: Priority)
    requires IsRun(INIT, run)
    requires
      var s := Exec(INIT, run);
      s.callbacks == map[] && s.pushers == map[] && On(s, p).submitted == 0
    ensures
      var l := On(Exec(INIT, run), p);
      l.popped == l.pushed && |l.runs| == |l.pushed| && forall i :: 0 <= i < |l.runs| ==> l.runs[i] == 1
  {
    InvariantHolds(run);
    var s := Exec(INIT, run);
    EmptyExactlyWhen(run, p);
    assert Between(s, p) == {} && Unpopped(s, p) == {};
    assert LaneOk(s, p);
  }

  /** And at any time none has been run twice. */
  lemma NoneRunsTwice(run: seq<Action>, p: Priority, i: nat)
    requires IsRun(INIT, run) && i < |On(Exec(INIT, run), p).runs|
    ensures On(Exec(INIT, run), p).runs[i] <= 1
  {
    InvariantHolds(run);
    assert LaneOk(Exec(INIT, run), p);
  }

  // ---- Which lane, and which instance ---------------------------------------------------

  /** What a push through a handle of priority `p` does to the lanes. */
  predicate GoesTo(s: Pool, t: Pool, p: Priority, e: Entry) {
    && On(t, p).queue == On(s, p).queue + [e] && On(t, p).pushed == On(s, p).pushed + [e]
    && forall q :: q != p ==> On(t, q) == On(s, q)
  }

  /** After `set_priority` a push goes to the new priority's lane, with the handle as set; the
      callback instance it holds is unchanged, and no other handle is. */
  lemma SetPriorityDecidesLane(s: Pool, h: int, p: Priority, t: int)
    requires Enabled(s, SetPriority(h, p)) && t !in s.pushers
    ensures
      var u := Next(s, SetPriority(h, p));
      && GoesTo(s, Next(u, Push(t, h)), p, Entry(s.tasks, Handle(p, s.handles[h].instance)))
      && forall g :: g in s.handles && g != h ==> g in u.handles && u.handles[g] == s.handles[g]
  {
    var u := Next(s, SetPriority(h, p));
    assert forall q :: On(u, q) == On(s, q);
  }

  /** A clone pushes where the handle it was cloned from does. */
  lemma ClonePushesAlike(s: Pool, h: int, h': int, t: int)
    requires Enabled(s, Clone(h, h')) && t !in s.pushers
    ensures
      var u := Next(s, Clone(h, h'));
      GoesTo(s, Next(u, Push(t, h')), s.handles[h].priority, Entry(s.tasks, s.handles[h]))
  {
    var u := Next(s, Clone(h, h'));
    assert forall q :: On(u, q) == On(s, q);
  }

  /** A handle that a running task gets as the current one has the priority of the lane the task
      was pushed on and the instance of the callback running it, whatever instance it was
      queued with and whatever priorities the pushing handle has taken since. */
  lemma CurrentCarriesInstance(run: seq<Action>, c: int, h': int)
    requires IsRun(INIT, run) && Enabled(Exec(INIT, run), CloneCurrent(c, h'))
    ensures
      var s := Exec(INIT, run);
      Next(s, CloneCurrent(c, h')).handles[h'] == Handle(s.callbacks[c].lane, Some(c))
  {
    InvariantHolds(run);
    var s := Exec(INIT, run);
    var l := On(s, s.callbacks[c].lane);
    assert LaneOk(s, s.callbacks[c].lane);
    assert l.pushed[s.callbacks[c].i] == l.popped[s.callbacks[c].i];
  }
}
