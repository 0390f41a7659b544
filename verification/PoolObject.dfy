/** `TaskQueue`, `push_task` and the work callback as the objects and methods of
    `src/threadpool.rs` and `src/task/spawn.rs`. Other threads run where `Interfere` is
    called; `trace` records a run of the transition system that leads to this state. */
module PoolObject {
  import opened Options
  import opened PoolModel
  import opened PoolTheorems

  class TaskQueue {
    var queue: seq<Entry>
    var submitted: nat
    var pushed: seq<Entry>
    var popped: seq<Entry>
    var runs: seq<nat>

    function View(): Lane
      reads this
    {
      Lane(queue, submitted, pushed, popped, runs)
    }

    constructor ()
      ensures View() == EMPTY
    {
      queue, submitted, pushed, popped, runs := [], 0, [], [], [];
    }

    method Push(e: Entry)
      modifies this
      ensures View() == old(View()).(queue := old(queue) + [e], pushed := old(pushed) + [e])
    {
      queue := queue + [e];
      pushed := pushed + [e];
    }

    /** What a submitted callback pops, if there is anything. */
    method Pop() returns (e: Option<Entry>)
      modifies this
      ensures old(queue) == [] ==> e == None && View() == old(View())
      ensures old(queue) != [] ==>
                && e == Some(old(queue)[0])
                && View() == old(View()).(queue := old(queue)[1..],
                                           popped := old(popped) + [old(queue)[0]], runs := old(runs) + [0])
    {
      if queue == [] {
        e := None;
      } else {
        e := Some(queue[0]);
        popped, runs, queue := popped + [queue[0]], runs + [0], queue[1..];
      }
    }

    method Restore(l: Lane)
      modifies this
      ensures View() == l
    {
      queue, submitted, pushed, popped, runs := l.queue, l.submitted, l.pushed, l.popped, l.runs;
    }
  }

  datatype Thread = PusherOf(t: int) | CallbackOf(c: int)

  predicate ByThread(a: Action, me: Thread) {
    match a
    case Push(t, _) => me == PusherOf(t)
    case Submit(t) => me == PusherOf(t)
    case Start(c, _) => me == CallbackOf(c)
    case Pop(c) => me == CallbackOf(c)
    case Finish(c) => me == CallbackOf(c)
    case CloneCurrent(c, _) => me == CallbackOf(c)
    case _ => false
  }

  /** What others cannot change behind a thread's back. */
  predicate Mine(me: Thread, s: Pool, t: Pool) {
    match me
    case PusherOf(th) => th in s.pushers ==> th in t.pushers && t.pushers[th] == s.pushers[th]
    case CallbackOf(c) => c in s.callbacks ==> c in t.callbacks && t.callbacks[c] == s.callbacks[c]
  }

  predicate LanesGrow(s: Pool, t: Pool) {
    forall p :: On(s, p).pushed <= On(t, p).pushed && On(s, p).popped <= On(t, p).popped
  }

  lemma OthersLeaveMine(me: Thread, s: Pool, a: Action)
    requires Enabled(s, a) && !ByThread(a, me)
    ensures Mine(me, s, Next(s, a))
  {
  }

  lemma LanesOnlyGrow(s: Pool, a: Action)
    requires Enabled(s, a)
    ensures LanesGrow(s, Next(s, a))
  {
    forall p
      ensures On(s, p).pushed <= On(Next(s, a), p).pushed && On(s, p).popped <= On(Next(s, a), p).popped
    {
      match a
      case Push(th, h) => PushIsPushed(s, th, h, p);
      case Submit(th) => SubmitIsSubmitted(s, th, p);
      case Finish(c) => FinishOn(s, c, p);
      case Start(_, q) => assert p == q || On(Next(s, a), p) == On(s, p);
      case Pop(c) => assert p == s.callbacks[c].lane || On(Next(s, a), p) == On(s, p);
      case Clone(_, _) =>
      case CloneCurrent(_, _) =>
      case SetPriority(_, _) =>
      case DropHandle(_) =>
    }
  }

  /** The `n`-th push on a lane. */
  predicate PushedAt(s: Pool, p: Priority, n: nat, e: Entry) {
    n < |On(s, p).pushed| && On(s, p).pushed[n] == e
  }

  /** The `i`-th pop on a lane. */
  predicate PoppedAt(s: Pool, p: Priority, i: nat, e: Entry) {
    i < |On(s, p).popped| && On(s, p).popped[i] == e
  }

  /** It has been run, once. */
  predicate RunAt(s: Pool, p: Priority, i: nat) {
    i < |On(s, p).runs| && On(s, p).runs[i] == 1
  }

  lemma PositionsKept(s: Pool, t: Pool, p: Priority, n: nat, e: Entry)
    requires LanesGrow(s, t)
    ensures PushedAt(s, p, n, e) ==> PushedAt(t, p, n, e)
    ensures PoppedAt(s, p, n, e) ==> PoppedAt(t, p, n, e)
  {
    assert On(s, p).pushed <= On(t, p).pushed && On(s, p).popped <= On(t, p).popped;
  }

  lemma PushGoesLast(s: Pool, t: int, h: int)
    requires Enabled(s, Push(t, h))
    ensures PushedAt(Next(s, Push(t, h)), s.handles[h].priority,
                     |On(s, s.handles[h].priority).pushed|, Entry(s.tasks, s.handles[h]))
  {
    PushIsPushed(s, t, h, s.handles[h].priority);
  }

  lemma PopGoesLast(s: Pool, c: int)
    requires CanPop(s, c)
    ensures PoppedAt(PopNext(s, c), s.callbacks[c].lane,
                     |On(s, s.callbacks[c].lane).popped|, On(s, s.callbacks[c].lane).queue[0])
  {
  }

  class HandleInner {
    const high: TaskQueue
    const normal: TaskQueue
    const low: TaskQueue
    var handles: map<int, Handle>
    var pushers: map<int, Pusher>
    var callbacks: map<int, Callback>
    var tasks: nat
    var refs: nat
    var dropped: bool
    ghost var trace: seq<Action>

    function Abs(): Pool
      reads this, high, normal, low
    {
      Pool(high.View(), normal.View(), low.View(), handles, pushers, callbacks, tasks, refs, dropped)
    }

    ghost predicate Valid()
      reads this, high, normal, low
    {
      && high != normal && normal != low && high != low
      && IsRun(INIT, trace) && Exec(INIT, trace) == Abs()
    }

    constructor ()
      ensures Valid() && Abs() == INIT && fresh(high) && fresh(normal) && fresh(low)
    {
      high := new TaskQueue();
      normal := new TaskQueue();
      low := new TaskQueue();
      handles, pushers, callbacks := INIT.handles, map[], map[];
      tasks, refs, dropped := 0, 1, false;
      trace := [];
    }

    function QueueOf(p: Priority): TaskQueue {
      match p
      case High => high
      case Normal => normal
      case Low => low
    }

    ghost method Note(a: Action)
      requires Valid() && Enabled(Abs(), a)
      modifies this`trace
      ensures trace == old(trace) + [a] && IsRun(INIT, trace) && Exec(INIT, trace) == Next(Abs(), a)
    {
      assert (trace + [a])[..|trace|] == trace;
      trace := trace + [a];
    }

    twostate predicate Did(a: Action)
      reads this, high, normal, low
    {
      Valid() && Enabled(old(Abs()), a) && Abs() == Next(old(Abs()), a) && trace == old(trace) + [a]
    }

    /** Somebody else's step. */
    method Other(a: Action)
      requires Valid() && Enabled(Abs(), a)
      modifies this, high, normal, low
      ensures Did(a)
    {
      var t := Next(Abs(), a);
      Note(a);
      high.Restore(t.high);
      normal.Restore(t.normal);
      low.Restore(t.low);
      handles, pushers, callbacks := t.handles, t.pushers, t.callbacks;
      tasks, refs, dropped := t.tasks, t.refs, t.dropped;
    }

    /** Others run `acts`; what they could not do is skipped. */
    method Interfere(acts: seq<Action>, me: Thread)
      requires Valid()
      modifies this, high, normal, low
      ensures Valid() && Mine(me, old(Abs()), Abs()) && LanesGrow(old(Abs()), Abs()) && old(trace) <= trace
    {
      for i := 0 to |acts|
        invariant Valid() && Mine(me, old(Abs()), Abs()) && LanesGrow(old(Abs()), Abs()) && old(trace) <= trace
      {
        if !ByThread(acts[i], me) && Enabled(Abs(), acts[i]) {
          OthersLeaveMine(me, Abs(), acts[i]);
          LanesOnlyGrow(Abs(), acts[i]);
          Other(acts[i]);
        }
      }
    }

    /** The queue push of `push_task`: a clone of the handle goes with the runnable. */
    method PushEntry(t: int, h: int)
      requires Valid() && t !in pushers && h in handles
      modifies this, high, normal, low
      ensures Did(Push(t, h))
    {
      Note(Push(t, h));
      var handle := handles[h];
      var e := Entry(tasks, handle);
      match handle.priority {
        case High => high.Push(e);
        case Normal => normal.Push(e);
        case Low => low.Push(e);
      }
      pushers := pushers[t := Pusher(h, handle.priority)];
      tasks, refs := tasks + 1, refs + 1;
    }

    /** SubmitThreadpoolWork on the queue's work object. */
    method SubmitWork(t: int)
      requires Valid() && t in pushers
      modifies this, high, normal, low
      ensures Did(Submit(t))
    {
      Note(Submit(t));
      var q := QueueOf(pushers[t].lane);
      q.submitted := q.submitted + 1;
      pushers := pushers - {t};
    }

    /** `Handle::set_priority`, through an exclusive borrow. */
    method ChangePriority(h: int, p: Priority)
      requires Valid() && h in handles && !Borrowed(Abs(), h)
      modifies this
      ensures Did(SetPriority(h, p)) && handles == old(handles)[h := Handle(p, old(handles[h]).instance)]
    {
      Note(SetPriority(h, p));
      handles := handles[h := handles[h].(priority := p)];
    }

    /** `Handle::push_task` by thread `t` through handle `h`. */
    method PushTask(t: int, h: int, env: seq<Action>)
      requires Valid() && t !in pushers && h in handles
      modifies this, high, normal, low
      ensures Valid() && t !in pushers && old(trace) + [Push(t, h)] <= trace && trace[|trace| - 1] == Submit(t)
      ensures PushedAt(Abs(), old(handles[h]).priority,
                        old(|On(Abs(), handles[h].priority).pushed|), old(Entry(tasks, handles[h])))
    {
      ghost var p, n, e := handles[h].priority, |On(Abs(), handles[h].priority).pushed|, Entry(tasks, handles[h]);
      PushGoesLast(Abs(), t, h);
      PushEntry(t, h);
      ghost var s := Abs();
      Interfere(env, PusherOf(t));
      PositionsKept(s, Abs(), p, n, e);
      s := Abs();
      LanesOnlyGrow(s, Submit(t));
      SubmitWork(t);
      PositionsKept(s, Abs(), p, n, e);
    }

    /** `queue.pop().unwrap()`: the unwrap cannot fail and the pool is alive. */
    method PopEntry(c: int) returns (e: Entry)
      requires Valid() && c in callbacks && callbacks[c].Started?
      modifies this, high, normal, low
      ensures old(CanPop(Abs(), c))
      ensures Did(Pop(c)) && old(On(Abs(), callbacks[c].lane).queue) != []
      ensures e == old(On(Abs(), callbacks[c].lane).queue)[0]
      ensures callbacks ==
              old(callbacks)[c := Running(old(callbacks[c].lane), |old(On(Abs(), callbacks[c].lane).popped)|)]
    {
      InvariantHolds(trace);
      PopIsSafe(Abs(), c);
      Note(Pop(c));
      var p := callbacks[c].lane;
      var q := QueueOf(p);
      var n := |q.popped|;
      var popped := q.Pop();
      e := popped.value;
      callbacks := callbacks[c := Running(p, n)];
    }

    /** The runnable has run, or panicked and been caught; the handle is dropped. */
    method FinishRun(c: int)
      requires Valid() && c in callbacks && callbacks[c].Running? && callbacks[c].i < |QueueOf(callbacks[c].lane).runs|
      modifies this, high, normal, low
      ensures Did(Finish(c))
    {
      Note(Finish(c));
      var q, i := QueueOf(callbacks[c].lane), callbacks[c].i;
      q.runs := q.runs[i := q.runs[i] + 1];
      callbacks := callbacks - {c};
      refs := if refs > 0 then refs - 1 else 0;
      dropped := dropped || refs == 0;
    }

    lemma RunningHasPopped(c: int)
      requires Valid() && c in callbacks && callbacks[c].Running?
      ensures callbacks[c].i < |QueueOf(callbacks[c].lane).runs| && QueueOf(callbacks[c].lane).runs[callbacks[c].i] == 0
    {
      InvariantHolds(trace);
      var run := callbacks[c];
      assert LaneOk(Abs(), run.lane);
      assert Holds(Abs(), c, run.lane, run.i);
    }

    /** The work callback `c`, once the pool has started it: it pops the oldest entry left on
        its lane, and when it returns that entry has been run once. */
    method RunCallback(c: int, env: seq<Action>) returns (e: Entry, ghost i: nat)
      requires Valid() && c in callbacks && callbacks[c].Started?
      modifies this, high, normal, low
      ensures Valid() && c !in callbacks && old(trace) + [Pop(c)] <= trace && trace[|trace| - 1] == Finish(c)
      ensures i == old(|On(Abs(), callbacks[c].lane).popped|) && PoppedAt(Abs(), old(callbacks[c].lane), i, e)
      ensures RunAt(Abs(), old(callbacks[c].lane), i)
    {
      ghost var p := callbacks[c].lane;
      i := |On(Abs(), p).popped|;
      ghost var s := Abs();
      e := PopEntry(c);
      PopGoesLast(s, c);
      s := Abs();
      Interfere(env, CallbackOf(c));
      PositionsKept(s, Abs(), p, i, e);
      RunningHasPopped(c);
      s := Abs();
      LanesOnlyGrow(s, Finish(c));
      FinishOn(s, c, p);
      FinishRun(c);
      PositionsKept(s, Abs(), p, i, e);
    }
  }
}
