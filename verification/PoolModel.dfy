/** Dispatch on the thread pool (`src/threadpool.rs`, `src/task/spawn.rs`) as a transition
    system over any number of pushing threads and work callbacks. */
module PoolModel {
  import opened Options

  datatype Priority = High | Normal | Low

  /** A `Handle`: the Arc is counted in `refs`; `instance` names the callback it was
      handed to, if any. */
  datatype Handle = Handle(priority: Priority, instance: Option<int>)

  /** What a queue holds: a runnable, by its number, and a clone of the pushing handle. */
  datatype Entry = Entry(task: nat, handle: Handle)

  /** One `TaskQueue`. `pushed`, `popped` and `runs` are history: all pushes, all pops, and
      how often each popped runnable has been run. */
  datatype Lane = Lane(
    queue: seq<Entry>,
    submitted: nat,          // callbacks submitted and not yet started
    pushed: seq<Entry>, popped: seq<Entry>, runs: seq<nat>)

  /** A thread inside `push_task`, after the push and before the submit. */
  datatype Pusher = Pusher(handle: int, lane: Priority)

  /** A work callback: started and about to pop, or holding the lane's `i`-th popped entry. */
  datatype Callback =
    | Started(lane: Priority)
    | Running(lane: Priority, i: nat)
    | Panicked                // popped an empty queue
    | Dangling                // followed the queue pointer after the pool was dropped

  datatype Pool = Pool(
    high: Lane, normal: Lane, low: Lane,
    handles: map<int, Handle>,       // handles that user code and task schedulers hold
    pushers: map<int, Pusher>,
    callbacks: map<int, Callback>,
    tasks: nat,                      // runnables scheduled so far
    refs: nat, dropped: bool)

  datatype Action =
    | Clone(h: int, as_: int)
    | CloneCurrent(c: int, as_: int)  // `Handle::current()` inside the callback c
    | SetPriority(h: int, p: Priority)
    | DropHandle(h: int)
    | Push(t: int, h: int)            // thread t pushes a runnable through handle h
    | Submit(t: int)
    | Start(c: int, p: Priority)      // the pool starts a submitted callback
    | Pop(c: int)
    | Finish(c: int)                  // the runnable has run; the popped handle is dropped

  const EMPTY: Lane := Lane([], 0, [], [], [])

  /** A pool just built: one handle, of normal priority. */
  const INIT: Pool :=
    Pool(EMPTY, EMPTY, EMPTY, map[0 := Handle(Normal, None)], map[], map[], 0, 1, false)

  function On(s: Pool, p: Priority): Lane {
    match p
    case High => s.high
    case Normal => s.normal
    case Low => s.low
  }

  function With(s: Pool, p: Priority, l: Lane): Pool {
    match p
    case High => s.(high := l)
    case Normal => s.(normal := l)
    case Low => s.(low := l)
  }

  /** `&mut self` on a handle needs that no thread is pushing through it. */
  predicate Borrowed(s: Pool, h: int) {
    exists t :: t in s.pushers && s.pushers[t].handle == h
  }

  predicate Enabled(s: Pool, a: Action) {
    match a
    case Clone(h, h') => h in s.handles && h' !in s.handles
    case CloneCurrent(c, h') =>
      c in s.callbacks && s.callbacks[c].Running? && s.callbacks[c].i < |On(s, s.callbacks[c].lane).popped|
      && h' !in s.handles
    case SetPriority(h, _) => h in s.handles && !Borrowed(s, h)
    case DropHandle(h) => h in s.handles && !Borrowed(s, h)
    case Push(t, h) => t !in s.pushers && h in s.handles
    case Submit(t) => t in s.pushers
    case Start(c, p) => c !in s.callbacks && On(s, p).submitted > 0
    case Pop(c) => c in s.callbacks && s.callbacks[c].Started?
    case Finish(c) =>
      c in s.callbacks && s.callbacks[c].Running? && s.callbacks[c].i < |On(s, s.callbacks[c].lane).runs|
  }

  /** Dropping one clone of the Arc; the last one drops the pool. */
  function DropRef(s: Pool): Pool {
    var refs := if s.refs > 0 then s.refs - 1 else 0;
    s.(refs := refs, dropped := s.dropped || refs == 0)
  }

  function PopNext(s: Pool, c: int): Pool
    requires c in s.callbacks && s.callbacks[c].Started?
  {
    var p := s.callbacks[c].lane;
    var l := On(s, p);
    if s.dropped then s.(callbacks := s.callbacks[c := Dangling])
    else if l.queue == [] then s.(callbacks := s.callbacks[c := Panicked])
    else
      With(s, p, l.(queue := l.queue[1..], popped := l.popped + [l.queue[0]], runs := l.runs + [0]))
        .(callbacks := s.callbacks[c := Running(p, |l.popped|)])
  }

  /** The runnable of callback `c` has run; its handle is about to be dropped. */
  function AfterRun(s: Pool, c: int): Pool
    requires Enabled(s, Finish(c))
  {
    var run := s.callbacks[c];
    var l := On(s, run.lane);
    With(s, run.lane, l.(runs := l.runs[run.i := l.runs[run.i] + 1])).(callbacks := s.callbacks - {c})
  }

  function Next(s: Pool, a: Action): Pool
    requires Enabled(s, a)
  {
    match a
    case Clone(h, h') => s.(handles := s.handles[h' := s.handles[h]], refs := s.refs + 1)
    case CloneCurrent(c, h') =>
      var run := s.callbacks[c];
      s.(handles := s.handles[h' := On(s, run.lane).popped[run.i].handle.(instance := Some(c))], refs := s.refs + 1)
    case SetPriority(h, p) => s.(handles := s.handles[h := s.handles[h].(priority := p)])
    case DropHandle(h) => DropRef(s.(handles := s.handles - {h}))
    case Push(t, h) =>
      var handle := s.handles[h];
      var p := handle.priority;
      var l := On(s, p);
      var e := Entry(s.tasks, handle);
      With(s, p, l.(queue := l.queue + [e], pushed := l.pushed + [e]))
        .(pushers := s.pushers[t := Pusher(h, p)], tasks := s.tasks + 1, refs := s.refs + 1)
    case Submit(t) =>
      var p := s.pushers[t].lane;
      var l := On(s, p);
      With(s, p, l.(submitted := l.submitted + 1)).(pushers := s.pushers - {t})
    case Start(c, p) =>
      var l := On(s, p);
      With(s, p, l.(submitted := l.submitted - 1)).(callbacks := s.callbacks[c := Started(p)])
    case Pop(c) => PopNext(s, c)
    case Finish(c) => DropRef(AfterRun(s, c))
  }

  ghost predicate IsRun(s: Pool, run: seq<Action>)
    decreases |run|, 0
  {
    |run| > 0 ==> IsRun(s, run[..|run| - 1]) && Enabled(Exec(s, run[..|run| - 1]), run[|run| - 1])
  }

  ghost function Exec(s: Pool, run: seq<Action>): Pool
    requires IsRun(s, run)
    decreases |run|, 1
  {
    if run == [] then s else Next(Exec(s, run[..|run| - 1]), run[|run| - 1])
  }
}
