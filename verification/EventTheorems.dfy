/** What an `IoEvent` guarantees: one callback per operation, a wait that is armed again,
    no lost wake-up, and a result cell nobody shares. */
module EventTheorems {
  import opened IoStates
  import opened IoResults
  import opened EventModel

  // ---- The wait object -------------------------------------------------------------

  /** Armed on an event that is not set, every pending operation so far answered. */
  predicate Resting(s: Event) {
    s.kernel == Kernel(false, true, false) && s.past.fires == s.past.ops
  }

  /** The wait for the current operation is still armed: it is under way, or its event set. */
  predicate Armed(s: Event) {
    && s.kernel.armed && s.kernel.inflight != s.kernel.signalled && s.past.fires + 1 == s.past.ops
  }

  predicate Fired(s: Event) {
    s.kernel == Kernel(true, false, false) && s.past.fires == s.past.ops && s.past.fires >= 1
  }

  function Stage(pc: CbPc): nat {
    match pc
    case Spin => 0
    case CasPending => 1
    case Set => 2
    case Publish => 3
    case Wake => 4
  }

  /** The callback of the last firing is between two stages. */
  predicate LastAt(s: Event, lo: nat, hi: nat) {
    s.past.fires in s.cbs && lo <= Stage(s.cbs[s.past.fires]) <= hi
  }

  predicate LastDone(s: Event) {
    s.past.fires in s.cbs ==> s.cbs[s.past.fires].Wake?
  }

  predicate Callbacks(s: Event) {
    forall k :: k in s.cbs ==> 1 <= k <= s.past.fires && (k < s.past.fires ==> s.cbs[k].Wake?)
  }

  predicate Polling(pc: Pc) {
    pc.Out? || pc.Finish? || pc.Schedule?
  }

  predicate Answered(s: Event) {
    s.cell == Written(s.past.fires, Ok(0))
  }

  predicate ByWord(s: Event) {
    match s.st
    case Idle => Polling(s.pc) && Resting(s) && LastDone(s)
    case Scheduling =>
      (match s.pc
       case Issue => Resting(s) && LastDone(s)
       case InlineIdle(ok) => !ok && Resting(s) && LastDone(s)
       case RegisterPending => (Armed(s) && LastDone(s)) || (Fired(s) && LastAt(s, 0, 0))
       case SetPending => (Armed(s) && LastDone(s)) || (Fired(s) && LastAt(s, 0, 0))
       case _ => false)
    case Pending =>
      && (Polling(s.pc) || s.pc.Register?)
      && ((Armed(s) && LastDone(s)) || (Fired(s) && LastAt(s, 0, 1)))
    case Callback =>
      && (Polling(s.pc) || s.pc.Register?)
      && Fired(s) && LastAt(s, 2, 3) && (LastAt(s, 3, 3) ==> Answered(s))
    case Ready =>
      && LastDone(s) && Answered(s)
      && (match s.pc
          case Rearm => s.kernel == Kernel(false, false, false) && s.past.fires == s.past.ops
          case Get => Resting(s)
          case StoreIdle(failed, got) => Resting(s) && !failed && got == s.cell
          case _ => Fired(s) && (Polling(s.pc) || s.pc.Register? || s.pc.Reset?))
    case _ => false
  }

  /** Once an operation has succeeded inline: the poll that issued it returns, and no callback
      that comes after can claim anything. */
  predicate AfterEnd(s: Event) {
    && (if s.pc.Out? then s.st.Idle? else s.pc == InlineIdle(true) && s.st.Scheduling?)
    && forall k :: k in s.cbs ==> !s.cbs[k].Set? && !s.cbs[k].Publish?
  }

  predicate Inv(s: Event) {
    if s.past.ended then AfterEnd(s) else Callbacks(s) && ByWord(s)
  }

  lemma EndedKeeps(s: Event, k: Key)
    requires s.past.ended && AfterEnd(s) && k in s.cbs
    ensures Inv(Next(s, CbStep(k)))
  {
  }

  lemma ClaimKeeps(s: Event, k: Key)
    requires !s.past.ended && Inv(s) && k in s.cbs && (s.cbs[k].Spin? || s.cbs[k].CasPending?)
    ensures Inv(Next(s, CbStep(k)))
  {
  }

  lemma ReportKeeps(s: Event, k: Key)
    requires !s.past.ended && Inv(s) && k in s.cbs && (s.cbs[k].Set? || s.cbs[k].Publish? || s.cbs[k].Wake?)
    ensures Inv(Next(s, CbStep(k)))
  {
  }

  lemma CallbackKeeps(s: Event, k: Key)
    requires Inv(s) && k in s.cbs
    ensures Inv(Next(s, CbStep(k)))
  {
    if s.past.ended {
      EndedKeeps(s, k);
    } else if s.cbs[k].Spin? || s.cbs[k].CasPending? {
      ClaimKeeps(s, k);
    } else {
      ReportKeeps(s, k);
    }
  }

  lemma DeliveryKeeps(s: Event)
    requires Inv(s) && (s.pc.Finish? || s.pc.Reset? || s.pc.Rearm? || s.pc.Get? || s.pc.StoreIdle?)
    ensures Inv(OwnerNext(s))
  {
  }

  lemma SchedulingKeeps(s: Event)
    requires Inv(s)
    requires s.pc.Schedule? || s.pc.InlineIdle? || s.pc.RegisterPending? || s.pc.SetPending? || s.pc.Register?
    ensures Inv(OwnerNext(s))
  {
  }

  lemma OwnerKeeps(s: Event)
    requires Inv(s) && Enabled(s, OwnerStep)
    ensures Inv(Next(s, OwnerStep))
  {
    if s.pc.Finish? || s.pc.Reset? || s.pc.Rearm? || s.pc.Get? || s.pc.StoreIdle? {
      DeliveryKeeps(s);
    } else {
      SchedulingKeeps(s);
    }
  }

  lemma StepKeeps(s: Event, a: Action)
    requires Inv(s) && Enabled(s, a) && Allowed(Proper, s, a)
    ensures Inv(Next(s, a))
  {
    match a
    case CbStep(k) => CallbackKeeps(s, k);
    case OwnerStep => OwnerKeeps(s);
    case FireWait =>
    case Complete =>
    case IssueAsync =>
    case IssueInline(_, _) =>
    case PollStart =>
  }

  lemma {:induction false} InvariantHolds(run: seq<Action>)
    requires IsRun(Proper, INIT, run)
    ensures Inv(Exec(Proper, INIT, run))
  {
    if run != [] {
      var before := run[..|run| - 1];
      InvariantHolds(before);
      StepKeeps(Exec(Proper, INIT, before), run[|run| - 1]);
    }
  }

  /** Until an operation succeeds inline: an idle event outside a poll is not set and its
      wait is armed, whatever has failed or completed before, and then exactly one callback
      has been run for each pending operation; never is more than one still to come. */
  lemma OneCallbackEach(run: seq<Action>)
    requires IsRun(Proper, INIT, run) && !Exec(Proper, INIT, run).past.ended
    ensures
      var s := Exec(Proper, INIT, run);
      && s.past.fires <= s.past.ops <= s.past.fires + 1
      && (s.st.Idle? && s.pc.Out? ==> s.kernel == Kernel(false, true, false) && s.past.fires == s.past.ops)
  {
    InvariantHolds(run);
  }

  /** A callback that tries its claim wins it exactly if no operation has succeeded inline,
      and then it is the current operation's. */
  lemma EveryClaimWins(run: seq<Action>, k: Key)
    requires IsRun(Proper, INIT, run)
    requires k in Exec(Proper, INIT, run).cbs && Exec(Proper, INIT, run).cbs[k].CasPending?
    ensures
      var s := Exec(Proper, INIT, run);
      && (s.st.Pending? <==> !s.past.ended)
      && (!s.past.ended ==> k == s.past.fires == s.past.ops)
  {
    InvariantHolds(run);
  }

  // ---- A pending operation becomes ready ------------------------------------------------

  predicate UnderWay(s: Event) {
    s.st.Pending? || s.st.Callback?
  }

  /** A step of the kernel, the wait or the callback for operation `op`. */
  predicate Progress(a: Action, op: Key) {
    a.Complete? || a.FireWait? || a == CbStep(op)
  }

  /** How many of those are still to come before Ready. */
  function Rank(s: Event): nat {
    if s.kernel.inflight then 6
    else if s.kernel.armed then 5
    else if s.past.fires in s.cbs && Stage(s.cbs[s.past.fires]) <= 3 then 4 - Stage(s.cbs[s.past.fires])
    else 0
  }

  /** While an operation is under way one of them can be taken. */
  lemma NeverStuck(run: seq<Action>)
    requires IsRun(Proper, INIT, run) && UnderWay(Exec(Proper, INIT, run))
    ensures var s := Exec(Proper, INIT, run);
            Rank(s) > 0 && exists a :: Progress(a, s.past.ops) && Enabled(s, a)
  {
    InvariantHolds(run);
    var s := Exec(Proper, INIT, run);
    assert if s.kernel.inflight then Progress(Complete, s.past.ops) && Enabled(s, Complete)
           else if s.kernel.armed then Progress(FireWait, s.past.ops) && Enabled(s, FireWait)
           else Progress(CbStep(s.past.ops), s.past.ops) && Enabled(s, CbStep(s.past.ops));
  }

  /** Each lowers the rank, and no other thread's step changes it. */
  lemma RankFalls(s: Event, a: Action)
    requires Inv(s) && UnderWay(s) && Enabled(s, a) && Allowed(Proper, s, a)
    ensures Next(s, a).st.Ready? || UnderWay(Next(s, a))
    ensures Next(s, a).past.ops == s.past.ops
    ensures UnderWay(Next(s, a)) ==>
              if Progress(a, s.past.ops) then Rank(Next(s, a)) < Rank(s) else Rank(Next(s, a)) == Rank(s)
  {
  }

  function Steps(run: seq<Action>, op: Key): nat {
    if run == [] then 0
    else Steps(run[..|run| - 1], op) + if Progress(run[|run| - 1], op) then 1 else 0
  }

  ghost predicate WasReady(s: Event, run: seq<Action>)
    requires IsRun(Proper, s, run)
    decreases |run|
  {
    Exec(Proper, s, run).st.Ready? || (run != [] && WasReady(s, run[..|run| - 1]))
  }

  lemma {:induction false} PendingAdvances(s: Event, run: seq<Action>)
    requires Inv(s) && UnderWay(s) && IsRun(Proper, s, run)
    ensures Inv(Exec(Proper, s, run))
    ensures
      var t := Exec(Proper, s, run);
      || WasReady(s, run)
      || (UnderWay(t) && t.past.ops == s.past.ops && Rank(t) + Steps(run, s.past.ops) <= Rank(s))
    decreases |run|
  {
    if run != [] {
      var before, a := run[..|run| - 1], run[|run| - 1];
      PendingAdvances(s, before);
      StepKeeps(Exec(Proper, s, before), a);
      if !WasReady(s, before) {
        RankFalls(Exec(Proper, s, before), a);
      }
    }
  }

  /** Once the kernel, the wait and the callback have together taken as many steps as the rank
      says, however polls and earlier callbacks' steps fall between, the event has been Ready. */
  lemma PendingEnds(s: Event, run: seq<Action>)
    requires Inv(s) && UnderWay(s) && IsRun(Proper, s, run)
    requires Steps(run, s.past.ops) >= Rank(s)
    ensures WasReady(s, run)
  {
    PendingAdvances(s, run);
    var t := Exec(Proper, s, run);
    if UnderWay(t) && !WasReady(s, run) {
      RankPositive(t);
    }
  }

  lemma RankPositive(s: Event)
    requires Inv(s) && UnderWay(s)
    ensures Rank(s) > 0
  {
  }

  // ---- What a poll answers, by the word it starts on -------------------------------------

  /** One poll from its start on, with whatever other threads do in between. */
  predicate OnePoll(run: seq<Action>) {
    run != [] && run[0].PollStart? && forall i :: 1 <= i < |run| ==> !run[i].PollStart?
  }

  /** A poll that started on Ready in `s0` has come to `s`. */
  predicate Reporting(s0: Event, s: Event) {
    if s.pc.Out? then s.past.polls == s0.past.polls + [Reports(false)]
    else
      && s.past.polls == s0.past.polls && s.st.Ready?
      && (s.pc.Finish? || s.pc.Reset? || s.pc.Rearm? || s.pc.Get? || s.pc == StoreIdle(false, s.cell))
  }

  /** A poll has started one operation, which is pending or has finished inline. */
  predicate Begun(s0: Event, s: Event) {
    if s.past.ops == s0.past.ops + 1 then s.past.polls == s0.past.polls + [Blocks]
    else
      && s.past.ops == s0.past.ops
      && (s.past.polls == s0.past.polls + [Inlines(true)] || s.past.polls == s0.past.polls + [Inlines(false)])
  }

  /** A poll that started on Idle in `s0` has come to `s`. */
  predicate Beginning(s0: Event, s: Event) {
    match s.pc
    case Finish => s.st.Idle? && s.past.ops == s0.past.ops && s.past.polls == s0.past.polls
    case Schedule => s.st.Idle? && s.past.ops == s0.past.ops && s.past.polls == s0.past.polls
    case Issue => s.past.ops == s0.past.ops && s.past.polls == s0.past.polls
    case InlineIdle(_) => s.past.ops == s0.past.ops && s.past.polls == s0.past.polls
    case RegisterPending => s.past.ops == s0.past.ops + 1 && s.past.polls == s0.past.polls
    case SetPending => s.past.ops == s0.past.ops + 1 && s.past.polls == s0.past.polls
    case Out => Begun(s0, s)
    case _ => false
  }

  predicate Answering(s0: Event, s: Event) {
    (s0.st.Ready? ==> Reporting(s0, s)) && (s0.st.Idle? ==> Beginning(s0, s))
  }

  lemma WordStays(s: Event, k: Key)
    requires Inv(s) && (s.st.Ready? || s.st.Idle?) && k in s.cbs
    ensures CbNext(s, k).st == s.st
  {
  }

  lemma ReportingStep(s0: Event, s: Event, a: Action)
    requires Inv(s) && Reporting(s0, s) && Enabled(s, a) && Allowed(Proper, s, a) && !a.PollStart?
    ensures Reporting(s0, Next(s, a))
  {
    if a.CbStep? && s.st.Ready? {
      WordStays(s, a.k);
    }
  }

  lemma BeginningStep(s0: Event, s: Event, a: Action)
    requires Inv(s) && Beginning(s0, s) && Enabled(s, a) && Allowed(Proper, s, a) && !a.PollStart?
    ensures Beginning(s0, Next(s, a))
  {
    if a.CbStep? && s.st.Idle? {
      WordStays(s, a.k);
    }
  }

  lemma AnsweringStep(s0: Event, s: Event, a: Action)
    requires Inv(s) && Answering(s0, s) && Enabled(s, a) && Allowed(Proper, s, a) && !a.PollStart?
    ensures Inv(Next(s, a)) && Answering(s0, Next(s, a))
  {
    StepKeeps(s, a);
    if s0.st.Ready? {
      ReportingStep(s0, s, a);
    } else if s0.st.Idle? {
      BeginningStep(s0, s, a);
    }
  }

  lemma {:induction false} PollUnderWay(s: Event, run: seq<Action>)
    requires Inv(s) && s.pc.Out? && IsRun(Proper, s, run) && OnePoll(run)
    ensures Inv(Exec(Proper, s, run)) && Answering(s, Exec(Proper, s, run))
    decreases |run|
  {
    var before, a := run[..|run| - 1], run[|run| - 1];
    if before == [] {
      StepKeeps(s, a);
    } else {
      PollUnderWay(s, before);
      AnsweringStep(s, Exec(Proper, s, before), a);
    }
  }

  /** On a proper event, a poll that finds the word Ready when it starts reports it, and one that
      finds it Idle starts an operation. */
  lemma PollAnswers(s: Event, run: seq<Action>)
    requires Inv(s) && s.pc.Out? && IsRun(Proper, s, run) && OnePoll(run) && Exec(Proper, s, run).pc.Out?
    ensures
      var t := Exec(Proper, s, run);
      && (s.st.Ready? ==> t.past.polls == s.past.polls + [Reports(false)])
      && (s.st.Idle? ==> Begun(s, t))
  {
    PollUnderWay(s, run);
  }

  // ---- When ResetEvent fails ---------------------------------------------------------

  /** The wait is not armed and no callback is left to claim anything. */
  predicate Silent(s: Event) {
    !s.kernel.armed && forall k :: k in s.cbs ==> s.cbs[k].Wake?
  }

  predicate Deaf(s: Event) {
    && Silent(s)
    && (s.st.Idle? || s.st.Scheduling? || s.st.Pending?)
    && !s.pc.Reset? && !s.pc.Rearm? && !s.pc.Get? && !s.pc.StoreIdle?
  }

  /** A poll whose ResetEvent has failed is about to store Idle. */
  predicate GivingUp(s: Event) {
    s.pc.StoreIdle? && s.pc.failed
  }

  lemma DeafStep(s: Event, a: Action)
    requires Deaf(s) && Enabled(s, a) && Allowed(Failing, s, a)
    ensures Deaf(Next(s, a))
  {
  }

  /** A deaf event stays so: no operation pending on it is ever reported ready. */
  lemma {:induction false} DeafForever(s: Event, run: seq<Action>)
    requires Deaf(s) && IsRun(Failing, s, run)
    ensures Deaf(Exec(Failing, s, run)) && !Exec(Failing, s, run).st.Ready?
  {
    if run != [] {
      var before := run[..|run| - 1];
      DeafForever(s, before);
      DeafStep(Exec(Failing, s, before), run[|run| - 1]);
    }
  }

  ghost predicate Failed(run: seq<Action>) {
    exists i :: 0 <= i < |run| && run[i].ResetFails?
  }

  ghost predicate FailingInv(s: Event, failed: bool) {
    if failed then Deaf(s) || (GivingUp(s) && s.st.Ready? && Silent(s)) else Inv(s) && !GivingUp(s)
  }

  lemma FailingStep(s: Event, failed: bool, a: Action)
    requires FailingInv(s, failed) && Enabled(s, a) && Allowed(Failing, s, a)
    ensures FailingInv(Next(s, a), failed || a.ResetFails?)
  {
    if !failed && !a.ResetFails? {
      StepKeeps(s, a);
    }
  }

  lemma {:induction false} FailingHolds(run: seq<Action>)
    requires IsRun(Failing, INIT, run)
    ensures FailingInv(Exec(Failing, INIT, run), Failed(run))
  {
    if run != [] {
      var before, a := run[..|run| - 1], run[|run| - 1];
      FailingHolds(before);
      FailingStep(Exec(Failing, INIT, before), Failed(before), a);
      assert Failed(run) <==> Failed(before) || a.ResetFails?;
    }
  }

  /** The exact condition, for every run that is proper but for ResetEvent and in which no poll
      is between a failed ResetEvent and its store of Idle: the event is deaf if ResetEvent has
      ever failed, whatever ran meanwhile, and until an operation succeeds inline only then;
      and without a failure it is as in proper runs. */
  lemma DeafExactlyWhen(run: seq<Action>)
    requires IsRun(Failing, INIT, run) && !GivingUp(Exec(Failing, INIT, run))
    ensures
      var s := Exec(Failing, INIT, run);
      && (Failed(run) ==> Deaf(s))
      && (Deaf(s) && !s.past.ended ==> Failed(run))
      && (!Failed(run) ==> Inv(s))
  {
    FailingHolds(run);
  }

  // ---- Wake-ups -----------------------------------------------------------------------

  /** The slot is full from before `set_pending` until the wake, and once the wake is past
      the task has been told, unless it is polling and about to see Ready. */
  predicate TaskKnows(s: Event) {
    && (s.pc.SetPending? || s.st.Pending? || s.st.Callback? ==> s.waker)
    && (s.st.Ready? && s.past.fires in s.cbs ==> s.waker)
    && (s.st.Ready? && s.past.fires !in s.cbs && (s.pc.Out? || s.pc.Schedule? || s.pc.Register?) ==> s.seen.notified)
    && (s.st.Pending? || s.st.Callback? || s.st.Ready? ==> s.pc.Out? ==> s.seen.lastPending)
  }

  /** No earlier callback is left while an operation is current. */
  predicate OnlyCurrent(s: Event) {
    && (s.st.Scheduling? && Resting(s) ==> forall k :: k in s.cbs ==> false)
    && (Armed(s) ==> forall k :: k in s.cbs ==> false)
    && (forall k :: k in s.cbs ==> k == s.past.fires)
  }

  predicate WakeInv(s: Event) {
    !s.past.ended ==> TaskKnows(s) && OnlyCurrent(s)
  }

  lemma WakeCallback(s: Event, k: Key)
    requires Inv(s) && WakeInv(s) && k in s.cbs
    ensures WakeInv(Next(s, CbStep(k)))
  {
  }

  lemma WakeOwner(s: Event)
    requires Inv(s) && WakeInv(s) && Enabled(s, OwnerStep) && Allowed(Retired, s, OwnerStep)
    ensures WakeInv(Next(s, OwnerStep))
  {
  }

  lemma WakeStep(s: Event, a: Action)
    requires Inv(s) && WakeInv(s) && Enabled(s, a) && Allowed(Retired, s, a)
    ensures WakeInv(Next(s, a))
  {
    match a
    case CbStep(k) => WakeCallback(s, k);
    case OwnerStep => WakeOwner(s);
    case FireWait =>
    case Complete =>
    case IssueAsync =>
    case IssueInline(_, _) =>
    case PollStart =>
  }

  lemma {:induction false} WakeHolds(run: seq<Action>)
    requires IsRun(Retired, INIT, run)
    ensures Inv(Exec(Retired, INIT, run)) && WakeInv(Exec(Retired, INIT, run))
  {
    if run != [] {
      var before, a := run[..|run| - 1], run[|run| - 1];
      WakeHolds(before);
      WakeStep(Exec(Retired, INIT, before), a);
      StepKeeps(Exec(Retired, INIT, before), a);
    }
  }

  /** No wake-up is lost: whenever the event is Ready, its callback has finished and no poll
      is under way, the task's last poll returned Pending and it holds a notification it has
      not answered. */
  lemma NoLostWakeup(run: seq<Action>)
    requires IsRun(Retired, INIT, run)
    requires
      var s := Exec(Retired, INIT, run);
      s.st.Ready? && s.pc.Out? && s.past.fires !in s.cbs
    ensures Exec(Retired, INIT, run).seen.notified && Exec(Retired, INIT, run).seen.lastPending
  {
    WakeHolds(run);
  }

  /** The wait has no timeout, so a written cell holds success. */
  lemma {:induction false} CellHoldsSuccess(run: seq<Action>)
    requires IsRun(Anything, INIT, run)
    ensures Exec(Anything, INIT, run).cell.Written? ==> Exec(Anything, INIT, run).cell.res == Ok(0)
  {
    if run != [] {
      var before, a := run[..|run| - 1], run[|run| - 1];
      CellHoldsSuccess(before);
      assert a.CbStep? || Exec(Anything, INIT, run).cell == Exec(Anything, INIT, before).cell;
    }
  }

  // ---- The result cell ------------------------------------------------------------------

  predicate HasClaim(s: Event, k: Key) {
    k in s.cbs && (s.cbs[k].Set? || s.cbs[k].Publish?)
  }

  ghost predicate Exclusive(s: Event) {
    && (forall j, k :: HasClaim(s, j) && HasClaim(s, k) ==> j == k)
    && (forall k :: HasClaim(s, k) ==> !s.pc.Get?)
  }

  ghost predicate OneHolder(s: Event) {
    && Exclusive(s)
    && (forall k :: HasClaim(s, k) ==> s.st.Callback?)
    && !s.st.CancelledNowait? && !s.st.CancelledWait?
    && (s.pc.Reset? || s.pc.Rearm? || s.pc.Get? || s.pc.StoreIdle? ==> s.st.Ready?)
    && (s.pc.Issue? || s.pc.InlineIdle? || s.pc.RegisterPending? || s.pc.SetPending? ==> s.st.Scheduling?)
  }

  lemma HolderStep(s: Event, a: Action)
    requires OneHolder(s) && Enabled(s, a) && (a.FireWait? ==> s.past.fires + 1 !in s.cbs)
    ensures OneHolder(Next(s, a))
  {
    var t := Next(s, a);
    if a.CbStep? {
      assert HasClaim(s, a.k) ==> s.st.Callback?;
      assert forall j :: j != a.k ==> (HasClaim(t, j) <==> HasClaim(s, j));
    } else {
      assert forall j :: HasClaim(t, j) <==> HasClaim(s, j);
    }
  }

  predicate Numbered(s: Event) {
    forall k :: k in s.cbs ==> k <= s.past.fires
  }

  /** With any callbacks, asked for or not, whatever the kernel does: no `set` overlaps
      another `set` or a `get`. */
  lemma {:induction false} ExclusiveAlways(run: seq<Action>)
    requires IsRun(Anything, INIT, run)
    ensures var s := Exec(Anything, INIT, run);
            Exclusive(s) && OneHolder(s) && Numbered(s)
  {
    if run != [] {
      var before := run[..|run| - 1];
      ExclusiveAlways(before);
      HolderStep(Exec(Anything, INIT, before), run[|run| - 1]);
    }
  }
}
