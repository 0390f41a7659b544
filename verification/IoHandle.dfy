/** `IoHandle` (`src/io/shared/handle.rs`): two halves and one kernel. The kernel knows an
    operation by the address of its OVERLAPPED alone, and the callback finds its half by
    that address. */
module IoHandles {
  import opened IoStates
  import opened IoResults
  import opened HalfModel
  import opened HalfInvariant
  import opened HalfTheorems

  datatype Side = Read | Write

  /** Where the two OVERLAPPED structures live. */
  datatype Addresses = Addresses(read: nat, write: nat)

  function Address(ad: Addresses, side: Side): nat {
    match side
    case Read => ad.read
    case Write => ad.write
  }

  datatype Found = Found(side: Side) | Unreachable

  /** The callback's tests, in its order. */
  function Dispatch(ad: Addresses, overlapped: nat): Found {
    if overlapped == ad.read then Found(Read)
    else if overlapped == ad.write then Found(Write)
    else Unreachable
  }

  /** A completion finds the half that issued it because the addresses differ. */
  lemma DispatchFindsIssuer(ad: Addresses)
    ensures (forall side :: Dispatch(ad, Address(ad, side)) == Found(side)) <==> ad.read != ad.write
  {
    assert Address(ad, Write) == ad.write;
  }

  /** What the kernel owes: a completion for an operation that was issued with this address. */
  datatype Packet = Packet(side: Side, op: Key, overlapped: nat)

  /** A callback the kernel has started for a packet: in which half, under which name. */
  datatype Started = Started(side: Side, k: Key)

  /** `started` is history. A half lists its own operation as queued until that operation's
      callback comes, but only the kernel's packets make callbacks run. */
  datatype Handle = Handle(
    read: HalfModel.Half, write: HalfModel.Half,
    kernel: set<Packet>, started: map<Packet, Started>)

  const FRESH: Handle := Handle(INIT, INIT, {}, map[])

  datatype HandleAction =
    | By(owned: Side, a: Action)                                      // an owner's step
    | Complete(p: Packet, k: Key, result: nat, transferred: nat)      // the kernel completes p
    | Stray(overlapped: nat, k: Key, result: nat, transferred: nat)   // nobody asked for it
    | Step(running: Side, k: Key)                                     // a callback's step

  function On(h: Handle, side: Side): HalfModel.Half {
    match side
    case Read => h.read
    case Write => h.write
  }

  function With(h: Handle, side: Side, s: HalfModel.Half): Handle {
    match side
    case Read => h.(read := s)
    case Write => h.(write := s)
  }

  predicate OwnersStep(a: Action) {
    a.PollStart? || a.CancelStart? || a.OwnerStep? || a.IssueAsync? || a.IssueInline?
  }

  predicate WellFormed(ad: Addresses, x: HandleAction) {
    match x
    case By(_, a) => OwnersStep(a)
    case Complete(p, k, _, _) =>
      p.overlapped == Address(ad, p.side) && (Dispatch(ad, p.overlapped).side == p.side ==> k == p.op)
    case Stray(overlapped, _, _, _) => Dispatch(ad, overlapped).Found?
    case Step(_, _) => true
  }

  /** The half an action is about: a completion's is the one its address leads to. */
  function SideOf(ad: Addresses, x: HandleAction): Side
    requires WellFormed(ad, x)
  {
    match x
    case By(side, _) => side
    case Complete(p, _, _, _) => Dispatch(ad, p.overlapped).side
    case Stray(overlapped, _, _, _) => Dispatch(ad, overlapped).side
    case Step(side, _) => side
  }

  /** What that half sees: its own completion, or a callback it never asked for. */
  function SeenBy(ad: Addresses, x: HandleAction): seq<Action>
    requires WellFormed(ad, x)
  {
    match x
    case By(_, a) => [a]
    case Complete(p, k, result, transferred) =>
      if SideOf(ad, x) == p.side then [Fire(k, result, transferred)] else [Inject(k), Fire(k, result, transferred)]
    case Stray(_, k, result, transferred) => [Inject(k), Fire(k, result, transferred)]
    case Step(_, k) => [CbStep(k)]
  }

  predicate CanDo(s: HalfModel.Half, acts: seq<Action>)
    decreases |acts|
  {
    acts != [] ==> Enabled(s, acts[0]) && CanDo(Next(s, acts[0]), acts[1..])
  }

  function Do(s: HalfModel.Half, acts: seq<Action>): HalfModel.Half
    requires CanDo(s, acts)
    decreases |acts|
  {
    if acts == [] then s else Do(Next(s, acts[0]), acts[1..])
  }

  /** The packet is owed, or the callback started for it has not retired. */
  predicate Unretired(h: Handle, p: Packet) {
    p in h.kernel || (p in h.started && h.started[p].k in On(h, h.started[p].side).cbs)
  }

  /** Assumption E, of the one kernel: it makes no callback nobody asked for, and a packet of
      an operation that finished inline has been completed and its callback has retired
      before that operation's half schedules again. (That a pending operation has exactly
      one packet, and a packet is completed once, is how the actions are defined.) */
  ghost predicate KernelE(h: Handle, x: HandleAction) {
    && !x.Stray?
    && (x.By? && x.a.OwnerStep? && On(h, x.owned).pc.Schedule? && On(h, x.owned).st.Idle? ==>
          forall p :: Unretired(h, p) && p.side == x.owned ==> p.op in On(h, x.owned).past.asyncOps)
  }

  predicate HandleEnabled(ad: Addresses, h: Handle, x: HandleAction) {
    && WellFormed(ad, x)
    && (x.Complete? ==> x.p in h.kernel)
    && CanDo(On(h, SideOf(ad, x)), SeenBy(ad, x))
  }

  /** What an owner's step adds to what the kernel owes. */
  function Issued(ad: Addresses, h: Handle, x: HandleAction): set<Packet> {
    if x.By? && (x.a.IssueAsync? || (x.a.IssueInline? && x.a.posts)) then
      {Packet(x.owned, On(h, x.owned).past.gen, Address(ad, x.owned))}
    else {}
  }

  function HandleNext(ad: Addresses, h: Handle, x: HandleAction): Handle
    requires HandleEnabled(ad, h, x)
  {
    var side := SideOf(ad, x);
    var t := With(h, side, Do(On(h, side), SeenBy(ad, x)));
    if x.Complete? then t.(kernel := h.kernel - {x.p}, started := h.started[x.p := Started(side, x.k)])
    else t.(kernel := h.kernel + Issued(ad, h, x))
  }

  ghost predicate IsHandleRun(ad: Addresses, run: seq<HandleAction>)
    decreases |run|, 0
  {
    |run| > 0 ==>
      && IsHandleRun(ad, run[..|run| - 1])
      && HandleEnabled(ad, HandleExec(ad, run[..|run| - 1]), run[|run| - 1])
      && KernelE(HandleExec(ad, run[..|run| - 1]), run[|run| - 1])
  }

  ghost function HandleExec(ad: Addresses, run: seq<HandleAction>): Handle
    requires IsHandleRun(ad, run)
    decreases |run|, 1
  {
    if run == [] then FRESH
    else HandleNext(ad, HandleExec(ad, run[..|run| - 1]), run[|run| - 1])
  }

  /** What one half sees of an interleaving. */
  function Project(ad: Addresses, run: seq<HandleAction>, side: Side): seq<Action>
    requires forall i :: 0 <= i < |run| ==> WellFormed(ad, run[i])
  {
    if run == [] then []
    else
      var rest := Project(ad, run[..|run| - 1], side);
      if SideOf(ad, run[|run| - 1]) == side then rest + SeenBy(ad, run[|run| - 1]) else rest
  }

  // ---- Different addresses -----------------------------------------------------------------

  /** What the kernel owes and what it has started is what the halves wait for. */
  ghost predicate Matches(ad: Addresses, h: Handle) {
    && (forall p :: p in h.kernel ==>
          && p.overlapped == Address(ad, p.side) && Owed(p.op)
          && p.op in On(h, p.side).cbs && On(h, p.side).cbs[p.op].pc.Queued?)
    && (forall p :: p in h.started ==> p.overlapped == Address(ad, p.side) && h.started[p] == Started(p.side, p.op))
    && (forall p :: p in h.kernel || p in h.started ==> Issuable(On(h, p.side), p.op))
    && (forall side, k :: k in On(h, side).cbs ==> Owed(k) && Accounted(ad, h, side, k))
    && (h.read.pc.Issue? ==> h.read.past.gen >= 1) && (h.write.pc.Issue? ==> h.write.past.gen >= 1)
  }

  predicate Accounted(ad: Addresses, h: Handle, side: Side, k: Key)
    requires k in On(h, side).cbs
  {
    var p := Packet(side, k, Address(ad, side));
    if On(h, side).cbs[k].pc.Queued? then p in h.kernel else p in h.started
  }

  /** Operations are numbered upwards. */
  predicate Issuable(s: HalfModel.Half, op: Key) {
    op <= s.past.gen && (s.pc.Issue? ==> op < s.past.gen)
  }

  /** The half can take these steps under its own E. */
  predicate Takes(s: HalfModel.Half, acts: seq<Action>)
    decreases |acts|
  {
    acts != [] ==> Enabled(s, acts[0]) && AllowedE(s, acts[0]) && Takes(Next(s, acts[0]), acts[1..])
  }

  lemma {:induction false} ExtendRun(run: seq<Action>, acts: seq<Action>)
    requires IsRun(UnderE, INIT, run)
    ensures IsRun(UnderE, INIT, run + acts) <==> Takes(Exec(UnderE, INIT, run), acts)
    ensures Takes(Exec(UnderE, INIT, run), acts) ==>
              CanDo(Exec(UnderE, INIT, run), acts)
              && Exec(UnderE, INIT, run + acts) == Do(Exec(UnderE, INIT, run), acts)
    decreases |acts|
  {
    if acts == [] {
      assert run + acts == run;
    } else {
      var s, one := Exec(UnderE, INIT, run), run + [acts[0]];
      assert one[..|run|] == run;
      assert one + acts[1..] == run + acts;
      if Enabled(s, acts[0]) && AllowedE(s, acts[0]) {
        ExtendRun(one, acts[1..]);
      } else {
        PrefixOfRun(run + acts, |one|);
        assert (run + acts)[..|one|] == one;
      }
    }
  }

  lemma {:induction false} PrefixOfRun(run: seq<Action>, n: nat)
    requires n <= |run|
    ensures IsRun(UnderE, INIT, run) ==> IsRun(UnderE, INIT, run[..n])
  {
    if n == |run| {
      assert run[..n] == run;
    } else {
      PrefixOfRun(run[..|run| - 1], n);
      assert run[..|run| - 1][..n] == run[..n];
    }
  }

  lemma ScheduleAgrees(ad: Addresses, h: Handle, side: Side)
    requires ad.read != ad.write && Matches(ad, h)
    ensures KernelE(h, By(side, OwnerStep)) <==> AllowedE(On(h, side), OwnerStep)
  {
    var s := On(h, side);
    if KernelE(h, By(side, OwnerStep)) && s.pc.Schedule? && s.st.Idle? {
      forall k | k in s.cbs
        ensures k in s.past.asyncOps
      {
        assert Accounted(ad, h, side, k);
        assert Unretired(h, Packet(side, k, Address(ad, side)));
      }
    }
    if AllowedE(s, OwnerStep) && s.pc.Schedule? && s.st.Idle? {
      forall p | Unretired(h, p) && p.side == side
        ensures p.op in s.past.asyncOps
      {
        assert p.op in s.cbs;
      }
    }
  }

  lemma OneStep(s: HalfModel.Half, a: Action)
    ensures Takes(s, [a]) <==> Enabled(s, a) && AllowedE(s, a)
    ensures CanDo(s, [a]) <==> Enabled(s, a)
    ensures Enabled(s, a) ==> Do(s, [a]) == Next(s, a)
  {
    if Enabled(s, a) {
      assert [a][1..] == [];
      assert CanDo(Next(s, a), []) && Takes(Next(s, a), []);
    }
  }

  /** An action is the handle's next one exactly if what its half sees is that half's. */
  lemma StepAgrees(ad: Addresses, h: Handle, x: HandleAction)
    requires ad.read != ad.write && Matches(ad, h) && WellFormed(ad, x)
    ensures (HandleEnabled(ad, h, x) && KernelE(h, x)) <==> Takes(On(h, SideOf(ad, x)), SeenBy(ad, x))
  {
    var s, acts := On(h, SideOf(ad, x)), SeenBy(ad, x);
    match x
    case By(side, a) =>
      OneStep(s, a);
      if a.OwnerStep? { ScheduleAgrees(ad, h, side); }
    case Complete(p, k, _, _) =>
      OneStep(s, acts[0]);
      DispatchFindsIssuer(ad);
      if k in s.cbs {
        assert Accounted(ad, h, p.side, k);
      }
    case Stray(_, k, _, _) => assert !AllowedE(s, Inject(k));
    case Step(_, k) => OneStep(s, CbStep(k));
  }

  lemma NewIsUnknown(ad: Addresses, h: Handle, side: Side)
    requires Matches(ad, h) && On(h, side).pc.Issue?
    ensures On(h, side).past.gen !in On(h, side).cbs
    ensures var p := Packet(side, On(h, side).past.gen, Address(ad, side));
            p !in h.kernel && p !in h.started
  {
    var s := On(h, side);
    forall k | k in s.cbs
      ensures Issuable(s, k)
    {
      assert Accounted(ad, h, side, k);
    }
    assert !Issuable(s, s.past.gen);
  }

  /** A step of a half that neither issues nor starts anything. */
  predicate NothingNew(s: HalfModel.Half, t: HalfModel.Half) {
    && (forall k :: k in t.cbs ==> k in s.cbs && t.cbs[k].pc.Queued? == s.cbs[k].pc.Queued?)
    && (forall k :: k in s.cbs && s.cbs[k].pc.Queued? ==> k in t.cbs)
    && s.past.gen <= t.past.gen && (t.pc.Issue? ==> s.pc.Issue? || t.past.gen == s.past.gen + 1)
  }

  lemma OwnerNothingNew(s: HalfModel.Half, a: Action)
    requires Enabled(s, a) && (a.PollStart? || a.CancelStart? || a.OwnerStep? || (a.IssueInline? && !a.posts))
    ensures NothingNew(s, Next(s, a))
  {
    assert Next(s, a).cbs == s.cbs;
  }

  lemma CallbackNothingNew(s: HalfModel.Half, k: Key)
    requires Enabled(s, CbStep(k))
    ensures NothingNew(s, CbNext(s, k))
  {
  }

  lemma QuietMatches(ad: Addresses, h: Handle, side: Side, s: HalfModel.Half)
    requires ad.read != ad.write && Matches(ad, h) && NothingNew(On(h, side), s)
    ensures Matches(ad, With(h, side, s))
  {
    var t := With(h, side, s);
    forall side', k | k in On(t, side').cbs
      ensures Owed(k) && Accounted(ad, t, side', k)
    {
      assert Accounted(ad, h, side', k);
    }
    forall p | p in t.kernel || p in t.started
      ensures Issuable(On(t, p.side), p.op)
    {
      assert Issuable(On(h, p.side), p.op);
    }
  }

  lemma IssueMatches(ad: Addresses, h: Handle, side: Side, a: Action)
    requires ad.read != ad.write && Matches(ad, h) && HandleEnabled(ad, h, By(side, a))
    requires a.IssueAsync? || (a.IssueInline? && a.posts)
    ensures Matches(ad, HandleNext(ad, h, By(side, a)))
  {
    var s, t := On(h, side), HandleNext(ad, h, By(side, a));
    var p := Packet(side, s.past.gen, Address(ad, side));
    OneStep(s, a);
    NewIsUnknown(ad, h, side);
    assert On(t, side) == Next(s, a);
    assert t.kernel == h.kernel + {p} && t.started == h.started;
    forall side', k | k in On(t, side').cbs
      ensures Owed(k) && Accounted(ad, t, side', k)
    {
      if side' != side || k != s.past.gen {
        assert Accounted(ad, h, side', k);
      }
    }
    forall q | q in t.kernel || q in t.started
      ensures Issuable(On(t, q.side), q.op)
    {
      assert q != p ==> Issuable(On(h, q.side), q.op);
    }
  }

  lemma CompleteNext(ad: Addresses, h: Handle, x: HandleAction)
    requires ad.read != ad.write && Matches(ad, h) && x.Complete? && HandleEnabled(ad, h, x)
    ensures
      var t, s := HandleNext(ad, h, x), On(h, x.p.side);
      && x.k == x.p.op && x.k in s.cbs && s.cbs[x.k].pc.Queued?
      && t == With(h, x.p.side, Next(s, Fire(x.k, x.result, x.transferred)))
                .(kernel := h.kernel - {x.p}, started := h.started[x.p := Started(x.p.side, x.p.op)])
  {
    OneStep(On(h, x.p.side), Fire(x.k, x.result, x.transferred));
  }

  lemma CompleteAccounts(ad: Addresses, h: Handle, x: HandleAction, side: Side, k: Key)
    requires ad.read != ad.write && Matches(ad, h) && x.Complete? && HandleEnabled(ad, h, x)
    requires k in On(HandleNext(ad, h, x), side).cbs
    ensures Owed(k) && Accounted(ad, HandleNext(ad, h, x), side, k)
  {
    CompleteNext(ad, h, x);
    assert Accounted(ad, h, side, k);
  }

  lemma CompletePackets(ad: Addresses, h: Handle, x: HandleAction)
    requires ad.read != ad.write && Matches(ad, h) && x.Complete? && HandleEnabled(ad, h, x)
    ensures
      var t := HandleNext(ad, h, x);
      && (forall p :: p in t.kernel ==>
            && p.overlapped == Address(ad, p.side) && Owed(p.op)
            && p.op in On(t, p.side).cbs && On(t, p.side).cbs[p.op].pc.Queued?)
      && (forall p :: p in t.started ==> p.overlapped == Address(ad, p.side) && t.started[p] == Started(p.side, p.op))
      && (forall p :: p in t.kernel || p in t.started ==> Issuable(On(t, p.side), p.op))
  {
    CompleteNext(ad, h, x);
    var t := HandleNext(ad, h, x);
    forall q | q in t.kernel || q in t.started
      ensures Issuable(On(t, q.side), q.op)
    {
      assert Issuable(On(h, q.side), q.op);
    }
  }

  lemma CompleteMatches(ad: Addresses, h: Handle, x: HandleAction)
    requires ad.read != ad.write && Matches(ad, h) && x.Complete? && HandleEnabled(ad, h, x)
    ensures Matches(ad, HandleNext(ad, h, x))
  {
    var t := HandleNext(ad, h, x);
    CompleteNext(ad, h, x);
    forall side, k | k in On(t, side).cbs
      ensures Owed(k) && Accounted(ad, t, side, k)
    {
      CompleteAccounts(ad, h, x, side, k);
    }
    CompletePackets(ad, h, x);
  }

  lemma Unissued(ad: Addresses, h: Handle, x: HandleAction)
    requires HandleEnabled(ad, h, x) && !x.Complete? && Issued(ad, h, x) == {}
    ensures HandleNext(ad, h, x) == With(h, SideOf(ad, x), Do(On(h, SideOf(ad, x)), SeenBy(ad, x)))
  {
    assert h.kernel + {} == h.kernel;
  }

  lemma MatchesKept(ad: Addresses, h: Handle, x: HandleAction)
    requires ad.read != ad.write && Matches(ad, h) && HandleEnabled(ad, h, x) && KernelE(h, x)
    ensures Matches(ad, HandleNext(ad, h, x))
  {
    match x
    case By(side, a) =>
      if a.IssueAsync? || (a.IssueInline? && a.posts) {
        IssueMatches(ad, h, side, a);
      } else {
        Unissued(ad, h, x);
        OneStep(On(h, side), a);
        OwnerNothingNew(On(h, side), a);
        QuietMatches(ad, h, side, Next(On(h, side), a));
      }
    case Complete(_, _, _, _) => CompleteMatches(ad, h, x);
    case Step(side, k) =>
      Unissued(ad, h, x);
      OneStep(On(h, side), CbStep(k));
      CallbackNothingNew(On(h, side), k);
      QuietMatches(ad, h, side, CbNext(On(h, side), k));
  }

  /** With different addresses, an interleaving is a run of the handle with its one kernel
      exactly when what each half sees of it is a run of that half alone under its own E, and
      then it leads to the halves those runs lead to. */
  lemma {:induction false} IndependentProduct(ad: Addresses, run: seq<HandleAction>)
    requires ad.read != ad.write && forall i :: 0 <= i < |run| ==> WellFormed(ad, run[i])
    ensures IsHandleRun(ad, run) <==>
            IsRun(UnderE, INIT, Project(ad, run, Read)) && IsRun(UnderE, INIT, Project(ad, run, Write))
    ensures IsHandleRun(ad, run) ==>
              var h := HandleExec(ad, run);
              && Matches(ad, h)
              && h.read == Exec(UnderE, INIT, Project(ad, run, Read))
              && h.write == Exec(UnderE, INIT, Project(ad, run, Write))
  {
    if run != [] {
      var before, x := run[..|run| - 1], run[|run| - 1];
      IndependentProduct(ad, before);
      var side := SideOf(ad, x);
      var seen := Project(ad, before, side);
      assert Project(ad, run, side) == seen + SeenBy(ad, x);
      if IsHandleRun(ad, before) {
        var h := HandleExec(ad, before);
        ExtendRun(seen, SeenBy(ad, x));
        StepAgrees(ad, h, x);
        if HandleEnabled(ad, h, x) && KernelE(h, x) {
          MatchesKept(ad, h, x);
        }
      } else {
        PrefixOfRun(seen + SeenBy(ad, x), |seen|);
        assert (seen + SeenBy(ad, x))[..|seen|] == seen;
      }
    }
  }

  lemma {:induction false} RunsAreWellFormed(ad: Addresses, run: seq<HandleAction>)
    requires IsHandleRun(ad, run)
    ensures forall i :: 0 <= i < |run| ==> WellFormed(ad, run[i])
  {
    if run != [] {
      RunsAreWellFormed(ad, run[..|run| - 1]);
    }
  }

  /** So with different addresses both halves keep all that one half alone keeps. */
  lemma HandleKeeps(ad: Addresses, run: seq<HandleAction>, side: Side)
    requires ad.read != ad.write && IsHandleRun(ad, run)
    ensures Inv(On(HandleExec(ad, run), side)) && LogOk(On(HandleExec(ad, run), side))
  {
    RunsAreWellFormed(ad, run);
    IndependentProduct(ad, run);
    InvariantHolds(Project(ad, run, side));
    DeliveriesAreRight(Project(ad, run, side));
  }

  /** The order in which the halves' steps fall does not matter: any other interleaving of the
      same steps is a run too, and leads to the same halves and the same kernel. */
  lemma InterleavingsAgree(ad: Addresses, run: seq<HandleAction>, other: seq<HandleAction>)
    requires ad.read != ad.write && IsHandleRun(ad, run)
    requires forall i :: 0 <= i < |run| ==> WellFormed(ad, run[i])
    requires forall i :: 0 <= i < |other| ==> WellFormed(ad, other[i])
    requires forall side :: Project(ad, other, side) == Project(ad, run, side)
    ensures IsHandleRun(ad, other)
    ensures var h, g := HandleExec(ad, run), HandleExec(ad, other);
            g.read == h.read && g.write == h.write && g.kernel == h.kernel
  {
    IndependentProduct(ad, run);
    IndependentProduct(ad, other);
    assert Project(ad, other, Read) == Project(ad, run, Read) && Project(ad, other, Write) == Project(ad, run, Write);
    SameKernel(ad, HandleExec(ad, run), HandleExec(ad, other));
  }

  lemma SameKernel(ad: Addresses, h: Handle, g: Handle)
    requires Matches(ad, h) && Matches(ad, g) && g.read == h.read && g.write == h.write
    ensures g.kernel == h.kernel
  {
    assert forall side :: On(g, side) == On(h, side);
    forall p
      ensures p in h.kernel <==> p in g.kernel
    {
      if p in h.kernel { assert Accounted(ad, g, p.side, p.op); }
      if p in g.kernel { assert Accounted(ad, h, p.side, p.op); }
    }
  }

  // ---- The two halves' own traces as one run of the handle --------------------------------------

  /** A half's step as the handle's; nothing lifts to a callback nobody asked for. */
  function Lift(ad: Addresses, side: Side, a: Action): HandleAction {
    match a
    case Fire(k, result, transferred) => Complete(Packet(side, k, Address(ad, side)), k, result, transferred)
    case CbStep(k) => Step(side, k)
    case _ => By(side, a)
  }

  function LiftAll(ad: Addresses, side: Side, acts: seq<Action>): seq<HandleAction> {
    seq(|acts|, i requires 0 <= i < |acts| => Lift(ad, side, acts[i]))
  }

  /** What each half sees of the run is the half's own trace. */
  ghost predicate Tracks(ad: Addresses, run: seq<HandleAction>, read: seq<Action>, write: seq<Action>) {
    && (forall i :: 0 <= i < |run| ==> WellFormed(ad, run[i]))
    && Project(ad, run, Read) == read && Project(ad, run, Write) == write
  }

  function Longer(side: Side, which: Side, trace: seq<Action>, acts: seq<Action>): seq<Action> {
    if side == which then trace + acts else trace
  }

  lemma LiftOne(ad: Addresses, run: seq<HandleAction>, side: Side, a: Action, which: Side)
    requires ad.read != ad.write && !a.Inject? && forall i :: 0 <= i < |run| ==> WellFormed(ad, run[i])
    ensures var more := run + [Lift(ad, side, a)];
            && (forall i :: 0 <= i < |more| ==> WellFormed(ad, more[i]))
            && Project(ad, more, which) == Longer(side, which, Project(ad, run, which), [a])
  {
    var x := Lift(ad, side, a);
    DispatchFindsIssuer(ad);
    assert Dispatch(ad, Address(ad, side)) == Found(side);
    assert WellFormed(ad, x) && SideOf(ad, x) == side && SeenBy(ad, x) == [a];
    var more := run + [x];
    assert more[..|more| - 1] == run;
  }

  lemma LongerTwice(side: Side, which: Side, trace: seq<Action>, acts: seq<Action>, a: Action)
    ensures Longer(side, which, Longer(side, which, trace, acts), [a]) == Longer(side, which, trace, acts + [a])
  {
    assert (trace + acts) + [a] == trace + (acts + [a]);
  }

  lemma LiftWellFormed(ad: Addresses, run: seq<HandleAction>, side: Side, acts: seq<Action>)
    requires ad.read != ad.write && forall i :: 0 <= i < |run| ==> WellFormed(ad, run[i])
    requires forall i :: 0 <= i < |acts| ==> !acts[i].Inject?
    ensures var more := run + LiftAll(ad, side, acts);
            forall i :: 0 <= i < |more| ==> WellFormed(ad, more[i])
  {
    forall i | 0 <= i < |acts|
      ensures WellFormed(ad, Lift(ad, side, acts[i]))
    {
      LiftOne(ad, run, side, acts[i], side);
      assert (run + [Lift(ad, side, acts[i])])[|run|] == Lift(ad, side, acts[i]);
    }
  }

  lemma {:induction false} LiftProjects(ad: Addresses, run: seq<HandleAction>, side: Side,
                                        acts: seq<Action>, which: Side)
    requires ad.read != ad.write && forall i :: 0 <= i < |run| ==> WellFormed(ad, run[i])
    requires forall i :: 0 <= i < |acts| ==> !acts[i].Inject?
    ensures var more := run + LiftAll(ad, side, acts);
            && (forall i :: 0 <= i < |more| ==> WellFormed(ad, more[i]))
            && Project(ad, more, which) == Longer(side, which, Project(ad, run, which), acts)
  {
    LiftWellFormed(ad, run, side, acts);
    if acts == [] {
      assert run + LiftAll(ad, side, acts) == run;
      assert Project(ad, run, which) + [] == Project(ad, run, which);
    } else {
      var init, a := acts[..|acts| - 1], acts[|acts| - 1];
      var before := run + LiftAll(ad, side, init);
      LiftProjects(ad, run, side, init, which);
      LiftLast(ad, run, side, acts);
      LiftOne(ad, before, side, a, which);
      LongerTwice(side, which, Project(ad, run, which), init, a);
      assert init + [a] == acts;
    }
  }

  lemma LiftLast(ad: Addresses, run: seq<HandleAction>, side: Side, acts: seq<Action>)
    requires acts != []
    ensures run + LiftAll(ad, side, acts) ==
            (run + LiftAll(ad, side, acts[..|acts| - 1])) + [Lift(ad, side, acts[|acts| - 1])]
  {
  }

  lemma LiftTracks(ad: Addresses, run: seq<HandleAction>, read: seq<Action>, write: seq<Action>,
                   side: Side, acts: seq<Action>)
    requires ad.read != ad.write && Tracks(ad, run, read, write)
    requires forall i :: 0 <= i < |acts| ==> !acts[i].Inject?
    ensures Tracks(ad, run + LiftAll(ad, side, acts), Longer(side, Read, read, acts), Longer(side, Write, write, acts))
  {
    LiftProjects(ad, run, side, acts, Read);
    LiftProjects(ad, run, side, acts, Write);
  }

  lemma {:induction false} NothingInjected(run: seq<Action>)
    requires IsRun(UnderE, INIT, run)
    ensures forall i :: 0 <= i < |run| ==> !run[i].Inject?
  {
    if run != [] {
      NothingInjected(run[..|run| - 1]);
    }
  }

  /** Both halves have gone on; `first` is the one whose steps are put first. */
  function Merged(ad: Addresses, run: seq<HandleAction>, first: Side, mine: seq<Action>, others: seq<Action>)
    : seq<HandleAction>
  {
    run + LiftAll(ad, first, mine) + LiftAll(ad, if first.Read? then Write else Read, others)
  }

  lemma MergedStarts(ad: Addresses, run: seq<HandleAction>, first: Side, mine: seq<Action>, others: seq<Action>)
    requires mine != []
    ensures run + [Lift(ad, first, mine[0])] <= Merged(ad, run, first, mine, others)
  {
    assert LiftAll(ad, first, mine)[0] == Lift(ad, first, mine[0]);
  }

  lemma MergedTracks(ad: Addresses, run: seq<HandleAction>, first: Side,
                     read: seq<Action>, write: seq<Action>, read': seq<Action>, write': seq<Action>)
    requires ad.read != ad.write && Tracks(ad, run, read, write)
    requires read <= read' && write <= write' && IsRun(UnderE, INIT, read') && IsRun(UnderE, INIT, write')
    ensures var r, w := read'[|read|..], write'[|write|..];
            Tracks(ad, if first.Read? then Merged(ad, run, first, r, w) else Merged(ad, run, first, w, r),
                   read', write')
  {
    var r, w := read'[|read|..], write'[|write|..];
    NothingInjected(read');
    NothingInjected(write');
    assert read + r == read' && write + w == write';
    if first.Read? {
      LiftTracks(ad, run, read, write, Read, r);
      LiftTracks(ad, run + LiftAll(ad, Read, r), read', write, Write, w);
    } else {
      LiftTracks(ad, run, read, write, Write, w);
      LiftTracks(ad, run + LiftAll(ad, Write, w), read, write', Read, r);
    }
  }

  /** Traces of halves under their own E make a run of the handle under the kernel's. */
  lemma TracedIsRun(ad: Addresses, run: seq<HandleAction>, read: seq<Action>, write: seq<Action>)
    requires ad.read != ad.write && Tracks(ad, run, read, write)
    requires IsRun(UnderE, INIT, read) && IsRun(UnderE, INIT, write)
    ensures IsHandleRun(ad, run) && Matches(ad, HandleExec(ad, run))
    ensures HandleExec(ad, run).read == Exec(UnderE, INIT, read)
    ensures HandleExec(ad, run).write == Exec(UnderE, INIT, write)
  {
    IndependentProduct(ad, run);
  }
}
