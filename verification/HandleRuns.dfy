/** What goes wrong if the two halves of a handle share one OVERLAPPED address. */
module HandleRuns {
  import opened IoStates
  import opened IoResults
  import opened HalfModel
  import opened HalfInvariant
  import opened HalfTheorems
  import opened IoHandles

  ghost predicate Reachable(ad: Addresses, h: Handle) {
    exists run: seq<HandleAction> :: IsHandleRun(ad, run) && HandleExec(ad, run) == h
  }

  lemma Take(ad: Addresses, h: Handle, x: HandleAction) returns (t: Handle)
    requires Reachable(ad, h) && HandleEnabled(ad, h, x) && KernelE(h, x)
    ensures Reachable(ad, t) && t == HandleNext(ad, h, x)
  {
    var run: seq<HandleAction> :| IsHandleRun(ad, run) && HandleExec(ad, run) == h;
    var more := run + [x];
    t := HandleNext(ad, h, x);
    assert more[..|more| - 1] == run;
    assert IsHandleRun(ad, more) && HandleExec(ad, more) == t;
  }

  /** An owner's step. */
  lemma Owner(ad: Addresses, h: Handle, side: Side, a: Action) returns (t: Handle)
    requires Reachable(ad, h) && Enabled(On(h, side), a) && OwnersStep(a) && KernelE(h, By(side, a))
    ensures Reachable(ad, t)
    ensures t == With(h, side, Next(On(h, side), a)).(kernel := h.kernel + Issued(ad, h, By(side, a)))
  {
    OneStep(On(h, side), a);
    t := Take(ad, h, By(side, a));
  }

  /** A half whose first operation is pending. */
  const PENDING: HalfModel.Half :=
    Half(Pending, Uninit, false, Out, map[1 := Cb(Queued, Ok(0))], Past(1, {1}, map[], map[], map[], []),
         Seen(false, true, false, false, false, true))

  lemma FirstLooks(ad: Addresses, h: Handle, side: Side) returns (t: Handle)
    requires Reachable(ad, h) && On(h, side) == INIT
    ensures Reachable(ad, t) && t == With(h, side, INIT.(pc := Schedule))
  {
    t := Owner(ad, h, side, PollStart);
    assert h.kernel + {} == h.kernel;
    assert On(t, side) == INIT.(pc := HalfModel.Finish);
    t := Owner(ad, t, side, OwnerStep);
    assert On(t, side) == INIT.(pc := Schedule);
  }

  const SCHEDULED: HalfModel.Half :=
    INIT.(st := Scheduling, pc := Issue, past := INIT.past.(gen := 1),
          seen := Seen(false, false, false, false, false, true))

  lemma InitSchedules()
    ensures Next(INIT.(pc := Schedule), OwnerStep) == SCHEDULED
  {
  }

  lemma FirstScheduled(ad: Addresses, h: Handle, side: Side) returns (t: Handle)
    requires Reachable(ad, h) && On(h, side) == INIT
    requires forall p :: Unretired(h, p) ==> p.side != side
    ensures Reachable(ad, t)
    ensures t == With(h, side, SCHEDULED)
  {
    var u := FirstLooks(ad, h, side);
    InitSchedules();
    forall p | Unretired(u, p)
      ensures p.side != side
    {
      assert Unretired(h, p);
    }
    t := Owner(ad, u, side, OwnerStep);
    assert u.kernel + {} == u.kernel;
  }

  /** The kernel has accepted it; the word does not say so yet. */
  const ISSUED: HalfModel.Half := PENDING.(st := Scheduling, pc := SetPending,
                                           seen := Seen(false, false, false, false, false, true))

  lemma FirstIssued(ad: Addresses, h: Handle, side: Side) returns (t: Handle)
    requires Reachable(ad, h) && On(h, side) == INIT
    requires forall p :: Unretired(h, p) ==> p.side != side
    ensures Reachable(ad, t)
    ensures t == With(h, side, ISSUED).(kernel := h.kernel + {Packet(side, 1, Address(ad, side))})
  {
    t := FirstScheduled(ad, h, side);
    t := Owner(ad, t, side, IssueAsync);
    assert On(t, side).past.asyncOps == {1};
    assert On(t, side) == ISSUED;
  }

  lemma FirstPending(ad: Addresses, h: Handle, side: Side) returns (t: Handle)
    requires Reachable(ad, h) && On(h, side) == INIT
    requires forall p :: Unretired(h, p) ==> p.side != side
    ensures Reachable(ad, t)
    ensures t == With(h, side, PENDING).(kernel := h.kernel + {Packet(side, 1, Address(ad, side))})
  {
    var u := FirstIssued(ad, h, side);
    assert Next(ISSUED, OwnerStep) == PENDING;
    t := Owner(ad, u, side, OwnerStep);
    assert u.kernel + {} == u.kernel;
  }

  /** Both halves have an operation pending. */
  lemma BothPending(ad: Addresses) returns (t: Handle)
    ensures Reachable(ad, t)
    ensures t == Handle(PENDING, PENDING, {Packet(Read, 1, ad.read), Packet(Write, 1, ad.write)}, map[])
  {
    assert IsHandleRun(ad, []) && HandleExec(ad, []) == FRESH;
    t := FirstPending(ad, FRESH, Read);
    assert t.kernel == {Packet(Read, 1, ad.read)};
    t := FirstPending(ad, t, Write);
    assert t.kernel == {Packet(Read, 1, ad.read), Packet(Write, 1, ad.write)};
  }

  /** With one address, the write's completion comes to the read half, under no name that
      half knows. */
  lemma WriteComesToRead(ad: Addresses) returns (t: Handle)
    requires ad.read == ad.write
    ensures Reachable(ad, t)
    ensures t.read == PENDING.(cbs := map[1 := Cb(Queued, Ok(0)), -1 := Cb(Spin, Ok(5))])
  {
    var h := BothPending(ad);
    var x := Complete(Packet(Write, 1, ad.write), -1, 0, 5);
    var s := h.read;
    var s1 := Next(s, Inject(-1));
    OneStep(s1, Fire(-1, 0, 5));
    assert SeenBy(ad, x) == [Inject(-1), Fire(-1, 0, 5)];
    assert SeenBy(ad, x)[1..] == [Fire(-1, 0, 5)];
    assert CanDo(s, SeenBy(ad, x)) && Do(s, SeenBy(ad, x)) == Next(s1, Fire(-1, 0, 5));
    t := Take(ad, h, x);
    assert t.read.cbs == map[1 := Cb(Queued, Ok(0)), -1 := Cb(Spin, Ok(5))];
  }

  lemma Callback(ad: Addresses, h: Handle, k: Key) returns (t: Handle)
    requires Reachable(ad, h) && Enabled(h.read, CbStep(k))
    ensures Reachable(ad, t) && t.read == CbNext(h.read, k)
  {
    OneStep(h.read, CbStep(k));
    t := Take(ad, h, Step(Read, k));
  }

  /** And claims the read that is pending there. */
  lemma ReadClaimed(ad: Addresses) returns (t: Handle)
    requires ad.read == ad.write
    ensures Reachable(ad, t) && t.read.pc.Out? && -1 in t.read.cbs && t.read.cbs[-1] == Cb(Set, Ok(5))
    ensures t.read.past.gen == 1 && t.read.past.kernel == map[] && t.read.past.log == []
  {
    t := WriteComesToRead(ad);
    t := Callback(ad, t, -1);
    assert t.read.cbs[-1] == Cb(HalfModel.CasPending, Ok(5)) && t.read.st.Pending?;
    t := Callback(ad, t, -1);
  }

  lemma ReadTakesWrites(ad: Addresses) returns (t: Handle)
    requires ad.read == ad.write
    ensures Reachable(ad, t) && t.read.st.Ready? && t.read.pc.Out? && t.read.cell == Written(-1, Ok(5))
    ensures t.read.past.gen == 1 && t.read.past.kernel == map[] && t.read.past.log == []
  {
    t := ReadClaimed(ad);
    t := Callback(ad, t, -1);
    assert t.read.cbs[-1].pc.Publish?;
    t := Callback(ad, t, -1);
  }

  lemma ReadFindsReady(ad: Addresses, h: Handle) returns (t: Handle)
    requires Reachable(ad, h) && h.read.st.Ready? && h.read.pc.Out?
    ensures Reachable(ad, t) && t.read.pc == HalfModel.Get
    ensures t.read.st == h.read.st && t.read.cell == h.read.cell && t.read.past == h.read.past
  {
    t := Owner(ad, h, Read, PollStart);
    t := Owner(ad, t, Read, OwnerStep);
  }

  lemma ReadDelivers(ad: Addresses, h: Handle) returns (t: Handle)
    requires Reachable(ad, h) && h.read.st.Ready? && h.read.pc.Out?
    ensures Reachable(ad, t)
    ensures t.read.past == h.read.past.(log := h.read.past.log + [Finished(h.read.past.gen, h.read.cell)])
  {
    t := ReadFindsReady(ad, h);
    t := Owner(ad, t, Read, OwnerStep);
    t := Owner(ad, t, Read, OwnerStep);
  }

  /** With one address a read poll returns a write's result, although the kernel keeps E and
      has completed no read. */
  lemma SharedAddressMixesUp(ad: Addresses)
    requires ad.read == ad.write
    ensures exists h: Handle :: Reachable(ad, h) && h.read.past.log == [Finished(1, Written(-1, Ok(5)))]
              && h.read.past.kernel == map[]
  {
    var h := ReadTakesWrites(ad);
    h := ReadDelivers(ad, h);
  }

  /** What both halves deliver is right in every run of the handle exactly if the two
      addresses differ. */
  lemma HalvesAreSoundExactlyWhen(ad: Addresses)
    ensures (forall run, side :: IsHandleRun(ad, run) ==> LogOk(On(HandleExec(ad, run), side))) <==> ad.read != ad.write
  {
    if ad.read != ad.write {
      forall run, side | IsHandleRun(ad, run)
        ensures LogOk(On(HandleExec(ad, run), side))
      {
        HandleKeeps(ad, run, side);
      }
    } else {
      SharedAddressMixesUp(ad);
      var h: Handle :| Reachable(ad, h) && h.read.past.log == [Finished(1, Written(-1, Ok(5)))]
                       && h.read.past.kernel == map[];
      var run: seq<HandleAction> :| IsHandleRun(ad, run) && HandleExec(ad, run) == h;
      assert !Delivered(h.read, h.read.past.log[0]);
      assert !LogOk(On(HandleExec(ad, run), Read));
    }
  }
}
