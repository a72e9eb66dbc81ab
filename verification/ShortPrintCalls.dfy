/**
 What one call of shortp_write does with its caller's bytes, in every run and when it is left alone,
 and that the worker, driven by interrupts or by timeouts, prints everything.
 */
module ShortPrintCalls {
  import opened Common
  import opened ShortPrint

  // ----- The caller's bytes -----

  /** What the writer still has to put into the ring. */
  function Pending(pc: WriterPc): seq<Byte> {
    match pc
    case Free => []
    case Copy(chunk, rest) => chunk + rest
    case Advance(chunk, rest) => chunk + rest
    case _ => pc.rest
  }

  /** Each step of the writer: what has been accepted and what is pending stay the same bytes in the same order. */
  lemma WriterConserves(s: State)
    requires Inv(s)
    ensures WriterNext(s).accepted + Pending(WriterNext(s).writer) == s.accepted + Pending(s.writer)
  {
    match s.writer
    case Advance(chunk, rest) => Regroup(s.accepted, chunk, rest);
    case High(rest, _) => SplitsRest(s);
    case Low(rest, _) => SplitsRest(s);
    case _ =>
  }

  lemma SplitsRest(s: State)
    requires Inv(s) && (s.writer.High? || s.writer.Low?)
    ensures Pending(WriterNext(s).writer) == s.writer.rest && WriterNext(s).accepted == s.accepted
  {
    var rest, space := s.writer.rest, Space(s);
    assert WriterNext(s) == WithSpace(s, rest, s.writer.mode, space);
    if space > 0 {
      var k := Min(space, |rest|);
      assert rest[..k] + rest[k..] == rest;
    }
  }

  /** The data of the calls that begin in a run; a second call waits for the mutex. */
  function Handed(s: State, steps: seq<Step>): seq<Byte>
    requires Inv(s)
    decreases |steps|
  {
    if steps == [] then []
    else
      StepKeepsInv(s, steps[0]);
      (if steps[0].Start? && s.writer.Free? then steps[0].data else []) + Handed(Next(s, steps[0]), steps[1..])
  }

  predicate Fails(step: Step) {
    step.WriterSignal? || step.WriterFault?
  }

  predicate NoFailure(steps: seq<Step>) {
    forall i :: 0 <= i < |steps| ==> !Fails(steps[i])
  }

  /** A step leaves the bytes accepted and pending alone, but for a call that begins or fails. */
  lemma StepConserves(s: State, step: Step)
    requires Inv(s)
    ensures var t := Next(s, step);
      && (step.Start? && s.writer.Free? ==>
            t.accepted + Pending(t.writer) == s.accepted + Pending(s.writer) + step.data)
      && (!(step.Start? && s.writer.Free?) && !Fails(step) ==>
            t.accepted + Pending(t.writer) == s.accepted + Pending(s.writer))
      && (Fails(step) ==> t.accepted == s.accepted && (t.writer == s.writer || t.writer == Free))
  {
    if step.WriterGo? {
      WriterConserves(s);
    }
  }

  /** In a run without failures the ring has accepted all that callers handed over but what the writer still has. */
  lemma {:induction false} CallersBytes(s: State, steps: seq<Step>)
    requires Inv(s) && NoFailure(steps)
    ensures Run(s, steps).accepted + Pending(Run(s, steps).writer) == s.accepted + Pending(s.writer) + Handed(s, steps)
    decreases |steps|
  {
    hide Pending;
    if steps != [] {
      StepKeepsInv(s, steps[0]);
      StepConserves(s, steps[0]);
      var t := Next(s, steps[0]);
      CallersBytes(t, steps[1..]);
      var first := if steps[0].Start? && s.writer.Free? then steps[0].data else [];
      Regroup(s.accepted + Pending(s.writer), first, Handed(t, steps[1..]));
    }
  }

  /** With failures one call's data is accepted up to some point, and entirely if it ends without one. */
  lemma {:induction false} OneCallsBytes(s: State, steps: seq<Step>)
    requires Inv(s) && forall i :: 0 <= i < |steps| ==> !steps[i].Start?
    ensures var t := Run(s, steps);
      && s.accepted <= t.accepted && t.accepted + Pending(t.writer) <= s.accepted + Pending(s.writer)
      && (NoFailure(steps) && t.writer.Free? ==> t.accepted == s.accepted + Pending(s.writer))
    decreases |steps|
  {
    if steps != [] {
      var t := Next(s, steps[0]);
      StepKeepsInv(s, steps[0]);
      AcceptsAPrefix(s, steps[0]);
      OneCallsBytes(t, steps[1..]);
    }
  }

  lemma AcceptsAPrefix(s: State, step: Step)
    requires Inv(s) && !step.Start?
    ensures var t := Next(s, step);
      && s.accepted <= t.accepted && t.accepted + Pending(t.writer) <= s.accepted + Pending(s.writer)
      && (!Fails(step) ==> t.accepted + Pending(t.writer) == s.accepted + Pending(s.writer))
  {
    StepConserves(s, step);
  }

  /** So what is printed, what the ring holds and what the writer still has are what callers handed over, in order. */
  lemma HandedIsPrinted(buf: seq<Byte>, steps: seq<Step>)
    requires |buf| >= 2 && NoFailure(steps)
    ensures var s := Run(Init(buf), steps);
      s.page.Ok() && Released(s.worker, s.strobed) + s.page.Contents() + Pending(s.writer) == Handed(Init(buf), steps)
  {
    RunKeepsInv(Init(buf), steps);
    CallersBytes(Init(buf), steps);
  }

  /** A signal ends a call that waits, a fault one that copies; all else is as it was, but nobody is registered. */
  lemma FailureEndsTheCall(s: State)
    requires Inv(s)
    ensures Next(s, WriterSignal) ==
      if s.writer.Register? || s.writer.Asleep? then s.(registered := false, writer := Free) else s
    ensures Next(s, WriterFault) == if s.writer.Copy? then s.(writer := Free) else s
    ensures s.writer.Free? || s.writer.Copy? ==> !s.registered
  {
  }

  // ----- A writer left alone -----

  /** The state after n further steps of the writer alone. */
  ghost function Alone(s: State, n: nat): State
    requires Inv(s)
    decreases n
  {
    if n == 0 then s
    else
      WriterKeepsInv(s);
      Alone(WriterNext(s), n - 1)
  }

  /** Such a stretch is a run. */
  lemma {:induction false} AloneIsRun(s: State, n: nat) returns (steps: seq<Step>)
    requires Inv(s)
    ensures Run(s, steps) == Alone(s, n) && |steps| == n && forall a :: a in steps ==> a.WriterGo?
    decreases n
  {
    steps := [];
    if n > 0 {
      WriterKeepsInv(s);
      var rest := AloneIsRun(WriterNext(s), n - 1);
      steps := [WriterGo] + rest;
      assert steps[1..] == rest;
      assert Next(s, WriterGo) == WriterNext(s);
    }
  }

  lemma {:induction false} Then(s: State, n: nat, u: State, t: State)
    requires Inv(s) && Alone(s, n) == u && InRange(u) && t == WriterNext(u)
    ensures Inv(t) && Alone(s, n + 1) == t
    decreases n
  {
    WriterKeepsInv(s);
    if n > 0 {
      Then(WriterNext(s), n - 1, u, t);
    } else {
      assert Alone(WriterNext(s), 0) == WriterNext(s);
    }
  }

  lemma AloneNone(s: State)
    requires Inv(s)
    ensures Alone(s, 0) == s
  {
  }

  lemma {:induction false} Continue(s: State, m: nat, n: nat)
    requires Inv(s)
    ensures Inv(Alone(s, m)) && Alone(s, m + n) == Alone(Alone(s, m), n)
    decreases m
  {
    if m > 0 {
      WriterKeepsInv(s);
      Continue(WriterNext(s), m - 1, n);
    }
  }

  /** How many bytes the ring has room for. */
  function Room(r: Page): nat
    requires r.Ok()
  {
    |r.buf| - 1 - r.Used()
  }

  /** What shortp_out_space computes when tail stands still. */
  function SpaceNow(r: Page): int {
    if r.head >= r.tail then HighSpace(r.head, r.tail, |r.buf|) else LowSpace(r.head, r.tail)
  }

  /** It is positive exactly when there is room, and then tells how much of that lies before the end of the page. */
  lemma SpaceNowMeans(r: Page)
    requires r.Ok()
    ensures SpaceNow(r) > 0 <==> Room(r) > 0
    ensures SpaceNow(r) <= Room(r)
    ensures SpaceNow(r) < Room(r) ==> r.head + SpaceNow(r) == |r.buf|
  {
  }

  /** The two loads of tail, with room in the ring: the writer is about to copy. */
  lemma FindsRoom(s: State, rest: seq<Byte>, mode: Mode)
    requires Inv(s) && s.page.Ok() && s.writer == Compare(rest, mode) && Room(s.page) > 0
    ensures var k := Min(SpaceNow(s.page), |rest|);
      0 <= k <= |rest| && Alone(s, 2) == s.(registered := false, writer := Copy(rest[..k], rest[k..]))
  {
    hide Inv;
    SpaceNowMeans(s.page);
    var s1 := s.(writer := if s.page.head >= s.page.tail then High(rest, mode) else Low(rest, mode));
    Then(s, 0, s, s1);
    Then(s, 1, s1, WithSpace(s1, rest, mode, SpaceNow(s.page)));
  }

  /** Without room it looks again, registers or falls asleep. */
  lemma FindsNone(s: State, rest: seq<Byte>, mode: Mode)
    requires Inv(s) && s.page.Ok() && s.writer == Compare(rest, mode) && Room(s.page) == 0
    requires mode.Registered? ==> s.registered
    ensures Alone(s, 2) == s.(
      writer := match mode
        case First => Compare(rest, Unregistered)
        case Unregistered => Register(rest)
        case Registered => Asleep(rest))
  {
    hide Inv;
    SpaceNowMeans(s.page);
    var s1 := s.(writer := if s.page.head >= s.page.tail then High(rest, mode) else Low(rest, mode));
    Then(s, 0, s, s1);
    Then(s, 1, s1, WithSpace(s1, rest, mode, SpaceNow(s.page)));
  }

  /** Copy, move head, and make sure that output is active. */
  lemma PutsChunk(s: State, chunk: seq<Byte>, rest: seq<Byte>)
    requires Inv(s) && s.page.Ok() && s.writer == Copy(chunk, rest) && !s.SpinHeld() && s.page.Fits(|chunk|)
    ensures Alone(s, 3) == s.(
      page := MoveHead(CopyIn(s.page, chunk), |chunk|), accepted := s.accepted + chunk,
      writer := Loop(rest), active := true, work := s.work || !s.active)
  {
    hide Inv, CopyIn, MoveHead;
    var s1 := s.(page := CopyIn(s.page, chunk), writer := Advance(chunk, rest));
    Then(s, 0, s, s1);
    CopyKeepsContents(s.page, chunk);
    var s2 := s1.(page := MoveHead(s1.page, |chunk|), accepted := s.accepted + chunk, writer := Activate(rest));
    Then(s, 1, s1, s2);
    AdvanceAppends(s1.page, |chunk|);
    var s3 := s2.(writer := Loop(rest), active := true, work := s.work || !s.active);
    Then(s, 2, s2, s3);
  }

  /** The ring has gained bytes at its end, and output is on, newly started if it was off. */
  predicate Gained(s: State, t: State, bytes: seq<Byte>)
    requires s.page.Ok()
  {
    && t.page.Ok() && |t.page.buf| == |s.page.buf| && t.page.tail == s.page.tail
    && t.page.Contents() == s.page.Contents() + bytes && t.accepted == s.accepted + bytes
    && t.worker == s.worker && t.irqs == s.irqs && t.timeouts == s.timeouts && t.strobed == s.strobed
    && (if bytes == [] then t.active == s.active && t.work == s.work else t.active && t.work == (s.work || !s.active))
  }

  lemma GainedMore(s: State, t: State, u: State, a: seq<Byte>, b: seq<Byte>)
    requires s.page.Ok() && Gained(s, t, a) && Gained(t, u, b)
    ensures Gained(s, u, a + b)
  {
    Regroup(s.page.Contents(), a, b);
    Regroup(s.accepted, a, b);
  }

  lemma ChunkAdded(r: Page, chunk: seq<Byte>)
    requires r.Ok() && r.Fits(|chunk|)
    ensures var t := MoveHead(CopyIn(r, chunk), |chunk|);
      && t.Ok() && |t.buf| == |r.buf| && t.tail == r.tail
      && t.Contents() == r.Contents() + chunk && Room(t) == Room(r) - |chunk|
  {
    CopyKeepsContents(r, chunk);
    AdvanceAppends(CopyIn(r, chunk), |chunk|);
    UsedIsLength(r);
    UsedIsLength(MoveHead(CopyIn(r, chunk), |chunk|));
  }

  lemma FitsBefore(r: Page, k: nat)
    requires r.Ok() && 0 < k <= SpaceNow(r)
    ensures r.Fits(k)
  {
  }

  /** One round of the loop. */
  lemma Round(s: State, rest: seq<Byte>) returns (t: State, k: nat)
    requires Inv(s) && s.page.Ok() && s.writer == Loop(rest) && rest != [] && Room(s.page) > 0 && !s.SpinHeld()
    ensures 0 < k <= |rest| && k <= Room(s.page) && t == Alone(s, 6) && Inv(t) && t.page.Ok() && t.worker == s.worker
    ensures Gained(s, t, rest[..k]) && t.writer == Loop(rest[k..]) && Room(t.page) == Room(s.page) - k
  {
    hide Inv, CopyIn, MoveHead, Room, SpaceNow, Alone;
    AloneNone(s);
    SpaceNowMeans(s.page);
    k := Min(SpaceNow(s.page), |rest|);
    var chunk, left := rest[..k], rest[k..];
    Then(s, 0, s, s.(writer := Compare(rest, First)));
    FindsRoom(s.(writer := Compare(rest, First)), rest, First);
    Continue(s, 1, 2);
    Continue(s, 3, 0);
    FitsBefore(s.page, k);
    PutsChunk(s.(registered := false, writer := Copy(chunk, left)), chunk, left);
    Continue(s, 3, 3);
    Continue(s, 6, 0);
    t := Alone(s, 6);
    ChunkAdded(s.page, chunk);
  }

  /** A writer that is left alone with a full ring registers and falls asleep. */
  lemma WaitsWhenFull(s: State, rest: seq<Byte>)
    requires Inv(s) && s.page.Ok() && s.writer == Loop(rest) && rest != [] && Room(s.page) == 0
    ensures Alone(s, 8) == s.(registered := true, writer := Asleep(rest))
  {
    hide Inv;
    var s1 := s.(writer := Compare(rest, First));
    Then(s, 0, s, s1);
    FindsNone(s1, rest, First);
    Continue(s, 1, 2);
    var s3 := s.(writer := Compare(rest, Unregistered));
    Continue(s, 3, 0);
    FindsNone(s3, rest, Unregistered);
    Continue(s, 3, 2);
    Continue(s, 5, 0);
    RegistersWhenFull(s.(writer := Register(rest)), rest);
    Continue(s, 5, 3);
  }

  lemma RegistersWhenFull(s: State, rest: seq<Byte>)
    requires Inv(s) && s.page.Ok() && s.writer == Register(rest) && Room(s.page) == 0
    ensures Alone(s, 3) == s.(registered := true, writer := Asleep(rest))
  {
    hide Inv;
    var s1 := s.(registered := true, writer := Compare(rest, Registered));
    Then(s, 0, s, s1);
    FindsNone(s1, rest, Registered);
    Continue(s, 1, 2);
  }

  /**
   A write that is left alone puts into the ring all of its data or all that there is room for, and
   in the second case is asleep on its queue with the rest.
   */
  lemma {:induction false} WriteEnds(s: State, rest: seq<Byte>) returns (n: nat)
    requires Inv(s) && s.page.Ok() && s.writer == Loop(rest) && !s.SpinHeld()
    ensures var t, room := Alone(s, n), Room(s.page);
      && Inv(t) && Gained(s, t, rest[..Min(room, |rest|)])
      && (|rest| <= room ==> t.writer == Free)
      && (|rest| > room ==> t.writer == Asleep(rest[room..]) && t.registered)
    decreases |rest|
  {
    hide Inv, Room, Gained, Alone;
    AloneNone(s);
    if rest == [] {
      Then(s, 0, s, s.(writer := Free));
      n := 1;
      NothingGained(s, Alone(s, 1));
    } else if Room(s.page) == 0 {
      WaitsWhenFull(s, rest);
      Continue(s, 8, 0);
      n := 8;
      NothingGained(s, Alone(s, 8));
    } else {
      var t, k := Round(s, rest);
      var more := WriteEnds(t, rest[k..]);
      n := 6 + more;
      Continue(s, 6, more);
      Continue(t, more, 0);
      SplitAt(rest, k, Room(s.page));
      GainedMore(s, t, Alone(s, n), rest[..k], rest[k..][..Min(Room(t.page), |rest[k..]|)]);
    }
  }

  lemma SplitAt(rest: seq<Byte>, k: nat, room: nat)
    requires k <= |rest| && k <= room
    ensures rest[..k] + rest[k..][..Min(room - k, |rest[k..]|)] == rest[..Min(room, |rest|)]
    ensures |rest| > room ==> rest[k..][room - k..] == rest[room..]
  {
  }

  lemma NothingGained(s: State, t: State)
    requires s.page.Ok() && t == s.(writer := t.writer, registered := t.registered)
    ensures Gained(s, t, [])
  {
    assert s.page.Contents() + [] == s.page.Contents() && s.accepted + [] == s.accepted;
  }

  /** A whole call on a ring with nobody else writing. */
  lemma CallEnds(s: State, data: seq<Byte>) returns (steps: seq<Step>)
    requires Inv(s) && s.page.Ok() && s.writer.Free? && !s.SpinHeld()
    ensures var t, room := Run(s, [Start(data)] + steps), Room(s.page);
      && Gained(s, t, data[..Min(room, |data|)])
      && (|data| <= room ==> t.writer == Free)
      && (|data| > room ==> t.writer == Asleep(data[room..]) && t.registered)
    ensures forall a :: a in steps ==> a.WriterGo?
  {
    var t := s.(writer := Loop(data));
    StepKeepsInv(s, Start(data));
    var n := WriteEnds(t, data);
    steps := AloneIsRun(t, n);
    assert ([Start(data)] + steps)[1..] == steps;
    assert Next(s, Start(data)) == t;
  }

  /** A writer that has been woken goes on to copy if there is room, and back to sleep if there is none. */
  lemma WokenGoesOn(s: State, rest: seq<Byte>) returns (n: nat)
    requires Inv(s) && s.page.Ok() && s.writer == Asleep(rest) && !s.registered
    ensures if Room(s.page) == 0 then Alone(s, n) == s.(registered := true)
      else
        var k := Min(SpaceNow(s.page), |rest|);
        0 < k <= |rest| && Alone(s, n) == s.(writer := Copy(rest[..k], rest[k..]))
  {
    WokenHasRest(s);
    hide Inv, Room, SpaceNow;
    SpaceNowMeans(s.page);
    var s1 := s.(writer := Register(rest));
    Then(s, 0, s, s1);
    if Room(s.page) == 0 {
      RegistersWhenFull(s1, rest);
      Continue(s, 1, 3);
      n := 4;
    } else {
      var s2 := s.(registered := true, writer := Compare(rest, Registered));
      Then(s, 1, s1, s2);
      FindsRoom(s2, rest, Registered);
      Continue(s, 2, 2);
      n := 4;
    }
  }

  lemma WokenHasRest(s: State)
    requires Inv(s) && s.writer.Asleep?
    ensures s.writer.rest != []
  {
  }

  // ----- The printer's side left alone -----

  /** The worker's steps and either the interrupts or the timeouts that queue it. */
  predicate Drives(step: Step, timer: bool) {
    step.WorkerGo? || step.IrqQueue? || (if timer then step.TimerEnter? || step.TimerFire? else step.IrqEnter?)
  }

  /** Nothing left to print, and output off. */
  predicate Quiet(s: State) {
    s.page.head == s.page.tail && !s.active && s.worker.Rest?
  }

  function Drive(s: State, timer: bool): Step {
    if !s.worker.Rest? || s.work then WorkerGo
    else if s.irqs > 0 then IrqQueue
    else if !timer then IrqEnter
    else if s.timeouts > 0 then TimerFire
    else TimerEnter
  }

  /** How far the worker is from giving a slot back or from being quiet. */
  function Far(s: State): nat {
    match s.worker
    case Offer => if s.active then 10 else 1
    case Rest =>
      if !s.active then 0 else if s.work then 6 else if s.irqs > 0 then 7 else if s.timeouts > 0 then 8 else 9
    case Ready => 5
    case Check => 4
    case Strobe => 3
    case MoveTail => 2
    case GoIdle => 2
  }

  lemma DriveComesCloser(s: State, timer: bool)
    requires Inv(s) && !s.writer.Activate? && !Quiet(s)
    ensures var t := Next(s, Drive(s, timer));
      && t.page.Ok() && t.writer == s.writer && t.accepted == s.accepted
      && (t.page.Used() < s.page.Used() || (t.page.Used() == s.page.Used() && Far(t) < Far(s)))
  {
    if s.worker.MoveTail? {
      DropTailDrops(s.page);
    }
  }

  /**
   Everything gets printed.  While the writers stand still, the worker prints all that the ring holds
   and switches output off, whether it is interrupts that queue it or, if those are lost, timeouts.
   */
  lemma {:induction false} EverythingIsPrinted(s: State, timer: bool) returns (steps: seq<Step>)
    requires Inv(s) && !s.writer.Activate?
    ensures var t := Run(s, steps);
      Inv(t) && Quiet(t) && t.strobed == t.accepted == s.accepted && t.writer == s.writer
    ensures forall a :: a in steps ==> Drives(a, timer)
    decreases s.page.Used(), Far(s)
  {
    if Quiet(s) {
      steps := [];
      assert s.page.Contents() == [];
    } else {
      var first := Drive(s, timer);
      DriveComesCloser(s, timer);
      StepKeepsInv(s, first);
      var rest := EverythingIsPrinted(Next(s, first), timer);
      steps := [first] + rest;
      assert steps[1..] == rest;
    }
  }

  /** The steps of interrupts and timeouts move no byte, and none of them is dropped: it leads to queued work. */
  lemma InterruptsQueueWork(s: State, step: Step)
    requires Inv(s) && !step.Start? && !step.WriterGo? && !Fails(step) && !step.WorkerGo?
    ensures var t := Next(s, step);
      && t == s.(irqs := t.irqs, timeouts := t.timeouts, work := t.work)
      && (s.work ==> t.work) && (t.irqs < s.irqs ==> t.work)
      && (t.timeouts < s.timeouts && s.active && !step.TimerBusy? ==> t.irqs > s.irqs)
  {
  }

  /** Queued work is taken off the queue only by the worker that starts on it. */
  lemma QueuedWorkIsDone(s: State, step: Step)
    requires Inv(s) && s.work && !Next(s, step).work
    ensures step.WorkerGo? && s.worker.Rest? && Next(s, step) == s.(work := false, worker := Ready)
  {
  }
}
