/**
 When shortprint's waiting writer is never woken.  The worker decides whether to wake it from
 (PAGE_SIZE + tail - head) % PAGE_SIZE, which is 0 both for no free space and for a whole free
 page, and the writer's own unlocked loads may miss the byte that empties the ring.
 */
module ShortPrintStall {
  import opened Common
  import opened ShortPrint

  predicate NoSignal(steps: seq<Step>) {
    forall i | 0 <= i < |steps| :: !steps[i].WriterSignal?
  }

  /** t comes after s in some run in which no signal hits the writer. */
  ghost predicate Reaches(s: State, t: State)
    requires Inv(s)
  {
    exists steps: seq<Step> :: NoSignal(steps) && Run(s, steps) == t
  }

  /** A run can be continued by one step. */
  lemma {:induction false} RunSnoc(s: State, steps: seq<Step>, last: Step)
    requires Inv(s)
    ensures Inv(Run(s, steps)) && Run(s, steps + [last]) == Next(Run(s, steps), last)
    decreases |steps|
  {
    if steps == [] {
      assert [] + [last] == [last];
      StepKeepsInv(s, last);
      assert Run(Next(s, last), []) == Next(s, last);
    } else {
      StepKeepsInv(s, steps[0]);
      assert (steps + [last])[1..] == steps[1..] + [last];
      RunSnoc(Next(s, steps[0]), steps[1..], last);
    }
  }

  lemma ReachesSelf(s: State)
    requires Inv(s)
    ensures Reaches(s, s)
  {
    assert NoSignal([]) && Run(s, []) == s;
  }

  lemma ReachesMore(s: State, t: State, step: Step)
    requires Inv(s) && Reaches(s, t) && !step.WriterSignal?
    ensures Inv(t) && Reaches(s, Next(t, step)) && Inv(Next(t, step))
  {
    var steps :| NoSignal(steps) && Run(s, steps) == t;
    RunSnoc(s, steps, step);
    RunKeepsInv(s, steps);
    StepKeepsInv(t, step);
    assert NoSignal(steps + [step]);
  }

  /** The writer sleeps on the queue, not yet woken. */
  predicate Sleeping(s: State) {
    s.writer.Asleep? && s.registered
  }

  /** However the run goes on, nothing but a signal ever gets the writer out of its sleep. */
  ghost predicate Doomed(s: State)
    requires Inv(s)
  {
    forall steps: seq<Step> | NoSignal(steps) :: Sleeping(Run(s, steps))
  }

  lemma {:induction false} EmptyRingDooms(s: State, steps: seq<Step>)
    requires Inv(s) && Sleeping(s) && s.page.head == s.page.tail && NoSignal(steps)
    ensures Sleeping(Run(s, steps))
    decreases |steps|
  {
    if steps != [] {
      StepKeepsInv(s, steps[0]);
      WakeGuardMeans(s.page);
      EmptyRingDooms(Next(s, steps[0]), steps[1..]);
    }
  }

  /** The step that brings the worker's next visit to the ring closer. */
  function Push(s: State): Step {
    if !s.worker.Rest? || s.work then WorkerGo else if s.irqs > 0 then IrqQueue else IrqEnter
  }

  function Rank(s: State): nat {
    match s.worker
    case Offer => 8
    case Rest => if s.work then 5 else if s.irqs > 0 then 6 else 7
    case Ready => 4
    case Check => 3
    case Strobe => 2
    case MoveTail => 1
    case GoIdle => 0
  }

  /** While a byte is left, pushing the worker on sooner or later wakes the sleeper. */
  lemma {:induction false} NonEmptyRingWakes(s: State) returns (steps: seq<Step>)
    requires Inv(s) && |s.page.buf| >= 3 && Sleeping(s) && s.page.head != s.page.tail
    ensures NoSignal(steps) && !Run(s, steps).registered
    decreases s.page.Used(), Rank(s)
  {
    var s' := Next(s, Push(s));
    StepKeepsInv(s, Push(s));
    WakeGuardMeans(s.page);
    assert Run(s', []) == s';
    if s'.registered {
      if s.worker.MoveTail? {
        DropTailDrops(s.page);
      }
      var more := NonEmptyRingWakes(s');
      steps := [Push(s)] + more;
      assert steps[1..] == more;
    } else {
      steps := [Push(s)];
    }
  }

  /** A sleeping writer is lost for good exactly when it fell asleep beside an empty ring. */
  lemma DoomedIffRingEmpty(s: State)
    requires Inv(s) && |s.page.buf| >= 3 && Sleeping(s)
    ensures Doomed(s) <==> s.page.Contents() == []
  {
    UsedIsLength(s.page);
    if s.page.head == s.page.tail {
      forall steps: seq<Step> | NoSignal(steps) ensures Sleeping(Run(s, steps)) {
        EmptyRingDooms(s, steps);
      }
    } else {
      var steps := NonEmptyRingWakes(s);
    }
  }

  /** An interrupt puts an idle worker in front of a non-empty ring. */
  lemma StartWorker(origin: State, s: State) returns (t: State)
    requires Inv(origin) && Reaches(origin, s) && Inv(s)
    requires s.worker.Rest? && !s.work && s.irqs == 0 && s.active
    ensures Reaches(origin, t) && Inv(t) && t == s.(worker := Check)
  {
    t := s;
    ReachesMore(origin, t, IrqEnter);
    t := s.(irqs := 1);
    ReachesMore(origin, t, IrqQueue);
    t := s.(work := true);
    ReachesMore(origin, t, WorkerGo);
    t := s.(worker := Ready);
    ReachesMore(origin, t, WorkerGo);
    t := s.(worker := Check);
  }

  /** The worker strobes the oldest byte. */
  lemma StrobeOne(origin: State, s: State) returns (t: State)
    requires Inv(origin) && Reaches(origin, s)
    requires s.page.Ok() && s.worker.Check? && s.page.head != s.page.tail
    ensures Reaches(origin, t) && Inv(t)
    ensures t == s.(worker := MoveTail, strobed := s.strobed + [s.page.buf[s.page.tail]])
  {
    ReachesMore(origin, s, WorkerGo);
    t := s.(worker := Strobe);
    ReachesMore(origin, t, WorkerGo);
    t := s.(worker := MoveTail, strobed := s.strobed + [s.page.buf[s.page.tail]]);
  }

  /** The worker gives the slot back, wakes the writer if it sees fit, and goes back to rest. */
  lemma GiveSlotBack(origin: State, s: State) returns (t: State)
    requires Inv(origin) && Reaches(origin, s)
    requires Inv(s) && s.worker.MoveTail? && DropTail(s.page).Ok()
    ensures Reaches(origin, t) && Inv(t)
    ensures t == s.(
      page := DropTail(s.page), worker := Rest, registered := s.registered && !WakeGuard(DropTail(s.page)))
  {
    hide Inv, Reaches, DropTail, WakeGuard;
    ReachesMore(origin, s, WorkerGo);
    t := s.(page := DropTail(s.page), worker := Offer);
    t := OfferRoom(origin, t);
  }

  lemma OfferRoom(origin: State, s: State) returns (t: State)
    requires Inv(origin) && Reaches(origin, s) && s.worker.Offer? && s.page.Ok()
    ensures Reaches(origin, t) && Inv(t)
    ensures t == s.(worker := Rest, registered := s.registered && !WakeGuard(s.page))
  {
    hide Inv, Reaches, WakeGuard;
    ReachesMore(origin, s, WorkerGo);
    t := s.(worker := Rest, registered := s.registered && !WakeGuard(s.page));
  }

  /** One byte printed while the writer stands still, starting and ending with an idle worker. */
  lemma PrintOne(origin: State, s: State) returns (t: State)
    requires Inv(origin) && Reaches(origin, s) && Inv(s)
    requires s.worker.Rest? && !s.work && s.irqs == 0 && s.active && s.page.head != s.page.tail
    ensures Reaches(origin, t) && Inv(t) && DropTail(s.page).Ok()
    ensures t == s.(page := DropTail(s.page), strobed := t.strobed,
                    registered := s.registered && !WakeGuard(DropTail(s.page)))
  {
    DropTailDrops(s.page);
    t := StartWorker(origin, s);
    t := StrobeOne(origin, t);
    t := GiveSlotBack(origin, t);
  }

  /** Printing until tail reaches the last slot, with the writer not registered. */
  lemma {:induction false} PrintTo(origin: State, s: State) returns (t: State)
    requires Inv(origin) && Reaches(origin, s) && Inv(s)
    requires s.worker.Rest? && !s.work && s.irqs == 0 && s.active && !s.registered
    requires s.page.head == 0 < s.page.tail
    ensures Reaches(origin, t) && Inv(t)
    ensures t == s.(page := s.page.(tail := |s.page.buf| - 1), strobed := t.strobed)
    decreases |s.page.buf| - s.page.tail
  {
    if s.page.tail == |s.page.buf| - 1 {
      t := s;
    } else {
      var u := PrintOne(origin, s);
      t := PrintTo(origin, u);
    }
  }

  /** The writer finds room without waiting. */
  lemma FindRoom(origin: State, s: State, rest: seq<Byte>) returns (t: State)
    requires Inv(origin) && Reaches(origin, s)
    requires s.page.Ok() && s.writer == Loop(rest) && rest != [] && !s.registered
    requires s.page.head >= s.page.tail && HighSpace(s.page.head, s.page.tail, |s.page.buf|) > 0
    ensures Reaches(origin, t) && Inv(t)
    ensures var k := Min(HighSpace(s.page.head, s.page.tail, |s.page.buf|), |rest|);
      t == s.(writer := Copy(rest[..k], rest[k..]))
  {
    ReachesMore(origin, s, WriterGo);
    t := s.(writer := Compare(rest, First));
    ReachesMore(origin, t, WriterGo);
    t := s.(writer := High(rest, First));
    ReachesMore(origin, t, WriterGo);
    var k := Min(HighSpace(s.page.head, s.page.tail, |s.page.buf|), |rest|);
    t := s.(writer := Copy(rest[..k], rest[k..]));
  }

  /** The writer copies a chunk, moves head and activates output. */
  lemma PutChunk(origin: State, s: State, chunk: seq<Byte>, rest: seq<Byte>) returns (t: State)
    requires Inv(origin) && Reaches(origin, s) && Inv(s)
    requires s.worker.Rest? && s.writer == Copy(chunk, rest) && !s.registered
    ensures Reaches(origin, t) && Inv(t)
    ensures t == s.(page := MoveHead(CopyIn(s.page, chunk), |chunk|), accepted := s.accepted + chunk,
                    writer := Loop(rest), active := true, work := s.work || !s.active)
  {
    ReachesMore(origin, s, WriterGo);
    t := s.(page := CopyIn(s.page, chunk), writer := Advance(chunk, rest));
    ReachesMore(origin, t, WriterGo);
    t := t.(page := MoveHead(t.page, |chunk|), accepted := s.accepted + chunk, writer := Activate(rest));
    ReachesMore(origin, t, WriterGo);
    t := t.(writer := Loop(rest), active := true, work := s.work || !s.active);
  }

  /** One round of shortp_write's loop with an idle worker and head at or after tail. */
  lemma WriteRound(origin: State, s: State, rest: seq<Byte>) returns (t: State)
    requires Inv(origin) && Reaches(origin, s) && s.page.Ok()
    requires s.worker.Rest? && s.writer == Loop(rest) && rest != [] && !s.registered
    requires s.page.head >= s.page.tail && HighSpace(s.page.head, s.page.tail, |s.page.buf|) > 0
    ensures Reaches(origin, t) && Inv(t)
    ensures var k := Min(HighSpace(s.page.head, s.page.tail, |s.page.buf|), |rest|);
      && t.page.head == Incr(s.page.head, k, |s.page.buf|) && t.page.tail == s.page.tail
      && |t.page.buf| == |s.page.buf|
      && t.writer == Loop(rest[k..]) && !t.registered && t.worker.Rest? && t.active && t.irqs == s.irqs
      && t.work == (s.work || !s.active)
  {
    t := FindRoom(origin, s, rest);
    t := PutChunk(origin, t, t.writer.chunk, t.writer.rest);
  }

  /** The writer finds the ring full twice and is about to register. */
  lemma GiveUpLooking(origin: State, s: State, rest: seq<Byte>) returns (t: State)
    requires Inv(origin) && Reaches(origin, s) && Inv(s)
    requires s.writer == Loop(rest) && rest != [] && !s.registered
    requires s.page.head + 1 == s.page.tail
    ensures Reaches(origin, t) && Inv(t) && t == s.(writer := Register(rest))
  {
    ReachesMore(origin, s, WriterGo);
    t := s.(writer := Compare(rest, First));
    ReachesMore(origin, t, WriterGo);
    t := s.(writer := Low(rest, First));
    ReachesMore(origin, t, WriterGo);
    t := s.(writer := Compare(rest, Unregistered));
    ReachesMore(origin, t, WriterGo);
    t := s.(writer := Low(rest, Unregistered));
    ReachesMore(origin, t, WriterGo);
    t := s.(writer := Register(rest));
  }

  /** The worker empties the ring between the writer's two loads of tail. */
  lemma FallAsleepTooLate(origin: State, s: State, rest: seq<Byte>) returns (t: State)
    requires Inv(origin) && Reaches(origin, s) && Inv(s)
    requires s.writer == Register(rest) && s.worker.Rest? && !s.work && s.irqs == 0 && s.active
    requires s.page.head == 0 && s.page.tail == |s.page.buf| - 1
    ensures Reaches(origin, t) && Inv(t) && Sleeping(t) && t.page.head == t.page.tail
    ensures t.worker.Rest? && !t.work && t.irqs == 0 && t.active && t.timeouts == s.timeouts
  {
    ReachesMore(origin, s, WriterGo);
    t := s.(registered := true, writer := Compare(rest, Registered));
    ReachesMore(origin, t, WriterGo);
    t := s.(registered := true, writer := Low(rest, Registered));
    t := PrintOne(origin, t);
    ReachesMore(origin, t, WriterGo);
    t := Next(t, WriterGo);
  }

  /** With nothing left to print the worker switches output off. */
  lemma SwitchOff(origin: State, s: State) returns (t: State)
    requires Inv(origin) && Reaches(origin, s) && Inv(s)
    requires s.worker.Rest? && !s.work && s.irqs == 0 && s.active && s.page.head == s.page.tail
    ensures Reaches(origin, t) && Inv(t) && t == s.(active := false)
  {
    t := StartWorker(origin, s);
    ReachesMore(origin, t, WorkerGo);
    t := s.(worker := GoIdle);
    ReachesMore(origin, t, WorkerGo);
    t := s.(active := false, worker := Offer);
    ReachesMore(origin, t, WorkerGo);
    t := s.(active := false);
  }

  /** The ring fills up, one byte is printed, one more is accepted, and the writer goes to register. */
  lemma FillUp(buf: seq<Byte>, data: seq<Byte>) returns (t: State)
    requires |buf| >= 3 && |data| == |buf| + 1
    ensures Reaches(Init(buf), t) && Inv(t) && |t.page.buf| == |buf|
    ensures t.writer.Register? && t.worker.Rest? && !t.work && t.irqs == 0 && t.active && !t.registered
    ensures t.page.head == 0 && t.page.tail == 1
  {
    var origin := Init(buf);
    ReachesSelf(origin);
    ReachesMore(origin, origin, Start(data));
    t := WriteRound(origin, origin.(writer := Loop(data)), data);
    ReachesMore(origin, t, WorkerGo);
    t := t.(work := false, worker := Ready);
    ReachesMore(origin, t, WorkerGo);
    t := t.(worker := Check);
    t := StrobeOne(origin, t);
    t := GiveSlotBack(origin, t);
    t := WriteRound(origin, t, data[|buf| - 1..]);
    t := GiveUpLooking(origin, t, data[|buf| - 1..][1..]);
  }

  /** All of the page is free and nothing is under way, yet a writer with bytes left sleeps for ever. */
  ghost predicate Stranded(s: State)
    requires Inv(s)
  {
    && s.writer.Asleep? && s.writer.rest != [] && s.page.Contents() == []
    && !s.active && !s.work && s.irqs == 0 && s.worker.Rest?
    && Doomed(s)
  }

  /**
   For every page size there is a run, with no failure and no signal in it, that ends with all of
   the page free, output switched off, nothing queued, and a writer asleep for ever.
   */
  lemma WakeUpCanBeLost(buf: seq<Byte>, data: seq<Byte>)
    requires |buf| >= 3 && |data| == |buf| + 1
    ensures exists steps: seq<Step> :: NoSignal(steps) && Inv(Run(Init(buf), steps)) && Stranded(Run(Init(buf), steps))
  {
    var origin := Init(buf);
    var t := FillUp(buf, data);
    t := PrintTo(origin, t);
    t := FallAsleepTooLate(origin, t, t.writer.rest);
    t := SwitchOff(origin, t);
    var steps :| NoSignal(steps) && Run(origin, steps) == t;
    RunKeepsInv(origin, steps);
    UsedIsLength(t.page);
    DoomedIffRingEmpty(t);
  }
}
