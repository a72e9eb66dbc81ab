/**
 The output side of shortprint/shortprint.c as a step system: a writer that reads the consumer's
 pointer without the spinlock, a work-queue worker that empties the ring, and the interrupts and
 timeouts that queue the worker.  Pointers are offsets into the page.
 */
module ShortPrint {
  import opened Common

  /** Which call of shortp_out_space is evaluated: the first, wait_event's fast check, or one made while registered. */
  datatype Mode = First | Unregistered | Registered

  /** Where the holder of shortp_out_mutex is; rest is what it still has to write. */
  datatype WriterPc =
    | Free                                     // nobody holds the mutex
    | Loop(rest: seq<Byte>)                    // at the while test
    | Compare(rest: seq<Byte>, mode: Mode)     // about to load tail for head >= tail
    | High(rest: seq<Byte>, mode: Mode)        // saw head >= tail, about to load tail for tail == buffer
    | Low(rest: seq<Byte>, mode: Mode)         // saw head < tail, about to load tail for the subtraction
    | Register(rest: seq<Byte>)                // about to join shortp_out_queue
    | Asleep(rest: seq<Byte>)
    | Copy(chunk: seq<Byte>, rest: seq<Byte>)      // about to copy chunk to head
    | Advance(chunk: seq<Byte>, rest: seq<Byte>)   // about to move head over it
    | Activate(rest: seq<Byte>)                // moved head, about to look at shortp_output_active under the spinlock

  datatype WorkerPc =
    | Rest
    | Ready        // started, about to take the spinlock once the printer is ready
    | Check        // holds the spinlock, about to compare head and tail
    | GoIdle       // saw an empty ring, about to clear shortp_output_active
    | Strobe       // saw a byte, about to send it to the printer
    | MoveTail     // sent it, about to move tail
    | Offer        // about to decide whether to wake the writer, then unlock

  datatype Step =
    | Start(data: seq<Byte>) | WriterGo | WriterSignal | WriterFault
    | WorkerGo
    | IrqEnter | IrqQueue
    | TimerEnter | TimerBusy | TimerFire

  /** The output page and its two pointers. */
  datatype Page = Page(buf: seq<Byte>, head: nat, tail: nat) {
    predicate Ok() {
      |buf| >= 2 && head < |buf| && tail < |buf|
    }

    /** The bytes in the ring, oldest first. */
    function Contents(): seq<Byte>
      requires Ok()
    {
      if tail <= head then buf[tail..head] else buf[tail..] + buf[..head]
    }

    /** How many bytes the ring holds. */
    function Used(): nat
      requires Ok()
    {
      if tail <= head then head - tail else head + |buf| - tail
    }

    /** n bytes fit between head and the end of the page without reaching tail. */
    predicate Fits(n: int)
      requires Ok()
    {
      0 < n && head + n <= |buf| && Used() + n <= |buf| - 1
    }
  }

  datatype State = State(
    page: Page,
    active: bool,
    writer: WriterPc,
    registered: bool,        // the writer is on shortp_out_queue and has not been woken
    worker: WorkerPc,
    work: bool,              // the work item is queued
    irqs: nat,               // interrupt handlers past their test of shortp_output_active
    timeouts: nat,           // timeout handlers past theirs
    accepted: seq<Byte>,     // everything writers have put into the ring
    strobed: seq<Byte>)      // everything sent to the printer
  {
    /** The spinlock is only ever held for long by the worker. */
    predicate SpinHeld() {
      !worker.Rest? && !worker.Ready?
    }
  }

  function Init(buf: seq<Byte>): State {
    State(Page(buf, 0, 0), false, Free, false, Rest, false, 0, 0, [], [])
  }

  /** shortp_out_space once it has decided that head >= tail, from its second load of tail. */
  function HighSpace(head: nat, tail: nat, n: nat): int {
    var space := n - head;
    if tail == 0 then space - 1 else space
  }

  function LowSpace(head: nat, tail: nat): int {
    tail - head - 1
  }

  /** shortp_incr_out_bp */
  function Incr(bp: nat, delta: nat, n: nat): int {
    if bp + delta >= n then bp + delta - n else bp + delta
  }

  /** (PAGE_SIZE + tail - head) % PAGE_SIZE, see FreeModIsRemainder; 0 when the ring is empty. */
  function FreeMod(r: Page): nat
    requires r.Ok()
  {
    if r.tail >= r.head then r.tail - r.head else |r.buf| + r.tail - r.head
  }

  lemma FreeModIsRemainder(r: Page)
    requires r.Ok()
    ensures FreeMod(r) == (|r.buf| + r.tail - r.head) % |r.buf|
  {
    ModOnce(|r.buf| + r.tail - r.head, |r.buf|);
  }

  /** The worker's condition for waking a waiting writer. */
  predicate WakeGuard(r: Page)
    requires r.Ok()
  {
    FreeMod(r) > |r.buf| / 2
  }

  /** copy_from_user into the page, at head. */
  function CopyIn(r: Page, chunk: seq<Byte>): Page
    requires r.head + |chunk| <= |r.buf|
  {
    r.(buf := r.buf[..r.head] + chunk + r.buf[r.head + |chunk|..])
  }

  function MoveHead(r: Page, n: nat): Page {
    r.(head := Incr(r.head, n, |r.buf|))
  }

  function DropTail(r: Page): Page {
    r.(tail := Incr(r.tail, 1, |r.buf|))
  }

  /** What the writer does with a computed amount of space. */
  function WithSpace(s: State, rest: seq<Byte>, mode: Mode, space: int): State {
    if space > 0 then
      var k := Min(space, |rest|);
      s.(registered := false, writer := Copy(rest[..k], rest[k..]))
    else match mode
      case First => s.(writer := Compare(rest, Unregistered))
      case Unregistered => s.(writer := Register(rest))
      case Registered => if s.registered then s.(writer := Asleep(rest)) else s.(writer := Register(rest))
  }

  predicate InRange(s: State) {
    && s.page.Ok()
    && (s.writer.Copy? ==> s.page.head + |s.writer.chunk| <= |s.page.buf|)
  }

  function WriterNext(s: State): State
    requires InRange(s)
  {
    match s.writer
    case Free => s
    case Loop(rest) => s.(writer := if rest == [] then Free else Compare(rest, First))
    case Compare(rest, mode) =>
      s.(writer := if s.page.head >= s.page.tail then High(rest, mode) else Low(rest, mode))
    case High(rest, mode) => WithSpace(s, rest, mode, HighSpace(s.page.head, s.page.tail, |s.page.buf|))
    case Low(rest, mode) => WithSpace(s, rest, mode, LowSpace(s.page.head, s.page.tail))
    case Register(rest) => s.(registered := true, writer := Compare(rest, Registered))
    case Asleep(rest) => if s.registered then s else s.(writer := Register(rest))
    case Copy(chunk, rest) => s.(page := CopyIn(s.page, chunk), writer := Advance(chunk, rest))
    case Advance(chunk, rest) =>
      s.(page := MoveHead(s.page, |chunk|), accepted := s.accepted + chunk, writer := Activate(rest))
    case Activate(rest) =>
      if s.SpinHeld() then s
      else if s.active then s.(writer := Loop(rest))
      else s.(active := true, work := true, writer := Loop(rest))
  }

  function WorkerNext(s: State): State
    requires s.page.Ok()
  {
    match s.worker
    case Rest => if s.work then s.(work := false, worker := Ready) else s
    case Ready => s.(worker := Check)
    case Check => s.(worker := if s.page.head == s.page.tail then GoIdle else Strobe)
    case GoIdle => s.(active := false, worker := Offer)
    case Strobe => s.(strobed := s.strobed + [s.page.buf[s.page.tail]], worker := MoveTail)
    case MoveTail => s.(page := DropTail(s.page), worker := Offer)
    case Offer => s.(registered := s.registered && !WakeGuard(s.page), worker := Rest)
  }

  /** One step; a step that is not enabled leaves the state as it is. */
  function Next(s: State, step: Step): State
    requires InRange(s)
  {
    match step
    case Start(data) => if s.writer.Free? then s.(writer := Loop(data)) else s
    case WriterGo => WriterNext(s)
    case WriterSignal => if s.writer.Register? || s.writer.Asleep? then s.(registered := false, writer := Free) else s
    case WriterFault => if s.writer.Copy? then s.(writer := Free) else s
    case WorkerGo => WorkerNext(s)
    case IrqEnter => if s.active then s.(irqs := s.irqs + 1) else s
    case IrqQueue => if s.irqs > 0 then s.(irqs := s.irqs - 1, work := true) else s
    case TimerEnter => if s.active then s.(timeouts := s.timeouts + 1) else s
    case TimerBusy => if s.timeouts > 0 && !s.SpinHeld() then s.(timeouts := s.timeouts - 1) else s
    case TimerFire =>
      if s.timeouts == 0 || s.SpinHeld() then s
      else s.(timeouts := s.timeouts - 1, irqs := if s.active then s.irqs + 1 else s.irqs)
  }

  // ----- The invariant -----

  /** What the writer's unlocked loads still guarantee, however far the worker has moved tail since. */
  predicate WriterSafe(pc: WriterPc, r: Page)
    requires r.Ok()
  {
    match pc
    case Free => true
    case Loop(_) => true
    case Activate(_) => true
    case High(rest, _) => r.tail <= r.head && rest != []
    case Copy(chunk, _) => r.Fits(|chunk|)
    case Advance(chunk, _) => r.Fits(|chunk|) && r.buf[r.head..r.head + |chunk|] == chunk
    case _ => pc.rest != []
  }

  /** The worker strobes and drops only bytes that are there. */
  predicate WorkerSafe(pc: WorkerPc, strobed: seq<Byte>, r: Page)
    requires r.Ok()
  {
    && (pc.Strobe? || pc.MoveTail? ==> r.head != r.tail)
    && (pc.MoveTail? ==> strobed != [] && strobed[|strobed| - 1] == r.buf[r.tail])
  }

  /** What has left the ring: everything strobed, except a byte whose slot has not been given back yet. */
  function Released(worker: WorkerPc, strobed: seq<Byte>): seq<Byte> {
    if worker.MoveTail? && strobed != [] then strobed[..|strobed| - 1] else strobed
  }

  predicate DataInv(s: State)
    requires s.page.Ok()
  {
    Released(s.worker, s.strobed) + s.page.Contents() == s.accepted
  }

  /** The part of the invariant that is about bytes. */
  predicate BytesInv(s: State) {
    InRange(s) && WriterSafe(s.writer, s.page) && WorkerSafe(s.worker, s.strobed, s.page) && DataInv(s)
  }

  /** A byte in the ring is somebody's business: output is active, or a writer is about to activate it. */
  predicate OwnerInv(s: State) {
    s.page.head != s.page.tail && !s.writer.Activate? ==> s.active && !s.worker.GoIdle?
  }

  /** The worker has nothing to tell a waiting writer, or is about to tell it. */
  predicate NoWakeMissed(s: State)
    requires s.page.Ok()
  {
    !WakeGuard(s.page) || s.worker.Offer?
  }

  predicate WaitInv(s: State)
    requires s.page.Ok()
  {
    && (s.registered ==>
          s.writer.Asleep? || ((s.writer.Compare? || s.writer.High? || s.writer.Low?) && s.writer.mode.Registered?))
    && (s.registered && s.writer.Low? ==> NoWakeMissed(s) || s.page.tail > s.page.head)
    && (s.registered && s.writer.Asleep? ==> NoWakeMissed(s))
  }

  predicate Inv(s: State) {
    BytesInv(s) && OwnerInv(s) && WaitInv(s)
  }

  lemma UsedIsLength(r: Page)
    requires r.Ok()
    ensures r.Used() == |r.Contents()|
  {
  }

  /** The wake condition means: the ring is not empty and more than half of the page is free. */
  lemma WakeGuardMeans(r: Page)
    requires r.Ok()
    ensures WakeGuard(r) <==> r.Used() > 0 && |r.buf| - r.Used() > |r.buf| / 2
  {
  }

  /** Copying into the space after head leaves the ring's bytes alone. */
  lemma CopyKeepsContents(r: Page, chunk: seq<Byte>)
    requires r.Ok() && r.Fits(|chunk|)
    ensures var r' := CopyIn(r, chunk);
      && r'.Ok() && r'.Contents() == r.Contents() && r'.Fits(|chunk|)
      && r'.buf[r.head..r.head + |chunk|] == chunk
      && (r.head != r.tail ==> r'.buf[r.tail] == r.buf[r.tail])
  {
    var b := CopyIn(r, chunk).buf;
    assert b[..r.head] == r.buf[..r.head];
    if r.tail <= r.head {
      assert b[r.tail..r.head] == r.buf[r.tail..r.head];
    } else {
      assert b[r.tail..] == r.buf[r.tail..];
    }
  }

  /** Moving head over n bytes that fit appends them. */
  lemma AdvanceAppends(r: Page, n: nat)
    requires r.Ok() && r.Fits(n)
    ensures var r' := MoveHead(r, n);
      r'.Ok() && r'.head != r'.tail && r'.Contents() == r.Contents() + r.buf[r.head..r.head + n]
  {
    if r.tail <= r.head {
      assert r.buf[r.tail..r.head] + r.buf[r.head..r.head + n] == r.buf[r.tail..r.head + n];
    } else {
      assert r.buf[..r.head] + r.buf[r.head..r.head + n] == r.buf[..r.head + n];
    }
  }

  /** Moving tail removes the oldest byte. */
  lemma DropTailDrops(r: Page)
    requires r.Ok() && r.head != r.tail
    ensures var r' := DropTail(r);
      && r'.Ok() && r.Contents() == [r.buf[r.tail]] + r'.Contents() && r'.Used() == r.Used() - 1
      && (r.tail <= r.head ==> r'.tail <= r'.head)
  {
  }

  /** shortp_out_space as the writer computes it from its last load of tail. */
  function Space(s: State): int
    requires s.writer.High? || s.writer.Low?
  {
    if s.writer.High? then HighSpace(s.page.head, s.page.tail, |s.page.buf|) else LowSpace(s.page.head, s.page.tail)
  }

  /** Whatever tail is by the time space has been computed, a positive result fits. */
  lemma SpaceFits(s: State, n: nat)
    requires s.page.Ok() && WriterSafe(s.writer, s.page) && (s.writer.High? || s.writer.Low?)
    requires 0 < n <= Space(s)
    ensures s.page.Fits(n)
  {
  }

  lemma CopyKeepsBytes(s: State)
    requires BytesInv(s) && s.writer.Copy?
    ensures BytesInv(WriterNext(s))
  {
    CopyKeepsContents(s.page, s.writer.chunk);
    assert WriterNext(s).page == CopyIn(s.page, s.writer.chunk);
  }

  lemma AdvanceKeepsBytes(s: State)
    requires BytesInv(s) && s.writer.Advance?
    ensures BytesInv(WriterNext(s))
  {
    AdvanceAppends(s.page, |s.writer.chunk|);
    assert WriterNext(s).page == MoveHead(s.page, |s.writer.chunk|);
    Regroup(Released(s.worker, s.strobed), s.page.Contents(), s.writer.chunk);
  }

  lemma SpaceKeepsBytes(s: State)
    requires BytesInv(s) && (s.writer.High? || s.writer.Low?)
    ensures BytesInv(WriterNext(s))
  {
    var s' := WriterNext(s);
    assert s' == WithSpace(s, s.writer.rest, s.writer.mode, Space(s));
    assert s'.page == s.page && s'.accepted == s.accepted && s'.strobed == s.strobed && s'.worker == s.worker;
    if Space(s) > 0 {
      SpaceFits(s, Min(Space(s), |s.writer.rest|));
      assert |s'.writer.chunk| == Min(Space(s), |s.writer.rest|);
    }
  }

  lemma WriterKeepsBytes(s: State)
    requires BytesInv(s)
    ensures BytesInv(WriterNext(s))
  {
    if s.writer.Copy? {
      CopyKeepsBytes(s);
    } else if s.writer.Advance? {
      AdvanceKeepsBytes(s);
    } else if s.writer.High? || s.writer.Low? {
      SpaceKeepsBytes(s);
    } else {
      assert WriterNext(s).page == s.page && WriterNext(s).accepted == s.accepted;
    }
  }

  lemma WriterKeepsOwner(s: State)
    requires InRange(s) && WriterSafe(s.writer, s.page) && OwnerInv(s)
    ensures OwnerInv(WriterNext(s))
  {
  }

  lemma WriterKeepsWait(s: State)
    requires InRange(s) && WriterSafe(s.writer, s.page) && WaitInv(s)
    ensures WriterNext(s).page.Ok() && WaitInv(WriterNext(s))
  {
  }

  lemma DropKeepsBytes(s: State)
    requires BytesInv(s) && s.worker.MoveTail?
    ensures BytesInv(WorkerNext(s))
  {
    var oldest := [s.page.buf[s.page.tail]];
    DropTailDrops(s.page);
    assert s.strobed == Released(MoveTail, s.strobed) + oldest;
    Regroup(Released(MoveTail, s.strobed), oldest, DropTail(s.page).Contents());
    assert WorkerNext(s).page == DropTail(s.page);
  }

  lemma StrobeKeepsBytes(s: State)
    requires BytesInv(s) && s.worker.Strobe?
    ensures BytesInv(WorkerNext(s))
  {
    var sent := s.strobed + [s.page.buf[s.page.tail]];
    assert sent[..|sent| - 1] == s.strobed;
    assert WorkerNext(s) == s.(strobed := sent, worker := MoveTail);
  }

  lemma WorkerKeepsBytes(s: State)
    requires BytesInv(s)
    ensures BytesInv(WorkerNext(s))
  {
    if s.worker.MoveTail? {
      DropKeepsBytes(s);
    } else if s.worker.Strobe? {
      StrobeKeepsBytes(s);
    } else {
      assert WorkerNext(s).page == s.page && WorkerNext(s).strobed == s.strobed;
    }
  }

  lemma WorkerKeepsOwner(s: State)
    requires s.page.Ok() && OwnerInv(s) && WorkerSafe(s.worker, s.strobed, s.page)
    ensures OwnerInv(WorkerNext(s))
  {
  }

  lemma WorkerKeepsWait(s: State)
    requires s.page.Ok() && WaitInv(s) && WorkerSafe(s.worker, s.strobed, s.page)
    ensures WorkerNext(s).page.Ok() && WaitInv(WorkerNext(s))
  {
  }

  lemma WriterKeepsInv(s: State)
    requires Inv(s)
    ensures Inv(WriterNext(s)) && |WriterNext(s).page.buf| == |s.page.buf|
  {
    WriterKeepsBytes(s);
    WriterKeepsOwner(s);
    WriterKeepsWait(s);
  }

  lemma WorkerKeepsInv(s: State)
    requires Inv(s)
    ensures Inv(WorkerNext(s)) && |WorkerNext(s).page.buf| == |s.page.buf|
  {
    WorkerKeepsBytes(s);
    WorkerKeepsOwner(s);
    WorkerKeepsWait(s);
  }

  /** Every step, whoever takes it, keeps the invariant. */
  lemma StepKeepsInv(s: State, step: Step)
    requires Inv(s)
    ensures Inv(Next(s, step)) && |Next(s, step).page.buf| == |s.page.buf|
  {
    if step.WriterGo? {
      WriterKeepsInv(s);
      assert Next(s, step) == WriterNext(s);
    } else if step.WorkerGo? {
      WorkerKeepsInv(s);
      assert Next(s, step) == WorkerNext(s);
    } else {
      assert Next(s, step).page == s.page && Next(s, step).worker == s.worker;
    }
  }

  /** The state after any interleaved sequence of steps. */
  function Run(s: State, steps: seq<Step>): State
    requires Inv(s)
    decreases |steps|
  {
    if steps == [] then s
    else
      StepKeepsInv(s, steps[0]);
      Run(Next(s, steps[0]), steps[1..])
  }

  lemma {:induction false} RunKeepsInv(s: State, steps: seq<Step>)
    requires Inv(s)
    ensures Inv(Run(s, steps)) && |Run(s, steps).page.buf| == |s.page.buf|
    decreases |steps|
  {
    if steps != [] {
      StepKeepsInv(s, steps[0]);
      RunKeepsInv(Next(s, steps[0]), steps[1..]);
    }
  }

  // ----- Main results, for every run -----

  /** The space computed from unlocked loads is free when it is used: head never catches tail from behind. */
  lemma UnlockedSpaceIsFree(buf: seq<Byte>, steps: seq<Step>)
    requires |buf| >= 2
    ensures var s := Run(Init(buf), steps); s.page.Ok() && (s.writer.Copy? ==>
      && s.page.head + |s.writer.chunk| <= |buf|
      && |s.page.Contents()| + |s.writer.chunk| <= |buf| - 1)
  {
    RunKeepsInv(Init(buf), steps);
    UsedIsLength(Run(Init(buf), steps).page);
  }

  /** Bytes strobed followed by bytes in the ring are the bytes accepted, in order. */
  lemma NothingLostOrReordered(buf: seq<Byte>, steps: seq<Step>)
    requires |buf| >= 2
    ensures var s := Run(Init(buf), steps);
      && s.page.Ok()
      && if s.worker.MoveTail? then s.page.Contents() != [] && s.strobed + s.page.Contents()[1..] == s.accepted
         else s.strobed + s.page.Contents() == s.accepted
  {
    var s := Run(Init(buf), steps);
    RunKeepsInv(Init(buf), steps);
    if s.worker.MoveTail? {
      var r := Released(s.worker, s.strobed);
      assert s.strobed == r + [s.page.Contents()[0]];
      assert s.page.Contents() == [s.page.Contents()[0]] + s.page.Contents()[1..];
      Regroup(r, [s.page.Contents()[0]], s.page.Contents()[1..]);
    }
  }

  /** Output never stalls unowned, and an inactive device with no writer about to activate it has printed everything. */
  lemma OutputIsOwned(buf: seq<Byte>, steps: seq<Step>)
    requires |buf| >= 2
    ensures var s := Run(Init(buf), steps);
      && s.page.Ok() && (s.page.Contents() != [] ==> s.active || s.writer.Activate?)
      && (!s.active && !s.writer.Activate? ==> s.strobed == s.accepted)
  {
    var s := Run(Init(buf), steps);
    RunKeepsInv(Init(buf), steps);
    UsedIsLength(s.page);
    if !s.active && !s.writer.Activate? {
      assert s.page.Contents() == [] && !s.worker.MoveTail?;
    }
  }
}
