/**
 The sleep and wake-up protocol of scull/pipe.c as a step system.  Any number of processes call
 scull_p_read and scull_p_write; between two steps of one process any others may run.  A wait
 queue holds the processes that are registered on it and have not been woken.
 */
module PipeProtocol {
  import opened Common
  import opened PipeRing

  datatype Op = Read(count: nat) | Write(data: seq<Byte>)

  datatype Pc =
    | Idle
    | Acquire(op: Op)          // about to take the mutex
    | Test(op: Op)             // holds the mutex, at the while test
    | Blocked(op: Op)          // dropped the mutex because the test failed
    | Enqueue(op: Op)          // about to register on the wait queue
    | Look(op: Op)             // about to re-check the condition without the mutex
    | SawRp(op: Op, v: nat)    // loaded rp, about to load wp
    | SawWp(op: Op, v: nat)    // loaded wp, about to load rp
    | Asleep(op: Op)           // gave up the processor
    | Move(op: Op)             // holds the mutex, there is something to move
    | Wrap(op: Op)             // advanced its pointer, about to wrap it and unlock
    | Wake(op: Op)             // dropped the mutex, about to wake the other side

  datatype Choice = Call(op: Op) | Go | WpFirst | NoBlock | Signal | Fault

  datatype Act = Act(pid: nat, choice: Choice)

  datatype State = State(
    ring: Ring,
    lock: Option<nat>,
    inq: set<nat>,
    outq: set<nat>,
    procs: map<nat, Pc>,
    written: seq<Byte>,
    delivered: seq<Byte>)
  {
    function Pc(p: nat): Pc {
      if p in procs then procs[p] else Idle
    }

    function Goto(p: nat, pc: Pc): State {
      this.(procs := procs[p := pc])
    }

    function Join(p: nat, op: Op): State {
      if op.Read? then this.(inq := inq + {p}) else this.(outq := outq + {p})
    }

    /** finish_wait: leaving a queue one has already been removed from is harmless. */
    function Leave(p: nat, op: Op): State {
      if op.Read? then this.(inq := inq - {p}) else this.(outq := outq - {p})
    }

    predicate Queued(p: nat, op: Op) {
      if op.Read? then p in inq else p in outq
    }
  }

  /** A device just opened with a buffer of the given contents and nobody inside. */
  function Init(buf: seq<Byte>): (s: State)
    requires |buf| >= 1
    ensures Inv(s)
  {
    State(EmptyRing(buf), None, {}, {}, map[], [], [])
  }

  /** The condition that makes a caller wait, computed from two pointer loads. */
  predicate LooksBlocked(op: Op, rp: nat, wp: nat, n: nat)
    requires n > 0
  {
    if op.Read? then rp == wp else SpaceFreeOf(rp, wp, n) == 0
  }

  /**
   The end of an unlocked re-check.  If the condition looks false the caller goes back for the
   mutex; otherwise it sleeps if it is still registered, and retries if it is not: because a
   wake-up has already arrived, or because this was wait_event's look before registering.
   */
  function Decide(s: State, p: nat, op: Op, rp: nat, wp: nat): State
    requires |s.ring.buf| > 0
  {
    if !LooksBlocked(op, rp, wp, |s.ring.buf|) then s.Leave(p, op).Goto(p, Acquire(op))
    else if s.Queued(p, op) then s.Goto(p, Asleep(op))
    else s.Goto(p, Woken(op))
  }

  /** Where a process continues after schedule() returns: wait_event registers again, scull_getwritespace relocks. */
  function Woken(op: Op): Pc {
    if op.Read? then Enqueue(op) else Acquire(op)
  }

  /** The pointer move of the process that holds the mutex. */
  function Transfer(s: State, p: nat, op: Op): State
    requires s.ring.Settled() && !LooksBlocked(op, s.ring.rp, s.ring.wp, |s.ring.buf|)
  {
    match op
    case Read(count) =>
      var k := ReadCount(s.ring, count);
      ReadRefinesQueue(s.ring, count);
      s.(ring := AdvanceRead(s.ring, count), delivered := s.delivered + s.ring.buf[s.ring.rp..s.ring.rp + k])
      .Goto(p, Wrap(op))
    case Write(data) =>
      FreeIs(s.ring);
      var k := WriteCount(s.ring, |data|);
      s.(ring := AdvanceWrite(s.ring, data), written := s.written + data[..k]).Goto(p, Wrap(op))
  }

  /** What step p relies on: pointers inside the buffer, and something to move once the test has passed. */
  predicate Sound(s: State, p: nat) {
    && s.ring.Ok()
    && (s.Pc(p).Test? || s.Pc(p).Move? ==> s.ring.Settled())
    && (s.Pc(p).Move? ==> !LooksBlocked(s.Pc(p).op, s.ring.rp, s.ring.wp, |s.ring.buf|))
  }

  /** One step of process p; a choice its program counter does not allow leaves the state as it is. */
  function Next(s: State, p: nat, c: Choice): State
    requires Sound(s, p)
  {
    match s.Pc(p)
    case Idle =>
      if c.Call? then s.Goto(p, Acquire(c.op)) else s
    case Acquire(op) =>
      if c.Signal? then s.Goto(p, Idle)
      else if c.Go? && s.lock.None? then s.(lock := Some(p)).Goto(p, Test(op))
      else s
    case Test(op) =>
      if !c.Go? then s
      else if LooksBlocked(op, s.ring.rp, s.ring.wp, |s.ring.buf|) then s.(lock := None).Goto(p, Blocked(op))
      else s.Goto(p, Move(op))
    case Blocked(op) =>
      if c.NoBlock? then s.Goto(p, Idle)
      else if c.Go? then s.Goto(p, if op.Read? then Look(op) else Enqueue(op))
      else s
    case Enqueue(op) =>
      if c.Signal? then s.Goto(p, Idle)
      else if c.Go? then s.Join(p, op).Goto(p, Look(op))
      else s
    case Look(op) =>
      if c.Go? then s.Goto(p, SawRp(op, s.ring.rp))
      else if c.WpFirst? then s.Goto(p, SawWp(op, s.ring.wp))
      else s
    case SawRp(op, v) =>
      if c.Go? then Decide(s, p, op, v, s.ring.wp) else s
    case SawWp(op, v) =>
      if c.Go? then Decide(s, p, op, s.ring.rp, v) else s
    case Asleep(op) =>
      if c.Signal? then s.Leave(p, op).Goto(p, Idle)
      else if c.Go? && !s.Queued(p, op) then s.Goto(p, Woken(op))
      else s
    case Move(op) =>
      if c.Fault? then s.(lock := None).Goto(p, Idle)
      else if c.Go? then Transfer(s, p, op)
      else s
    case Wrap(op) =>
      if c.Go? then
        s.(ring := if op.Read? then WrapRead(s.ring) else WrapWrite(s.ring), lock := None).Goto(p, Wake(op))
      else s
    case Wake(op) =>
      if !c.Go? then s
      else if op.Read? then s.(outq := {}).Goto(p, Idle)
      else s.(inq := {}).Goto(p, Idle)
  }

  // ----- The invariant -----

  predicate HoldsLock(pc: Pc) {
    pc.Test? || pc.Move? || pc.Wrap?
  }

  /** What the program counter of process p says about the mutex and the pointers. */
  predicate LockedRightly(s: State, p: nat)
    requires s.ring.Ok()
  {
    var pc := s.Pc(p);
    && (HoldsLock(pc) <==> s.lock == Some(p))
    && (pc.Test? || pc.Move? ==> s.ring.Settled())
    && (pc.Move? ==> !LooksBlocked(pc.op, s.ring.rp, s.ring.wp, |s.ring.buf|))
    && (pc.Wrap? ==> if pc.op.Read? then s.ring.wp < |s.ring.buf| else s.ring.rp < |s.ring.buf|)
  }

  /** The mutex is held by exactly the process inside a critical section; pointers leave the buffer only there. */
  ghost predicate LockInv(s: State) {
    && s.ring.Ok()
    && (s.lock.None? ==> s.ring.Settled())
    && (forall p: nat :: LockedRightly(s, p))
  }

  predicate Waiting(pc: Pc) {
    pc.Look? || pc.SawRp? || pc.SawWp? || pc.Asleep?
  }

  predicate QueuedRightly(s: State, p: nat) {
    && (p in s.inq ==> Waiting(s.Pc(p)) && s.Pc(p).op.Read?)
    && (p in s.outq ==> Waiting(s.Pc(p)) && s.Pc(p).op.Write?)
  }

  /** Only waiting readers are on inq and only waiting writers on outq. */
  ghost predicate QueueInv(s: State) {
    forall p: nat :: QueuedRightly(s, p)
  }

  /** Process p has advanced its pointer and still owes the other side a wake-up. */
  predicate OwesWake(pc: Pc, reader: bool) {
    (pc.Wrap? || pc.Wake?) && pc.op.Read? == reader
  }

  ghost predicate WakePending(s: State, reader: bool) {
    exists q: nat :: OwesWake(s.Pc(q), reader)
  }

  predicate Full(r: Ring)
    requires r.Ok()
  {
    |r.Contents()| == |r.buf| - 1
  }

  /** What a registered reader may rely on while no writer owes a wake-up. */
  predicate ReaderWaitsRightly(pc: Pc, r: Ring)
    requires r.Ok()
  {
    match pc
    case SawRp(_, v) => r.Contents() == [] || r.wp != v
    case SawWp(_, v) => r.wp == v
    case Asleep(_) => r.Contents() == []
    case _ => true
  }

  /** What a registered writer may rely on while no reader owes a wake-up. */
  predicate WriterWaitsRightly(pc: Pc, r: Ring)
    requires r.Ok()
  {
    match pc
    case SawRp(_, v) => r.rp == v
    case SawWp(_, v) => Full(r) || r.rp == v || SpaceFreeOf(r.rp, v, |r.buf|) != 0
    case Asleep(_) => Full(r)
    case _ => true
  }

  ghost predicate SleepInv(s: State)
    requires s.ring.Ok()
  {
    && (!WakePending(s, false) ==> forall p: nat :: p in s.inq ==> ReaderWaitsRightly(s.Pc(p), s.ring))
    && (!WakePending(s, true) ==> forall p: nat :: p in s.outq ==> WriterWaitsRightly(s.Pc(p), s.ring))
  }

  /** Bytes handed out followed by bytes held are the bytes accepted. */
  ghost predicate DataInv(s: State)
    requires s.ring.Ok()
  {
    s.delivered + s.ring.Contents() == s.written
  }

  ghost predicate Inv(s: State) {
    LockInv(s) && QueueInv(s) && SleepInv(s) && DataInv(s)
  }

  lemma ReadMovesBytes(r: Ring, count: nat, delivered: seq<Byte>, written: seq<Byte>)
    requires r.Settled() && r.rp != r.wp && delivered + r.Contents() == written
    ensures var k, r' := ReadCount(r, count), AdvanceRead(r, count);
      && r'.Ok() && r'.buf == r.buf && r'.wp == r.wp && r.rp + k <= |r.buf|
      && delivered + r.buf[r.rp..r.rp + k] + r'.Contents() == written
  {
    var k, c := ReadCount(r, count), r.Contents();
    ReadRefinesQueue(r, count);
    assert c[..k] + c[k..] == c;
    Regroup(delivered, c[..k], c[k..]);
  }

  lemma WriteMovesBytes(r: Ring, data: seq<Byte>, delivered: seq<Byte>, written: seq<Byte>)
    requires r.Settled() && |r.Contents()| < |r.buf| - 1 && delivered + r.Contents() == written
    ensures var k, r' := WriteCount(r, |data|), AdvanceWrite(r, data);
      && r'.Ok() && |r'.buf| == |r.buf| && r'.rp == r.rp && k <= |data|
      && delivered + r'.Contents() == written + data[..k]
  {
    var k, c := WriteCount(r, |data|), r.Contents();
    WriteRefinesQueue(r, data);
    Regroup(delivered, c, data[..k]);
  }

  /** A transfer moves bytes between the ring and the histories without losing or reordering any. */
  lemma TransferKeepsData(s: State, p: nat, op: Op)
    requires s.ring.Settled() && !LooksBlocked(op, s.ring.rp, s.ring.wp, |s.ring.buf|) && DataInv(s)
    ensures var r := Transfer(s, p, op).ring;
      r.Ok() && |r.buf| == |s.ring.buf| && (if op.Read? then r.wp == s.ring.wp else r.rp == s.ring.rp)
    ensures DataInv(Transfer(s, p, op))
  {
    var r, t := s.ring, Transfer(s, p, op);
    match op
    case Read(count) =>
      ReadMovesBytes(r, count, s.delivered, s.written);
      assert t.ring == AdvanceRead(r, count) && t.written == s.written;
      assert t.delivered == s.delivered + r.buf[r.rp..r.rp + ReadCount(r, count)];
    case Write(data) =>
      FreeIs(r);
      WriteMovesBytes(r, data, s.delivered, s.written);
      assert t.ring == AdvanceWrite(r, data) && t.delivered == s.delivered;
  }

  /** What a step does to the ring and to the histories. */
  lemma StepKeepsData(s: State, p: nat, c: Choice)
    requires s.ring.Ok() && LockedRightly(s, p) && DataInv(s)
    ensures Sound(s, p)
    ensures var s' := Next(s, p, c);
      && s'.ring.Ok() && DataInv(s') && |s'.ring.buf| == |s.ring.buf|
      && (!HoldsLock(s.Pc(p)) ==> s'.ring == s.ring)
      && (s.Pc(p).Test? ==> s'.ring == s.ring)
      && (s.Pc(p).Move? ==> if s.Pc(p).op.Read? then s'.ring.wp == s.ring.wp else s'.ring.rp == s.ring.rp)
      && (s.Pc(p).Wrap? && c.Go? ==> s'.ring.Settled())
      && (s.Pc(p).Wrap? ==> s'.ring.Contents() == s.ring.Contents())
  {
    match s.Pc(p)
    case Move(op) => if c.Go? { TransferKeepsData(s, p, op); }
    case Wrap(op) => WrapKeepsContents(s.ring);
    case _ =>
  }

  lemma StepKeepsOwnLock(s: State, p: nat, c: Choice)
    requires s.ring.Ok() && (s.lock.None? ==> s.ring.Settled())
    requires LockedRightly(s, p) && DataInv(s)
    ensures Sound(s, p)
    ensures var s' := Next(s, p, c); s'.ring.Ok() && (s'.lock.None? ==> s'.ring.Settled()) && LockedRightly(s', p)
  {
    StepKeepsData(s, p, c);
  }

  lemma StepKeepsOtherLock(s: State, p: nat, c: Choice, q: nat)
    requires s.ring.Ok() && (s.lock.None? ==> s.ring.Settled()) && p != q
    requires LockedRightly(s, p) && LockedRightly(s, q) && DataInv(s)
    ensures Sound(s, p)
    ensures var s' := Next(s, p, c); s'.ring.Ok() && LockedRightly(s', q)
  {
    StepKeepsData(s, p, c);
  }

  lemma StepKeepsQueueOf(s: State, p: nat, c: Choice, q: nat)
    requires Sound(s, p) && QueuedRightly(s, p) && QueuedRightly(s, q)
    ensures QueuedRightly(Next(s, p, c), q)
  {
  }

  /** A pending wake-up disappears only by being delivered; while none is pending that side's pointer stands still. */
  lemma StepOnWakes(s: State, p: nat, c: Choice, reader: bool)
    requires LockInv(s) && DataInv(s) && Sound(s, p) && !WakePending(Next(s, p, c), reader)
    ensures var s' := Next(s, p, c);
      || (if reader then s'.outq == {} else s'.inq == {})
      || (!WakePending(s, reader) && (if reader then s'.ring.rp == s.ring.rp else s'.ring.wp == s.ring.wp))
  {
    var s' := Next(s, p, c);
    assert LockedRightly(s, p);
    StepKeepsData(s, p, c);
    assert !OwesWake(s'.Pc(p), reader);
    if WakePending(s, reader) {
      var q: nat :| OwesWake(s.Pc(q), reader);
      assert q != p ==> OwesWake(s'.Pc(q), reader);
    } else {
      assert !OwesWake(s.Pc(p), reader);
    }
  }

  /** With no writer owing a wake-up, a step keeps every registered reader's right to wait. */
  lemma StepKeepsReader(s: State, p: nat, c: Choice, q: nat)
    requires Inv(s) && Sound(s, p) && Next(s, p, c).ring.Ok()
    requires !WakePending(s, false) && !WakePending(Next(s, p, c), false)
    requires q in Next(s, p, c).inq && Next(s, p, c).ring.wp == s.ring.wp
    ensures ReaderWaitsRightly(Next(s, p, c).Pc(q), Next(s, p, c).ring)
  {
    assert LockedRightly(s, p) && QueuedRightly(s, p) && QueuedRightly(s, q);
    StepKeepsData(s, p, c);
    assert !OwesWake(s.Pc(p), false) && !OwesWake(Next(s, p, c).Pc(p), false);
    if q == p && s.Pc(p).Look? {
      assert s.ring.wp < |s.ring.buf| by { WriterPointerSettled(s); }
    }
  }

  /** The write pointer is outside the buffer only while a writer owes a wake-up, and likewise for readers. */
  lemma WriterPointerSettled(s: State)
    requires LockInv(s) && !WakePending(s, false)
    ensures s.ring.wp < |s.ring.buf|
  {
    if s.lock.Some? {
      assert LockedRightly(s, s.lock.value);
      assert !OwesWake(s.Pc(s.lock.value), false);
    }
  }

  lemma ReaderPointerSettled(s: State)
    requires LockInv(s) && !WakePending(s, true)
    ensures s.ring.rp < |s.ring.buf|
  {
    if s.lock.Some? {
      assert LockedRightly(s, s.lock.value);
      assert !OwesWake(s.Pc(s.lock.value), true);
    }
  }

  /** One load of each pointer tells full from not full even while a writer is wrapping. */
  lemma FullFromLoads(r: Ring)
    requires r.Ok() && r.rp < |r.buf|
    ensures SpaceFreeOf(r.rp, r.wp, |r.buf|) == 0 ==> Full(r)
  {
    if r.rp != r.wp {
      ModOnce(r.rp + |r.buf| - r.wp, |r.buf|);
    }
  }

  /** With no reader owing a wake-up, a step keeps every registered writer's right to wait. */
  lemma StepKeepsWriter(s: State, p: nat, c: Choice, q: nat)
    requires Inv(s) && Sound(s, p) && Next(s, p, c).ring.Ok()
    requires !WakePending(s, true) && !WakePending(Next(s, p, c), true)
    requires q in Next(s, p, c).outq && Next(s, p, c).ring.rp == s.ring.rp
    ensures WriterWaitsRightly(Next(s, p, c).Pc(q), Next(s, p, c).ring)
  {
    var s' := Next(s, p, c);
    assert LockedRightly(s, p) && QueuedRightly(s, p) && QueuedRightly(s, q);
    StepKeepsData(s, p, c);
    assert !OwesWake(s.Pc(p), true) && !OwesWake(s'.Pc(p), true);
    ReaderPointerSettled(s);
    FullFromLoads(s.ring);
    if s.Pc(p).Move? {
      FreeIs(s.ring);
    }
  }

  /** Every step, whoever takes it and whatever it chooses, keeps the invariant. */
  lemma StepKeepsInv(s: State, p: nat, c: Choice)
    requires Inv(s)
    ensures Sound(s, p) && Inv(Next(s, p, c))
  {
    assert LockedRightly(s, p) && QueuedRightly(s, p);
    var s' := Next(s, p, c);
    StepKeepsData(s, p, c);
    StepKeepsOwnLock(s, p, c);
    forall q: nat ensures LockedRightly(s', q) && QueuedRightly(s', q) {
      assert LockedRightly(s, q) && QueuedRightly(s, q);
      if q != p { StepKeepsOtherLock(s, p, c, q); }
      StepKeepsQueueOf(s, p, c, q);
    }
    if !WakePending(s', false) {
      StepOnWakes(s, p, c, false);
      forall q: nat | q in s'.inq ensures ReaderWaitsRightly(s'.Pc(q), s'.ring) {
        StepKeepsReader(s, p, c, q);
      }
    }
    if !WakePending(s', true) {
      StepOnWakes(s, p, c, true);
      forall q: nat | q in s'.outq ensures WriterWaitsRightly(s'.Pc(q), s'.ring) {
        StepKeepsWriter(s, p, c, q);
      }
    }
  }

  /** The state after any interleaved sequence of steps. */
  ghost function Run(s: State, acts: seq<Act>): State
    requires Inv(s)
    decreases |acts|
  {
    if acts == [] then s
    else
      StepKeepsInv(s, acts[0].pid, acts[0].choice);
      Run(Next(s, acts[0].pid, acts[0].choice), acts[1..])
  }

  lemma {:induction false} RunKeepsInv(s: State, acts: seq<Act>)
    requires Inv(s)
    ensures Inv(Run(s, acts)) && |Run(s, acts).ring.buf| == |s.ring.buf|
    decreases |acts|
  {
    if acts != [] {
      var a := acts[0];
      assert LockedRightly(s, a.pid);
      StepKeepsInv(s, a.pid, a.choice);
      StepKeepsData(s, a.pid, a.choice);
      RunKeepsInv(Next(s, a.pid, a.choice), acts[1..]);
    }
  }

  // ----- Main results, for every run of any number of processes -----

  /** A process asleep on a queue whose condition has become true is about to be woken. */
  lemma NoLostWakeUp(buf: seq<Byte>, acts: seq<Act>, p: nat)
    requires |buf| >= 1
    ensures var s := Run(Init(buf), acts);
      && s.ring.Ok()
      && (s.Pc(p).Asleep? && p in s.inq && s.ring.Contents() != [] ==> exists q: nat :: OwesWake(s.Pc(q), false))
      && (s.Pc(p).Asleep? && p in s.outq && |s.ring.Contents()| < |buf| - 1 ==>
          exists q: nat :: OwesWake(s.Pc(q), true))
  {
    var s := Run(Init(buf), acts);
    RunKeepsInv(Init(buf), acts);
    assert QueuedRightly(s, p);
    if s.Pc(p).Asleep? && p in s.inq && !WakePending(s, false) {
      assert ReaderWaitsRightly(s.Pc(p), s.ring);
    }
    if s.Pc(p).Asleep? && p in s.outq && !WakePending(s, true) {
      assert WriterWaitsRightly(s.Pc(p), s.ring);
    }
  }

  /** A process that owes a wake-up can deliver it by itself, in at most two steps, and that frees every waiter. */
  lemma OwedWakeUpIsDelivered(s: State, q: nat, reader: bool)
    requires Inv(s) && OwesWake(s.Pc(q), reader)
    ensures var t := Run(s, if s.Pc(q).Wake? then [Act(q, Go)] else [Act(q, Go), Act(q, Go)]);
      if reader then t.outq == {} else t.inq == {}
  {
    assert LockedRightly(s, q);
    StepKeepsInv(s, q, Go);
    var s1 := Next(s, q, Go);
    assert Run(s1, []) == s1;
    if s.Pc(q).Wrap? {
      assert LockedRightly(s1, q);
      StepKeepsInv(s1, q, Go);
      assert Run(Next(s1, q, Go), []) == Next(s1, q, Go);
      assert [Act(q, Go), Act(q, Go)][1..] == [Act(q, Go)];
    }
  }

  /** Readers and writers never sleep at the same time unless a wake-up is on its way. */
  lemma NeverBothAsleep(buf: seq<Byte>, acts: seq<Act>, p: nat, q: nat)
    requires |buf| >= 2
    ensures var s := Run(Init(buf), acts);
      s.Pc(p).Asleep? && p in s.inq && s.Pc(q).Asleep? && q in s.outq ==>
        exists r: nat :: OwesWake(s.Pc(r), true) || OwesWake(s.Pc(r), false)
  {
    NoLostWakeUp(buf, acts, p);
    NoLostWakeUp(buf, acts, q);
  }

  /** The bytes read are the bytes written, in order, and the rest is still in the ring. */
  lemma FifoForEveryRun(buf: seq<Byte>, acts: seq<Act>)
    requires |buf| >= 1
    ensures var s := Run(Init(buf), acts);
      && s.ring.Ok()
      && s.delivered + s.ring.Contents() == s.written
      && |s.ring.Contents()| <= |buf| - 1
  {
    var s := Run(Init(buf), acts);
    RunKeepsInv(Init(buf), acts);
    if s.ring.Settled() {
      FreeIs(s.ring);
    }
  }

  /** No process can take a step of its own accord. */
  ghost predicate Stuck(s: State) {
    forall p: nat :: Sound(s, p) ==> Next(s, p, Go) == s
  }

  /** No deadlock: when nobody can move, only readers wait and the pipe is empty, or only writers and it is full. */
  lemma StuckOnlyWhenWaitingIsRight(buf: seq<Byte>, acts: seq<Act>)
    requires |buf| >= 2
    requires Stuck(Run(Init(buf), acts))
    ensures var s := Run(Init(buf), acts);
      && s.lock.None? && s.ring.Ok()
      && (forall p: nat :: s.Pc(p).Idle? || (s.Pc(p).Asleep? && s.Queued(p, s.Pc(p).op)))
      && ((s.ring.Contents() == [] && forall p: nat :: s.Pc(p).Asleep? ==> s.Pc(p).op.Read?)
          || (|s.ring.Contents()| == |buf| - 1 && forall p: nat :: s.Pc(p).Asleep? ==> s.Pc(p).op.Write?)
          || (forall p: nat :: s.Pc(p).Idle?))
  {
    var s := Run(Init(buf), acts);
    RunKeepsInv(Init(buf), acts);
    forall p: nat ensures !HoldsLock(s.Pc(p)) {
      assert LockedRightly(s, p) && Sound(s, p);
      assert Next(s, p, Go).Pc(p) == s.Pc(p);
    }
    assert s.lock.Some? ==> LockedRightly(s, s.lock.value);
    forall p: nat ensures s.Pc(p).Idle? || (s.Pc(p).Asleep? && s.Queued(p, s.Pc(p).op)) {
      assert LockedRightly(s, p) && Sound(s, p);
      assert Next(s, p, Go).Pc(p) == s.Pc(p);
    }
    forall p: nat | s.Pc(p).Asleep?
      ensures if s.Pc(p).op.Read? then s.ring.Contents() == [] else |s.ring.Contents()| == |buf| - 1
    {
      FifoForEveryRun(buf, acts);
      NoLostWakeUp(buf, acts, p);
    }
  }
}
