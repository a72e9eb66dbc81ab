/**
 What a single call of scull_p_read or scull_p_write does between the steps of all the others: what
 its test under the mutex answers, how it ends when it is left alone, and what its failures leave.
 */
module PipeCalls {
  import opened Common
  import opened PipeRing
  import opened PipeProtocol

  /** There is nothing for the call to move: the pipe is empty for a reader, full for a writer. */
  predicate MustWait(op: Op, r: Ring)
    requires r.Settled()
  {
    if op.Read? then r.Contents() == [] else |r.Contents()| == |r.buf| - 1
  }

  lemma TestMeans(op: Op, r: Ring)
    requires r.Settled()
    ensures LooksBlocked(op, r.rp, r.wp, |r.buf|) <==> MustWait(op, r)
  {
    FreeIs(r);
  }

  /** In every run the test that is made under the mutex sends a caller away exactly when it must wait. */
  lemma TestAnswersRightly(buf: seq<Byte>, acts: seq<Act>, p: nat)
    requires |buf| >= 1 && Run(Init(buf), acts).Pc(p).Test?
    ensures var s := Run(Init(buf), acts); var op := s.Pc(p).op;
      && Sound(s, p) && s.lock == Some(p) && s.ring.Settled() && |s.ring.buf| == |buf|
      && (Next(s, p, Go).Pc(p) == Blocked(op) <==> MustWait(op, s.ring))
      && (Next(s, p, Go).Pc(p) == Move(op) <==> !MustWait(op, s.ring))
      && (Next(s, p, Go).lock == if MustWait(op, s.ring) then None else Some(p))
  {
    RunKeepsInv(Init(buf), acts);
    var s := Run(Init(buf), acts);
    assert LockedRightly(s, p);
    TestMeans(s.Pc(p).op, s.ring);
  }

  // ----- A process left alone -----

  /** The state after n further steps of p alone; order says which pointer its unlocked looks load first. */
  ghost function Alone(s: State, p: nat, order: Choice, n: nat): State
    requires Inv(s)
    decreases n
  {
    if n == 0 then s
    else
      StepKeepsInv(s, p, Own(s, p, order));
      Alone(Next(s, p, Own(s, p, order)), p, order, n - 1)
  }

  function Own(s: State, p: nat, order: Choice): Choice {
    if s.Pc(p).Look? then order else Go
  }

  /** Such a stretch is a run. */
  lemma {:induction false} AloneIsRun(s: State, p: nat, order: Choice, n: nat) returns (acts: seq<Act>)
    requires Inv(s)
    ensures Run(s, acts) == Alone(s, p, order, n) && |acts| == n && forall a :: a in acts ==> a.pid == p
    decreases n
  {
    acts := [];
    if n > 0 {
      var c := Own(s, p, order);
      StepKeepsInv(s, p, c);
      var rest := AloneIsRun(Next(s, p, c), p, order, n - 1);
      acts := [Act(p, c)] + rest;
      assert acts[1..] == rest;
    }
  }

  /** The next step of such a stretch. */
  lemma {:induction false} Then(s: State, p: nat, order: Choice, n: nat, u: State, t: State)
    requires Inv(s) && Alone(s, p, order, n) == u && Sound(u, p) && t == Next(u, p, Own(u, p, order))
    ensures Inv(t) && Alone(s, p, order, n + 1) == t
    decreases n
  {
    StepKeepsInv(s, p, Own(s, p, order));
    var s1 := Next(s, p, Own(s, p, order));
    if n > 0 {
      Then(s1, p, order, n - 1, u, t);
    } else {
      assert Alone(s1, p, order, 0) == s1;
    }
  }

  lemma {:induction false} Continue(s: State, p: nat, order: Choice, m: nat, n: nat)
    requires Inv(s)
    ensures Inv(Alone(s, p, order, m)) && Alone(s, p, order, m + n) == Alone(Alone(s, p, order, m), p, order, n)
    decreases m
  {
    if m > 0 {
      StepKeepsInv(s, p, Own(s, p, order));
      Continue(Next(s, p, Own(s, p, order)), p, order, m - 1, n);
    }
  }

  /** The pipe after a call that had something to move: as Pipe.Read and Pipe.Write leave it, the other side woken. */
  function Served(s: State, p: nat, op: Op): State
    requires s.ring.Settled() && !MustWait(op, s.ring)
  {
    FreeIs(s.ring);
    match op
    case Read(count) =>
      ReadRefinesQueue(s.ring, count);
      var taken := s.ring.Contents()[..ReadCount(s.ring, count)];
      s.(ring := AfterRead(s.ring, count), lock := None, delivered := s.delivered + taken, outq := {}).Goto(p, Idle)
    case Write(data) =>
      var put := data[..WriteCount(s.ring, |data|)];
      s.(ring := AfterWrite(s.ring, data), lock := None, written := s.written + put, inq := {}).Goto(p, Idle)
  }

  lemma StepIsSound(s: State, p: nat)
    requires Inv(s)
    ensures Sound(s, p)
  {
    StepKeepsInv(s, p, Go);
  }

  lemma AtMove(s: State, p: nat, op: Op)
    requires Inv(s) && s.Pc(p) == Move(op) && s.ring.Settled()
    ensures Sound(s, p) && !LooksBlocked(op, s.ring.rp, s.ring.wp, |s.ring.buf|) && s.lock == Some(p)
    ensures op.Read? ==> var k := ReadCount(s.ring, op.count);
      s.ring.rp != s.ring.wp && s.ring.buf[s.ring.rp..s.ring.rp + k] == s.ring.Contents()[..k]
  {
    assert LockedRightly(s, p);
    if op.Read? {
      ReadRefinesQueue(s.ring, op.count);
    }
  }

  /** With the mutex: move, wrap and unlock, wake. */
  lemma ServedFromMove(s: State, p: nat, order: Choice, op: Op)
    requires Inv(s) && s.ring.Settled() && s.Pc(p) == Move(op) && !MustWait(op, s.ring)
    ensures Alone(s, p, order, 3) == Served(s, p, op)
  {
    hide Inv, LooksBlocked, ReadCount, WriteCount, WrapRead, WrapWrite;
    AtMove(s, p, op);
    var s1 := Transfer(s, p, op);
    Then(s, p, order, 0, s, s1);
    StepIsSound(s1, p);
    var s2 := s1.(ring := if op.Read? then WrapRead(s1.ring) else WrapWrite(s1.ring), lock := None).Goto(p, Wake(op));
    Then(s, p, order, 1, s1, s2);
    StepIsSound(s2, p);
    var s3 := (if op.Read? then s2.(outq := {}) else s2.(inq := {})).Goto(p, Idle);
    Then(s, p, order, 2, s2, s3);
  }

  /** The mutex is free, and with it the pointers are inside the buffer. */
  lemma AtRest(s: State, p: nat)
    requires Inv(s) && s.lock.None?
    ensures s.ring.Settled() && Sound(s, p)
    ensures !s.Pc(p).Look? && !s.Pc(p).Asleep? && !s.Pc(p).SawRp? && !s.Pc(p).SawWp? ==> p !in s.inq && p !in s.outq
    ensures s.Pc(p).Look? || s.Pc(p).Asleep? ==> if s.Pc(p).op.Read? then p !in s.outq else p !in s.inq
  {
    assert LockedRightly(s, p) && QueuedRightly(s, p);
  }

  /** From the mutex on: take it and test. */
  lemma Tested(s: State, p: nat, order: Choice, op: Op)
    requires Inv(s) && s.lock.None? && s.ring.Settled() && s.Pc(p) == Acquire(op)
    ensures Alone(s, p, order, 2) ==
      if MustWait(op, s.ring) then s.Goto(p, Blocked(op)) else s.(lock := Some(p)).Goto(p, Move(op))
  {
    hide Inv, LooksBlocked, MustWait;
    StepIsSound(s, p);
    TestMeans(op, s.ring);
    var s1 := s.(lock := Some(p)).Goto(p, Test(op));
    Then(s, p, order, 0, s, s1);
    StepIsSound(s1, p);
    var s2 := if MustWait(op, s.ring) then s.Goto(p, Blocked(op)) else s.(lock := Some(p)).Goto(p, Move(op));
    assert s1.procs[p := s2.Pc(p)] == s2.procs && s.lock == None;
    Then(s, p, order, 1, s1, s2);
  }

  lemma ServedFromAcquire(s: State, p: nat, order: Choice, op: Op)
    requires Inv(s) && s.lock.None? && s.ring.Settled() && s.Pc(p) == Acquire(op) && !MustWait(op, s.ring)
    ensures Alone(s, p, order, 5) == Served(s, p, op)
  {
    hide Inv, AfterRead, AfterWrite, MustWait;
    Tested(s, p, order, op);
    Continue(s, p, order, 2, 3);
    var s2 := s.(lock := Some(p)).Goto(p, Move(op));
    ServedFromMove(s2, p, order, op);
    assert s2.procs[p := Idle] == s.procs[p := Idle];
  }

  predicate EitherOrder(order: Choice) {
    order.Go? || order.WpFirst?
  }

  /** The unlocked look, in whichever order it loads the pointers: back to the mutex, to sleep, or around again. */
  lemma Looked(s: State, p: nat, order: Choice, op: Op)
    requires Inv(s) && s.ring.Settled() && s.Pc(p) == Look(op) && EitherOrder(order)
    ensures Alone(s, p, order, 2) ==
      if !MustWait(op, s.ring) then s.Leave(p, op).Goto(p, Acquire(op))
      else s.Goto(p, if s.Queued(p, op) then Asleep(op) else Woken(op))
  {
    hide Inv, LooksBlocked, MustWait;
    StepIsSound(s, p);
    TestMeans(op, s.ring);
    var s1 := s.Goto(p, if order.Go? then SawRp(op, s.ring.rp) else SawWp(op, s.ring.wp));
    Then(s, p, order, 0, s, s1);
    StepIsSound(s1, p);
    var s2 := if !MustWait(op, s.ring) then s.Leave(p, op).Goto(p, Acquire(op))
              else s.Goto(p, if s.Queued(p, op) then Asleep(op) else Woken(op));
    assert s1.procs[p := s2.Pc(p)] == s2.procs;
    Then(s, p, order, 1, s1, s2);
  }

  /** Registering and looking. */
  lemma Registered(s: State, p: nat, order: Choice, op: Op)
    requires Inv(s) && s.ring.Settled() && s.Pc(p) == Enqueue(op) && EitherOrder(order) && !s.Queued(p, op)
    ensures Alone(s, p, order, 3) ==
      if MustWait(op, s.ring) then s.Join(p, op).Goto(p, Asleep(op)) else s.Goto(p, Acquire(op))
  {
    hide Inv, LooksBlocked, MustWait;
    StepIsSound(s, p);
    var s1 := s.Join(p, op).Goto(p, Look(op));
    Then(s, p, order, 0, s, s1);
    Looked(s1, p, order, op);
    Continue(s, p, order, 1, 2);
    assert op.Read? ==> s.inq + {p} - {p} == s.inq;
    assert op.Write? ==> s.outq + {p} - {p} == s.outq;
    assert s1.procs[p := Asleep(op)] == s.procs[p := Asleep(op)];
    assert s1.procs[p := Acquire(op)] == s.procs[p := Acquire(op)];
  }

  /** How a call ends that nobody interferes with: asleep on its queue if it must wait, and served otherwise. */
  function Ending(s: State, p: nat, op: Op): State
    requires s.ring.Settled()
  {
    if MustWait(op, s.ring) then s.Join(p, op).Goto(p, Asleep(op)) else Served(s.Leave(p, op), p, op)
  }

  lemma EndingFrom(s: State, p: nat, op: Op, pc: Pc)
    requires s.ring.Settled()
    ensures Ending(s.Goto(p, pc), p, op) == Ending(s, p, op)
    ensures !MustWait(op, s.ring) ==> Ending(s.Leave(p, op), p, op) == Ending(s, p, op)
  {
    hide MustWait, AfterRead, AfterWrite, ReadCount, WriteCount;
    assert s.procs[p := pc][p := Idle] == s.procs[p := Idle];
    assert s.procs[p := pc][p := Asleep(op)] == s.procs[p := Asleep(op)];
    assert s.inq - {p} - {p} == s.inq - {p} && s.outq - {p} - {p} == s.outq - {p};
  }

  lemma AcquireEnds(s: State, p: nat, order: Choice, op: Op)
    requires Inv(s) && s.lock.None? && s.ring.Settled() && s.Pc(p) == Acquire(op) && !MustWait(op, s.ring)
    ensures Alone(s, p, order, 5) == Ending(s, p, op)
  {
    hide Inv, MustWait, AfterRead, AfterWrite;
    AtRest(s, p);
    ServedFromAcquire(s, p, order, op);
    assert s.inq - {p} == s.inq && s.outq - {p} == s.outq;
    assert s.Leave(p, op) == s;
  }

  lemma EnqueueEnds(s: State, p: nat, order: Choice, op: Op) returns (n: nat)
    requires Inv(s) && s.lock.None? && s.ring.Settled() && s.Pc(p) == Enqueue(op) && EitherOrder(order)
    ensures n <= 8 && Alone(s, p, order, n) == Ending(s, p, op)
  {
    hide Inv, MustWait, Served;
    AtRest(s, p);
    Registered(s, p, order, op);
    n := 3;
    if !MustWait(op, s.ring) {
      Continue(s, p, order, 3, 5);
      n := 8;
      AcquireEnds(s.Goto(p, Acquire(op)), p, order, op);
      EndingFrom(s, p, op, Acquire(op));
    }
  }

  lemma LookEnds(s: State, p: nat, order: Choice, op: Op) returns (n: nat)
    requires Inv(s) && s.lock.None? && s.ring.Settled() && s.Pc(p) == Look(op) && EitherOrder(order)
    requires op.Read? || s.Queued(p, op) || !MustWait(op, s.ring)
    ensures n <= 10 && Alone(s, p, order, n) == Ending(s, p, op)
  {
    hide Inv, MustWait, Served;
    AtRest(s, p);
    Looked(s, p, order, op);
    if !MustWait(op, s.ring) {
      Continue(s, p, order, 2, 5);
      n := 7;
      AcquireEnds(s.Leave(p, op).Goto(p, Acquire(op)), p, order, op);
      EndingFrom(s.Leave(p, op), p, op, Acquire(op));
      EndingFrom(s, p, op, Acquire(op));
    } else if s.Queued(p, op) {
      n := 2;
      assert op.Read? ==> s.inq + {p} == s.inq;
      assert op.Write? ==> s.outq + {p} == s.outq;
      assert s.Join(p, op) == s;
    } else {
      Continue(s, p, order, 2, 0);
      var more := EnqueueEnds(s.Goto(p, Enqueue(op)), p, order, op);
      Continue(s, p, order, 2, more);
      n := 2 + more;
      EndingFrom(s, p, op, Enqueue(op));
    }
  }

  lemma BlockedEnds(s: State, p: nat, order: Choice, op: Op) returns (n: nat)
    requires Inv(s) && s.lock.None? && s.ring.Settled() && s.Pc(p) == Blocked(op) && EitherOrder(order)
    ensures n <= 11 && Alone(s, p, order, n) == Ending(s, p, op)
  {
    hide Inv, MustWait, Served;
    AtRest(s, p);
    var s1 := s.Goto(p, if op.Read? then Look(op) else Enqueue(op));
    Then(s, p, order, 0, s, s1);
    var more: nat;
    if op.Read? {
      more := LookEnds(s1, p, order, op);
    } else {
      more := EnqueueEnds(s1, p, order, op);
    }
    Continue(s, p, order, 1, more);
    n := 1 + more;
    EndingFrom(s, p, op, s1.Pc(p));
  }

  lemma LockEnds(s: State, p: nat, order: Choice, op: Op) returns (n: nat)
    requires Inv(s) && s.lock.None? && s.ring.Settled() && s.Pc(p) == Acquire(op) && EitherOrder(order)
    ensures n <= 13 && Alone(s, p, order, n) == Ending(s, p, op)
  {
    hide Inv, MustWait, Served;
    if MustWait(op, s.ring) {
      Tested(s, p, order, op);
      Continue(s, p, order, 2, 0);
      var more := BlockedEnds(s.Goto(p, Blocked(op)), p, order, op);
      Continue(s, p, order, 2, more);
      n := 2 + more;
      EndingFrom(s, p, op, Blocked(op));
    } else {
      AcquireEnds(s, p, order, op);
      n := 5;
    }
  }

  /** A process outside the mutex that is not waiting to be woken; a look under way may have seen an old pointer. */
  predicate CanGoOn(s: State, p: nat) {
    var pc := s.Pc(p);
    pc.Acquire? || pc.Blocked? || pc.Enqueue? || pc.Look? || (pc.Asleep? && !s.Queued(p, pc.op))
  }

  lemma EndsAlone(s: State, p: nat, order: Choice) returns (n: nat)
    requires Inv(s) && s.lock.None? && CanGoOn(s, p) && EitherOrder(order)
    ensures s.ring.Settled() && n <= 16 && Alone(s, p, order, n) == Ending(s, p, s.Pc(p).op)
  {
    hide Inv, MustWait, Served;
    AtRest(s, p);
    var op := s.Pc(p).op;
    match s.Pc(p)
    case Acquire(_) => n := LockEnds(s, p, order, op);
    case Blocked(_) => n := BlockedEnds(s, p, order, op);
    case Enqueue(_) => n := EnqueueEnds(s, p, order, op);
    case Look(_) =>
      if op.Write? && MustWait(op, s.ring) && !s.Queued(p, op) {
        Looked(s, p, order, op);
        n := RetryEnds(s, p, order, op, 2);
      } else {
        n := LookEnds(s, p, order, op);
      }
    case Asleep(_) =>
      Then(s, p, order, 0, s, s.Goto(p, Woken(op)));
      n := RetryEnds(s, p, order, op, 1);
  }

  /** Around again after m steps. */
  lemma RetryEnds(s: State, p: nat, order: Choice, op: Op, m: nat) returns (n: nat)
    requires Inv(s) && s.lock.None? && s.ring.Settled() && EitherOrder(order)
    requires Alone(s, p, order, m) == s.Goto(p, Woken(op))
    ensures n <= m + 13 && Alone(s, p, order, n) == Ending(s, p, op)
  {
    hide Inv, MustWait, Served;
    Continue(s, p, order, m, 0);
    var s1, more := s.Goto(p, Woken(op)), 0;
    if op.Read? {
      more := EnqueueEnds(s1, p, order, op);
    } else {
      more := LockEnds(s1, p, order, op);
    }
    Continue(s, p, order, m, more);
    n := m + more;
    EndingFrom(s, p, op, Woken(op));
  }

  /**
   Calls end.  Whenever the mutex is free, a process that goes on alone with its call is served within
   sixteen steps if there is something for it to move, and is asleep on its queue by then if there is
   not; nothing else has changed.
   */
  lemma CallEnds(s: State, p: nat, order: Choice) returns (acts: seq<Act>)
    requires Inv(s) && s.lock.None? && CanGoOn(s, p) && EitherOrder(order)
    ensures s.ring.Settled() && Run(s, acts) == Ending(s, p, s.Pc(p).op)
    ensures |acts| <= 16 && forall a :: a in acts ==> a.pid == p
  {
    var n := EndsAlone(s, p, order);
    acts := AloneIsRun(s, p, order, n);
  }

  lemma FreshCallEnds(s: State, p: nat, op: Op, order: Choice) returns (acts: seq<Act>)
    requires Inv(s) && s.lock.None? && s.Pc(p).Idle? && EitherOrder(order)
    ensures s.ring.Settled() && Run(s, acts) == Ending(s, p, op)
    ensures |acts| <= 17 && forall a :: a in acts ==> a.pid == p
  {
    hide Inv, MustWait, Served;
    AtRest(s, p);
    var t := s.Goto(p, Acquire(op));
    StepKeepsInv(s, p, Call(op));
    var more := CallEnds(t, p, order);
    acts := [Act(p, Call(op))] + more;
    assert acts[1..] == more;
    EndingFrom(s, p, op, Acquire(op));
  }

  /** A first part of the bytes held has gone to the reader, or of the writer's data has come in. */
  ghost predicate MovedFor(op: Op, s: State, t: State)
    requires s.ring.Ok() && t.ring.Ok()
  {
    var before, after := s.ring.Contents(), t.ring.Contents();
    match op
    case Read(count) =>
      && (exists k: nat :: k <= count && k <= |before| && (count > 0 ==> k > 0)
            && t.delivered == s.delivered + before[..k] && after == before[k..])
      && t.written == s.written
    case Write(data) =>
      && (exists k: nat :: k <= |data| && (data != [] ==> k > 0)
            && t.written == s.written + data[..k] && after == before + data[..k])
      && t.delivered == s.delivered
  }

  /** What being served means. */
  lemma ServedMoves(s: State, p: nat, op: Op)
    requires s.ring.Settled() && !MustWait(op, s.ring)
    ensures var t := Served(s, p, op);
      t.ring.Settled() && MovedFor(op, s, t) && (if op.Read? then t.outq == {} else t.inq == {})
  {
    FreeIs(s.ring);
    match op
    case Read(count) =>
      ReadSection(s.ring, count);
      ReadRefinesQueue(s.ring, count);
      WrapKeepsContents(AdvanceRead(s.ring, count));
    case Write(data) =>
      WriteSection(s.ring, data);
  }

  /** In every interleaving the process that holds the mutex moves bytes of its own call, in order, and no others. */
  lemma MoveIsTheCalls(s: State, p: nat)
    requires Inv(s) && s.Pc(p).Move?
    ensures Sound(s, p) && Next(s, p, Go).ring.Ok()
    ensures MovedFor(s.Pc(p).op, s, Next(s, p, Go))
  {
    hide Inv, MovedFor, ReadCount, WriteCount;
    MoveIsOpen(s, p);
    TransferMoves(s, p, s.Pc(p).op);
  }

  lemma MoveIsOpen(s: State, p: nat)
    requires Inv(s) && s.Pc(p).Move?
    ensures Sound(s, p) && s.ring.Settled() && !LooksBlocked(s.Pc(p).op, s.ring.rp, s.ring.wp, |s.ring.buf|)
  {
    assert LockedRightly(s, p);
  }

  lemma TransferMoves(s: State, p: nat, op: Op)
    requires s.ring.Settled() && !LooksBlocked(op, s.ring.rp, s.ring.wp, |s.ring.buf|)
    ensures Transfer(s, p, op).ring.Ok() && MovedFor(op, s, Transfer(s, p, op))
  {
    FreeIs(s.ring);
    match op
    case Read(count) => ReadRefinesQueue(s.ring, count);
    case Write(data) => WriteRefinesQueue(s.ring, data);
  }

  // ----- Calls that fail -----

  /** O_NONBLOCK, a signal or a fault ends the call where the code lets it, with nothing moved and no place kept. */
  lemma FailureLeavesNothing(s: State, p: nat, c: Choice)
    requires Inv(s) && !c.Go?
    ensures Sound(s, p)
    ensures var pc, t := s.Pc(p), Next(s, p, c);
      if (c.NoBlock? && pc.Blocked?) || (c.Fault? && pc.Move?)
        || (c.Signal? && (pc.Acquire? || pc.Enqueue? || pc.Asleep?)) then
        && t.Pc(p).Idle? && p !in t.inq && p !in t.outq && t.lock == (if s.lock == Some(p) then None else s.lock)
        && t.ring == s.ring && t.delivered == s.delivered && t.written == s.written
        && (forall q: nat :: q != p ==> t.Pc(q) == s.Pc(q))
        && t.inq == s.inq - {p} && t.outq == s.outq - {p}
      else (c.Call? && pc.Idle?) || (c.WpFirst? && pc.Look?) || t == s
  {
    StepIsSound(s, p);
    assert LockedRightly(s, p) && QueuedRightly(s, p);
  }
}
