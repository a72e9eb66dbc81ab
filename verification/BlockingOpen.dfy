/**
 The device of scull/access.c that is shared by one user and makes the others wait (scull_w_open,
 scull_w_release), as a step system over any number of processes.
 */
module BlockingOpen {
  import opened Common

  /** What current_uid, current_euid and capable(CAP_DAC_OVERRIDE) say of a process. */
  datatype Cred = Cred(uid: nat, euid: nat, root: bool)

  datatype Pc =
    | Out
    | Locking(c: Cred)       // scull_w_open: about to take the spinlock
    | Testing(c: Cred)       // holds it, at the while test
    | Refused(c: Cred)       // dropped it because the device is not available
    | Queueing(c: Cred)      // about to register on scull_w_wait
    | Look(c: Cred)          // about to evaluate scull_w_available without the lock
    | SawBusy(c: Cred)       // loaded a count above 0, about to compare the owner with the uid
    | SawOther(c: Cred)      // the owner was not the uid, about to compare it with the euid
    | Asleep(c: Cred)
    | Taking(c: Cred)        // holds the lock, about to set the owner if it is the first
    | Counting(c: Cred)      // holds the lock, about to count itself
    | Inside(c: Cred)        // has the device open
    | Closing(c: Cred)       // scull_w_release: about to take the lock
    | Leaving(c: Cred)       // holds it, about to count itself out
    | Waking                 // was the last one, about to wake the others

  datatype Choice = Call(c: Cred) | Go | NoBlock | Signal | Close

  datatype Act = Act(pid: nat, choice: Choice)

  datatype State = State(
    count: int, owner: nat, lock: Option<nat>, queue: set<nat>, procs: map<nat, Pc>, inside: set<nat>) {
    function Pc(p: nat): Pc {
      if p in procs then procs[p] else Out
    }

    function Goto(p: nat, pc: Pc): State {
      this.(procs := procs[p := pc])
    }
  }

  const INIT := State(0, 0, None, {}, map[], {})

  predicate Entitled(owner: nat, c: Cred) {
    owner == c.uid || owner == c.euid || c.root
  }

  /** scull_w_available */
  predicate Available(s: State, c: Cred) {
    s.count == 0 || Entitled(s.owner, c)
  }

  /** The end of the unlocked evaluation: proceed, go to sleep if still registered, or register again. */
  function Decide(s: State, p: nat, c: Cred, available: bool): State {
    if available then s.(queue := s.queue - {p}).Goto(p, Locking(c))
    else if p in s.queue then s.Goto(p, Asleep(c))
    else s.Goto(p, Queueing(c))
  }

  /** One step of process p; a choice its program counter does not allow leaves the state as it is. */
  function Next(s: State, p: nat, a: Choice): State {
    match s.Pc(p)
    case Out => if a.Call? then s.Goto(p, Locking(a.c)) else s
    case Locking(c) => if a.Go? && s.lock.None? then s.(lock := Some(p)).Goto(p, Testing(c)) else s
    case Testing(c) =>
      if !a.Go? then s
      else if Available(s, c) then s.Goto(p, Taking(c))
      else s.(lock := None).Goto(p, Refused(c))
    case Refused(c) =>
      if a.NoBlock? then s.Goto(p, Out) else if a.Go? then s.Goto(p, Look(c)) else s
    case Queueing(c) =>
      if a.Signal? then s.Goto(p, Out) else if a.Go? then s.(queue := s.queue + {p}).Goto(p, Look(c)) else s
    case Look(c) =>
      if !a.Go? then s else if s.count == 0 then Decide(s, p, c, true) else s.Goto(p, SawBusy(c))
    case SawBusy(c) =>
      if !a.Go? then s else if s.owner == c.uid then Decide(s, p, c, true) else s.Goto(p, SawOther(c))
    case SawOther(c) =>
      if !a.Go? then s else Decide(s, p, c, s.owner == c.euid || c.root)
    case Asleep(c) =>
      if a.Signal? then s.(queue := s.queue - {p}).Goto(p, Out)
      else if a.Go? && p !in s.queue then s.Goto(p, Queueing(c))
      else s
    case Taking(c) =>
      if a.Go? then s.(owner := if s.count == 0 then c.uid else s.owner).Goto(p, Counting(c)) else s
    case Counting(c) =>
      if a.Go? then s.(count := s.count + 1, lock := None, inside := s.inside + {p}).Goto(p, Inside(c)) else s
    case Inside(c) => if a.Close? then s.Goto(p, Closing(c)) else s
    case Closing(c) => if a.Go? && s.lock.None? then s.(lock := Some(p)).Goto(p, Leaving(c)) else s
    case Leaving(c) =>
      if a.Go? then
        s.(count := s.count - 1, lock := None, inside := s.inside - {p})
        .Goto(p, if s.count - 1 == 0 then Waking else Out)
      else s
    case Waking => if a.Go? then s.(queue := {}).Goto(p, Out) else s
  }

  function Run(s: State, acts: seq<Act>): State
    decreases |acts|
  {
    if acts == [] then s else Run(Next(s, acts[0].pid, acts[0].choice), acts[1..])
  }

  // ----- The invariant -----

  predicate HoldsLock(pc: Pc) {
    pc.Testing? || pc.Taking? || pc.Counting? || pc.Leaving?
  }

  predicate IsInside(pc: Pc) {
    pc.Inside? || pc.Closing? || pc.Leaving?
  }

  predicate OnQueue(pc: Pc) {
    pc.Look? || pc.SawBusy? || pc.SawOther? || pc.Asleep?
  }

  /** What the program counter of p says about the lock, the counter, the owner and the queue. */
  predicate PlaceOk(s: State, p: nat) {
    var pc := s.Pc(p);
    && (HoldsLock(pc) <==> s.lock == Some(p))
    && (IsInside(pc) <==> p in s.inside)
    && (IsInside(pc) || pc.Counting? ==> Entitled(s.owner, pc.c))
    && (pc.Taking? ==> Available(s, pc.c))
    && (p in s.queue ==> OnQueue(pc))
  }

  ghost predicate WakePending(s: State) {
    exists q: nat :: s.Pc(q).Waking?
  }

  /** What a registered process may rely on while no wake-up is pending. */
  predicate WaitsRightly(s: State, pc: Pc) {
    match pc
    case SawBusy(_) => s.count > 0
    case SawOther(c) => s.count > 0 && s.owner != c.uid
    case Asleep(c) => !Available(s, c)
    case _ => true
  }

  ghost predicate Inv(s: State) {
    && s.count == |s.inside|
    && (forall p: nat :: PlaceOk(s, p))
    && (!WakePending(s) ==> forall p: nat :: p in s.queue ==> WaitsRightly(s, s.Pc(p)))
  }

  lemma StepKeepsOwnPlace(s: State, p: nat, a: Choice)
    requires s.count == |s.inside| && PlaceOk(s, p)
    ensures var t := Next(s, p, a); t.count == |t.inside| && PlaceOk(t, p)
  {
  }

  /** The owner changes only while nobody is inside, so nobody inside loses the right to be there. */
  lemma StepKeepsOtherPlace(s: State, p: nat, a: Choice, q: nat)
    requires s.count == |s.inside| && PlaceOk(s, p) && PlaceOk(s, q) && p != q
    ensures PlaceOk(Next(s, p, a), q)
  {
    if q in s.inside {
      assert |s.inside| > 0;
    }
  }

  /**
   A pending wake-up disappears only by being delivered; while none is pending the counter stays above
   0 and the owner the same.
   */
  lemma StepOnWakes(s: State, p: nat, a: Choice)
    requires s.count == |s.inside| && PlaceOk(s, p) && !WakePending(Next(s, p, a))
    ensures var t := Next(s, p, a);
      || t.queue == {}
      || (!WakePending(s) && (s.count > 0 ==> t.count > 0 && t.owner == s.owner))
  {
    var t := Next(s, p, a);
    assert !t.Pc(p).Waking?;
    if WakePending(s) {
      var q: nat :| s.Pc(q).Waking?;
      assert q != p ==> t.Pc(q).Waking?;
    }
  }

  lemma StepKeepsWaiter(s: State, p: nat, a: Choice, q: nat)
    requires PlaceOk(s, p) && PlaceOk(s, q)
    requires q in s.queue ==> WaitsRightly(s, s.Pc(q))
    requires var t := Next(s, p, a); s.count > 0 ==> t.count > 0 && t.owner == s.owner
    requires s.count >= 0 && q in Next(s, p, a).queue
    ensures WaitsRightly(Next(s, p, a), Next(s, p, a).Pc(q))
  {
  }

  lemma StepKeepsInv(s: State, p: nat, a: Choice)
    requires Inv(s)
    ensures Inv(Next(s, p, a))
  {
    var t := Next(s, p, a);
    assert PlaceOk(s, p);
    StepKeepsOwnPlace(s, p, a);
    forall q: nat
      ensures PlaceOk(t, q)
    {
      assert PlaceOk(s, q);
      if q != p {
        StepKeepsOtherPlace(s, p, a, q);
      }
    }
    if !WakePending(t) {
      StepOnWakes(s, p, a);
      forall q: nat | q in t.queue
        ensures WaitsRightly(t, t.Pc(q))
      {
        assert PlaceOk(s, q);
        StepKeepsWaiter(s, p, a, q);
      }
    }
  }

  lemma {:induction false} RunKeepsInv(s: State, acts: seq<Act>)
    requires Inv(s)
    ensures Inv(Run(s, acts))
    decreases |acts|
  {
    if acts != [] {
      StepKeepsInv(s, acts[0].pid, acts[0].choice);
      RunKeepsInv(Next(s, acts[0].pid, acts[0].choice), acts[1..]);
    }
  }

  // ----- Main results -----

  /** In every interleaving a process asleep although the device is available to it is about to be woken. */
  lemma NoLostWakeUp(acts: seq<Act>, p: nat)
    ensures var s := Run(INIT, acts);
      s.Pc(p).Asleep? && p in s.queue && Available(s, s.Pc(p).c) ==> exists q: nat :: s.Pc(q).Waking?
  {
    RunKeepsInv(INIT, acts);
    var s := Run(INIT, acts);
    if s.Pc(p).Asleep? && p in s.queue && !WakePending(s) {
      assert WaitsRightly(s, s.Pc(p));
    }
  }

  /** The counter is the number of processes inside, and all of them belong to one user or override permissions. */
  lemma OneUserInside(acts: seq<Act>)
    ensures var s := Run(INIT, acts);
      && s.count == |s.inside|
      && (forall p: nat :: p in s.inside <==> IsInside(s.Pc(p)))
      && (forall p: nat :: p in s.inside ==> Entitled(s.owner, s.Pc(p).c))
  {
    RunKeepsInv(INIT, acts);
    var s := Run(INIT, acts);
    forall p: nat
      ensures p in s.inside <==> IsInside(s.Pc(p))
      ensures p in s.inside ==> Entitled(s.owner, s.Pc(p).c)
    {
      assert PlaceOk(s, p);
    }
  }

  /**
   Everybody who waits does so rightly: when nobody can move by himself, each sleeper waits for a device
   in use by somebody else.
   */
  lemma StuckOnlyWhenInUse(acts: seq<Act>, p: nat)
    requires forall q: nat :: Next(Run(INIT, acts), q, Go) == Run(INIT, acts)
    ensures var s := Run(INIT, acts); var pc := s.Pc(p);
      && s.lock.None?
      && (pc.Out? || pc.Inside? || (pc.Asleep? && s.inside != {} && !Entitled(s.owner, pc.c)))
  {
    RunKeepsInv(INIT, acts);
    var s := Run(INIT, acts);
    forall q: nat
      ensures !HoldsLock(s.Pc(q)) && !s.Pc(q).Waking?
    {
      assert Next(s, q, Go).Pc(q) == s.Pc(q);
    }
    assert s.lock.Some? ==> PlaceOk(s, s.lock.value);
    assert PlaceOk(s, p) && Next(s, p, Go).Pc(p) == s.Pc(p);
    NoLostWakeUp(acts, p);
  }

  // ----- Who gets in -----

  /** In every run the test under the lock lets a process in exactly when nobody is inside or it is entitled. */
  lemma TestAnswersRightly(acts: seq<Act>, p: nat)
    requires Run(INIT, acts).Pc(p).Testing?
    ensures var s := Run(INIT, acts); var c := s.Pc(p).c;
      var entitled := s.inside == {} || s.owner == c.uid || s.owner == c.euid || c.root;
      && (Next(s, p, Go).Pc(p) == Taking(c) <==> entitled)
      && (Next(s, p, Go).Pc(p) == Refused(c) <==> !entitled)
      && s.lock == Some(p) && Next(s, p, Go).lock == (if entitled then Some(p) else None)
  {
    RunKeepsInv(INIT, acts);
    assert PlaceOk(Run(INIT, acts), p);
  }
}
