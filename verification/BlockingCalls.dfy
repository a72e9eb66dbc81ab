/** What a single open or close of the shared device of scull/access.c comes to when the process is left alone. */
module BlockingCalls {
  import opened Common
  import opened BlockingOpen

  /** The state after n further steps of p alone. */
  function Alone(s: State, p: nat, n: nat): State
    decreases n
  {
    if n == 0 then s else Alone(Next(s, p, Go), p, n - 1)
  }

  /** Such a stretch is a run. */
  lemma {:induction false} AloneIsRun(s: State, p: nat, n: nat) returns (acts: seq<Act>)
    ensures Run(s, acts) == Alone(s, p, n) && |acts| == n && forall a :: a in acts ==> a == Act(p, Go)
    decreases n
  {
    acts := [];
    if n > 0 {
      var rest := AloneIsRun(Next(s, p, Go), p, n - 1);
      acts := [Act(p, Go)] + rest;
      assert acts[1..] == rest;
    }
  }

  lemma AloneNone(s: State, p: nat)
    ensures Alone(s, p, 0) == s
  {
  }

  lemma {:induction false} Continue(s: State, p: nat, m: nat, n: nat)
    ensures Alone(s, p, m + n) == Alone(Alone(s, p, m), p, n)
    decreases m
  {
    if m > 0 {
      Continue(Next(s, p, Go), p, m - 1, n);
    }
  }

  lemma Then(s: State, p: nat, n: nat, u: State, t: State)
    requires Alone(s, p, n) == u && t == Next(u, p, Go)
    ensures Alone(s, p, n + 1) == t
  {
    Continue(s, p, n, 1);
    assert Alone(t, p, 0) == t;
  }

  /** The device may be opened: nobody has it open, or its owner's processes and c is one of them or overrides. */
  predicate MayEnter(s: State, c: Cred) {
    s.inside == {} || Entitled(s.owner, c)
  }

  /** The counter counts, so the test is about who is inside. */
  predicate Counted(s: State) {
    s.count == |s.inside|
  }

  lemma AvailableMeans(s: State, c: Cred)
    requires Counted(s)
    ensures Available(s, c) <==> MayEnter(s, c)
  {
  }

  /** p has got in; whoever finds nobody inside becomes the owner. */
  function Entered(s: State, p: nat, c: Cred): State {
    s.(count := s.count + 1, owner := if s.inside == {} then c.uid else s.owner, lock := None,
       inside := s.inside + {p}, queue := s.queue - {p})
    .Goto(p, Inside(c))
  }

  function FallenAsleep(s: State, p: nat, c: Cred): State {
    s.(queue := s.queue + {p}).Goto(p, Asleep(c))
  }

  /** How an open ends that nobody interferes with. */
  function Ending(s: State, p: nat, c: Cred): State {
    if MayEnter(s, c) then Entered(s, p, c) else FallenAsleep(s, p, c)
  }

  lemma EndingFrom(s: State, p: nat, c: Cred, pc: Pc)
    ensures Ending(s.Goto(p, pc), p, c) == Ending(s, p, c)
    ensures MayEnter(s, c) ==> Ending(s.(queue := s.queue - {p}).Goto(p, pc), p, c) == Ending(s, p, c)
  {
    hide Entitled;
    assert s.procs[p := pc][p := Inside(c)] == s.procs[p := Inside(c)];
    assert s.procs[p := pc][p := Asleep(c)] == s.procs[p := Asleep(c)];
    assert s.queue - {p} - {p} == s.queue - {p};
  }

  /** The lock, the test, the owner, the counter. */
  lemma LockedGetsIn(s: State, p: nat, c: Cred)
    requires Counted(s) && s.lock.None? && s.Pc(p) == Locking(c) && MayEnter(s, c) && p !in s.queue
    ensures Alone(s, p, 4) == Ending(s, p, c)
  {
    hide Entitled;
    AvailableMeans(s, c);
    var s1 := s.(lock := Some(p)).Goto(p, Testing(c));
    Then(s, p, 0, s, s1);
    var s2 := s1.Goto(p, Taking(c));
    Then(s, p, 1, s1, s2);
    var s3 := s2.(owner := if s.inside == {} then c.uid else s.owner).Goto(p, Counting(c));
    Then(s, p, 2, s2, s3);
    var s4 := s3.(count := s.count + 1, lock := None, inside := s.inside + {p}).Goto(p, Inside(c));
    Then(s, p, 3, s3, s4);
    assert s.procs[p := Testing(c)][p := Taking(c)][p := Counting(c)][p := Inside(c)] == s.procs[p := Inside(c)];
    assert s.queue - {p} == s.queue;
  }

  /** The evaluation without the lock, with its loads of the counter and twice of the owner. */
  lemma Looked(s: State, p: nat, c: Cred) returns (n: nat)
    requires Counted(s) && s.Pc(p) == Look(c)
    ensures n <= 3 && Alone(s, p, n) ==
      if MayEnter(s, c) then s.(queue := s.queue - {p}).Goto(p, Locking(c))
      else s.Goto(p, if p in s.queue then Asleep(c) else Queueing(c))
  {
    var t := if MayEnter(s, c) then s.(queue := s.queue - {p}).Goto(p, Locking(c))
             else s.Goto(p, if p in s.queue then Asleep(c) else Queueing(c));
    if s.count == 0 {
      n := 1;
      Then(s, p, 0, s, t);
    } else {
      var s1 := s.Goto(p, SawBusy(c));
      Then(s, p, 0, s, s1);
      assert s1.procs[p := t.Pc(p)] == t.procs;
      if s.owner == c.uid {
        n := 2;
        Then(s, p, 1, s1, t);
      } else {
        n := 3;
        var s2 := s1.Goto(p, SawOther(c));
        Then(s, p, 1, s1, s2);
        assert s2.procs[p := t.Pc(p)] == t.procs;
        Then(s, p, 2, s2, t);
      }
    }
  }

  lemma QueueingEnds(s: State, p: nat, c: Cred) returns (n: nat)
    requires Counted(s) && s.lock.None? && s.Pc(p) == Queueing(c)
    ensures n <= 8 && Alone(s, p, n) == Ending(s, p, c)
  {
    hide Entitled, Entered, Alone;
    AloneNone(s, p);
    var t := s.(queue := s.queue + {p}).Goto(p, Look(c));
    Then(s, p, 0, s, t);
    var looked := Looked(t, p, c);
    Continue(s, p, 1, looked);
    n := 1 + looked;
    if MayEnter(s, c) {
      var u := t.(queue := t.queue - {p}).Goto(p, Locking(c));
      assert t.queue - {p} == s.queue - {p};
      assert u == s.(queue := s.queue - {p}).Goto(p, Locking(c)) by {
        assert s.procs[p := Look(c)][p := Locking(c)] == s.procs[p := Locking(c)];
      }
      LockedGetsIn(u, p, c);
      Continue(s, p, n, 4);
      EndingFrom(s, p, c, Locking(c));
      n := n + 4;
    } else {
      assert s.procs[p := Look(c)][p := Asleep(c)] == s.procs[p := Asleep(c)];
    }
  }

  lemma LookEnds(s: State, p: nat, c: Cred) returns (n: nat)
    requires Counted(s) && s.lock.None? && s.Pc(p) == Look(c)
    ensures n <= 11 && Alone(s, p, n) == Ending(s, p, c)
  {
    hide Entitled, Entered, Alone;
    AloneNone(s, p);
    var looked := Looked(s, p, c);
    n := looked;
    if MayEnter(s, c) {
      var u := s.(queue := s.queue - {p}).Goto(p, Locking(c));
      LockedGetsIn(u, p, c);
      Continue(s, p, n, 4);
      EndingFrom(s, p, c, Locking(c));
      n := n + 4;
    } else if p in s.queue {
      assert s.queue + {p} == s.queue;
    } else {
      var more := QueueingEnds(s.Goto(p, Queueing(c)), p, c);
      Continue(s, p, n, more);
      EndingFrom(s, p, c, Queueing(c));
      n := n + more;
    }
  }

  /** In a call, and neither holding the lock nor in the middle of a look nor registered and asleep. */
  predicate CanGoOn(s: State, p: nat) {
    var pc := s.Pc(p);
    pc.Locking? || pc.Refused? || pc.Queueing? || pc.Look? || (pc.Asleep? && p !in s.queue)
  }

  lemma EndsAlone(s: State, p: nat) returns (n: nat)
    requires Counted(s) && s.lock.None? && CanGoOn(s, p) && (s.Pc(p).Locking? ==> p !in s.queue)
    ensures n <= 14 && Alone(s, p, n) == Ending(s, p, s.Pc(p).c)
  {
    hide Entitled, Entered, FallenAsleep, Alone;
    AloneNone(s, p);
    var c := s.Pc(p).c;
    match s.Pc(p)
    case Locking(_) =>
      if MayEnter(s, c) {
        LockedGetsIn(s, p, c);
        n := 4;
      } else {
        AvailableMeans(s, c);
        var s1 := s.(lock := Some(p)).Goto(p, Testing(c));
        Then(s, p, 0, s, s1);
        assert s1.procs[p := Refused(c)] == s.procs[p := Refused(c)] && s.lock == None;
        Then(s, p, 1, s1, s.Goto(p, Refused(c)));
        Then(s, p, 2, s.Goto(p, Refused(c)), s.Goto(p, Look(c)));
        var more := LookEnds(s.Goto(p, Look(c)), p, c);
        Continue(s, p, 3, more);
        EndingFrom(s, p, c, Look(c));
        n := 3 + more;
      }
    case Refused(_) =>
      Then(s, p, 0, s, s.Goto(p, Look(c)));
      var more := LookEnds(s.Goto(p, Look(c)), p, c);
      Continue(s, p, 1, more);
      EndingFrom(s, p, c, Look(c));
      n := 1 + more;
    case Queueing(_) => n := QueueingEnds(s, p, c);
    case Look(_) => n := LookEnds(s, p, c);
    case Asleep(_) =>
      Then(s, p, 0, s, s.Goto(p, Queueing(c)));
      var more := QueueingEnds(s.Goto(p, Queueing(c)), p, c);
      Continue(s, p, 1, more);
      EndingFrom(s, p, c, Queueing(c));
      n := 1 + more;
  }

  /**
   Opens end.  Whenever the lock is free, a process that goes on alone with its open is inside within
   fourteen steps if nobody is or it is entitled, as the owner if nobody was; otherwise it is asleep on
   the queue by then.  Nothing else has changed.
   */
  lemma OpenEnds(s: State, p: nat) returns (acts: seq<Act>)
    requires Inv(s) && s.lock.None? && CanGoOn(s, p)
    ensures Run(s, acts) == Ending(s, p, s.Pc(p).c) && |acts| <= 14 && forall a :: a in acts ==> a == Act(p, Go)
  {
    hide Ending;
    assert PlaceOk(s, p);
    var n := EndsAlone(s, p);
    acts := AloneIsRun(s, p, n);
  }

  lemma FreshOpenEnds(s: State, p: nat, c: Cred) returns (acts: seq<Act>)
    requires Inv(s) && s.lock.None? && s.Pc(p).Out?
    ensures Run(s, [Act(p, Call(c))] + acts) == Ending(s, p, c) && |acts| <= 14
  {
    hide Ending;
    var t := s.Goto(p, Locking(c));
    StepKeepsInv(s, p, Call(c));
    acts := OpenEnds(t, p);
    assert ([Act(p, Call(c))] + acts)[1..] == acts;
    EndingFrom(s, p, c, Locking(c));
  }

  /** p has left; the last one out wakes everybody. */
  function Left(s: State, p: nat): State {
    s.(count := s.count - 1, inside := s.inside - {p}, queue := if s.inside == {p} then {} else s.queue).Goto(p, Out)
  }

  /** Closes end, too. */
  lemma CloseEnds(s: State, p: nat) returns (acts: seq<Act>)
    requires Inv(s) && s.lock.None? && s.Pc(p).Inside?
    ensures Run(s, [Act(p, Close)] + acts) == Left(s, p) && |acts| <= 3 && forall a :: a in acts ==> a == Act(p, Go)
  {
    assert PlaceOk(s, p);
    var c := s.Pc(p).c;
    var s1 := s.Goto(p, Closing(c));
    var s2 := s.(lock := Some(p)).Goto(p, Leaving(c));
    assert s1.procs[p := Leaving(c)] == s2.procs;
    Then(s1, p, 0, s1, s2);
    LastOne(s.inside, p);
    var s3 := s.(count := s.count - 1, inside := s.inside - {p}).Goto(p, if s.inside == {p} then Waking else Out);
    assert s2.procs[p := s3.Pc(p)] == s3.procs && s.lock == None;
    Then(s1, p, 1, s2, s3);
    var n := 2;
    if s.inside == {p} {
      assert s3.procs[p := Out] == s.procs[p := Out];
      Then(s1, p, 2, s3, Left(s, p));
      n := 3;
    }
    acts := AloneIsRun(s1, p, n);
    assert ([Act(p, Close)] + acts)[1..] == acts;
  }

  lemma LastOne(inside: set<nat>, p: nat)
    requires p in inside
    ensures |inside| - 1 == 0 <==> inside == {p}
  {
    assert |inside - {p}| == |inside| - 1;
    assert inside == {p} <==> inside - {p} == {};
  }

  /** O_NONBLOCK or a signal ends the open where the code lets it, and leaves nothing behind. */
  lemma FailureLeavesNothing(s: State, p: nat, a: Choice)
    requires Inv(s) && !a.Go?
    ensures var pc, t := s.Pc(p), Next(s, p, a);
      if (a.NoBlock? && pc.Refused?) || (a.Signal? && (pc.Queueing? || pc.Asleep?)) then
        t == s.(queue := s.queue - {p}).Goto(p, Out)
      else (a.Call? && pc.Out?) || (a.Close? && pc.Inside?) || t == s
  {
    assert PlaceOk(s, p);
    assert !OnQueue(s.Pc(p)) ==> s.queue - {p} == s.queue;
  }
}
