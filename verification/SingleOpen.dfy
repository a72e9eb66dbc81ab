/** The single-open device of scull/access.c: an atomic counter and no lock, as a step system. */
module SingleOpen {
  /**
   available is scull_s_available.  openers are the processes that have the device open, undoing
   those that were refused and have not yet put their decrement back.
   */
  datatype State = State(available: int, openers: set<nat>, undoing: set<nat>)

  datatype Act = DecAndTest(pid: nat) | Undo(pid: nat) | Release(pid: nat)

  const INIT := State(1, {}, {})

  /** A step that cannot happen in s leaves s as it is. */
  function Next(s: State, a: Act): State {
    match a
    case DecAndTest(p) =>
      if p in s.openers || p in s.undoing then s
      else if s.available - 1 == 0 then s.(available := 0, openers := s.openers + {p})
      else s.(available := s.available - 1, undoing := s.undoing + {p})
    case Undo(p) =>
      if p in s.undoing then s.(available := s.available + 1, undoing := s.undoing - {p}) else s
    case Release(p) =>
      if p in s.openers then s.(available := s.available + 1, openers := s.openers - {p}) else s
  }

  function Run(s: State, acts: seq<Act>): State
    decreases |acts|
  {
    if acts == [] then s else Run(Next(s, acts[0]), acts[1..])
  }

  predicate Inv(s: State) {
    s.available == 1 - |s.openers| - |s.undoing| && |s.openers| <= 1
  }

  lemma {:induction false} RunKeepsInv(s: State, acts: seq<Act>)
    requires Inv(s)
    ensures Inv(Run(s, acts))
    decreases |acts|
  {
    if acts != [] {
      RunKeepsInv(Next(s, acts[0]), acts[1..]);
    }
  }

  /** In every interleaving at most one process has the device open, and the counter accounts for everybody. */
  lemma AtMostOneOpen(acts: seq<Act>)
    ensures var s := Run(INIT, acts);
      && s.available == 1 - |s.openers| - |s.undoing|
      && (forall p, q :: p in s.openers && q in s.openers ==> p == q)
  {
    var s := Run(INIT, acts);
    RunKeepsInv(INIT, acts);
    forall p, q | p in s.openers && q in s.openers
      ensures p == q
    {
      assert {p, q} <= s.openers;
      CardinalityOfSubset({p, q}, s.openers);
    }
  }

  lemma {:induction false} CardinalityOfSubset(a: set<nat>, b: set<nat>)
    requires a <= b
    ensures |a| <= |b|
    decreases a
  {
    if a != {} {
      var x :| x in a;
      CardinalityOfSubset(a - {x}, b - {x});
    }
  }

  /** An attempt succeeds exactly when nobody has the device open and no refused attempt is still to be undone. */
  lemma OpenSucceedsIff(acts: seq<Act>, p: nat)
    ensures var s := Run(INIT, acts);
      p !in s.openers && p !in s.undoing ==>
        (p in Next(s, DecAndTest(p)).openers <==> s.openers == {} && s.undoing == {})
  {
    RunKeepsInv(INIT, acts);
  }

  /** So a process can be refused although nobody has the device open: another refusal is being undone. */
  lemma RefusedAlthoughFree()
    ensures var s := Run(INIT, [DecAndTest(1), DecAndTest(2), Release(1)]);
      s.openers == {} && Next(s, DecAndTest(3)).undoing == {2, 3}
  {
    var acts := [DecAndTest(1), DecAndTest(2), Release(1)];
    assert acts[1..] == [DecAndTest(2), Release(1)] && acts[1..][1..] == [Release(1)] && acts[1..][1..][1..] == [];
  }

  /** The refusals under way undone and the opener's close made. */
  predicate Finishes(s: State, a: Act) {
    (a.Undo? && a.pid in s.undoing) || (a.Release? && a.pid in s.openers)
  }

  lemma {:induction false} FinishingFrees(s: State) returns (acts: seq<Act>)
    requires Inv(s)
    ensures Run(s, acts) == INIT && |acts| == |s.openers| + |s.undoing|
    ensures forall a :: a in acts ==> Finishes(s, a)
    decreases |s.openers| + |s.undoing|
  {
    acts := [];
    if s.openers != {} || s.undoing != {} {
      var a;
      if s.undoing != {} {
        var p :| p in s.undoing;
        a := Undo(p);
      } else {
        var p :| p in s.openers;
        a := Release(p);
      }
      var t := Next(s, a);
      var rest := FinishingFrees(t);
      acts := [a] + rest;
      assert acts[1..] == rest;
    }
  }

  /**
   No refusal leaves a trace: in every run, once each refused process has put its decrement back and the
   opener has closed, everything is as at the beginning, and whoever tries next gets the device.
   */
  lemma CanBeFreed(acts: seq<Act>, p: nat) returns (more: seq<Act>)
    ensures var s := Run(INIT, acts);
      && (forall a :: a in more ==> Finishes(s, a)) && |more| == |s.openers| + |s.undoing|
      && Run(s, more) == INIT && Next(Run(s, more), DecAndTest(p)).openers == {p}
  {
    RunKeepsInv(INIT, acts);
    more := FinishingFrees(Run(INIT, acts));
  }
}
