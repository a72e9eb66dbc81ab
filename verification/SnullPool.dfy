/**
 The packet pools of the two snull devices (snull/snull.c) as a step system: transmitters, interrupt
 handlers and pollers run interleaved, and each step is one critical section of a device's spinlock.
 */
module SnullPool {
  import opened Common

  /** home is the device whose pool the packet was allocated for. */
  datatype Packet = Packet(home: bool, id: nat)

  /** Lists run from their head; pool is ppool, rx is rx_queue. */
  datatype Dev = Dev(pool: seq<Packet>, rx: seq<Packet>, stopped: bool, hung: bool)

  datatype Pc =
    | Idle
    | Sending(p: Packet)     // taken from its home's pool, about to go to the twin's receive list
    | Handling(p: Packet)    // taken from a receive list, about to be released
    | Released(p: Packet)    // pushed back, about to look whether the queue has to be woken

  /** Where a packet is; kept as a history, for the proofs. */
  datatype Place = InPool | InRx | InHand(pid: nat)

  /** next holds the next pointer written into each packet last; None is NULL. */
  datatype State = State(
    a: Dev, b: Dev, next: map<Packet, Option<Packet>>, procs: map<nat, Pc>, places: map<Packet, Place>) {
    function Get(d: bool): Dev {
      if d then b else a
    }

    function Set(d: bool, dev: Dev): State {
      if d then this.(b := dev) else this.(a := dev)
    }

    function Pc(q: nat): Pc {
      if q in procs then procs[q] else Idle
    }

    function Goto(q: nat, pc: Pc): State {
      this.(procs := procs[q := pc])
    }

    function Move(p: Packet, place: Place): State {
      this.(places := places[p := place])
    }
  }

  datatype Step = Transmit(d: bool) | Enqueue | Receive(d: bool) | Push | Look

  datatype Act = Act(pid: nat, step: Step)

  function Head(l: seq<Packet>): Option<Packet> {
    if l == [] then None else Some(l[0])
  }

  /**
   One step of process q.  Transmit is snull_get_tx_buffer, called only while the queue runs; with an
   empty pool it returns without unlocking.  Enqueue is snull_enqueue_buf on the twin, Receive the
   dequeue of an interrupt handler or poller, Push and Look the two halves of snull_release_buffer.
   */
  function Next(s: State, q: nat, step: Step): State {
    match step
    case Transmit(d) =>
      var dev := s.Get(d);
      if !s.Pc(q).Idle? || dev.stopped || dev.hung then s
      else if dev.pool == [] then s.Set(d, dev.(hung := true))
      else
        s.Set(d, dev.(pool := dev.pool[1..], stopped := |dev.pool| == 1))
        .Goto(q, Sending(dev.pool[0])).Move(dev.pool[0], InHand(q))
    case Enqueue =>
      if !s.Pc(q).Sending? then s
      else
        var p := s.Pc(q).p;
        var dev := s.Get(!p.home);
        if dev.hung then s
        else
          s.Set(!p.home, dev.(rx := [p] + dev.rx)).(next := s.next[p := Head(dev.rx)]).Goto(q, Idle).Move(p, InRx)
    case Receive(d) =>
      var dev := s.Get(d);
      if !s.Pc(q).Idle? || dev.rx == [] || dev.hung then s
      else s.Set(d, dev.(rx := dev.rx[1..])).Goto(q, Handling(dev.rx[0])).Move(dev.rx[0], InHand(q))
    case Push =>
      if !s.Pc(q).Handling? then s
      else
        var p := s.Pc(q).p;
        var dev := s.Get(p.home);
        if dev.hung then s
        else
          s.Set(p.home, dev.(pool := [p] + dev.pool)).(next := s.next[p := Head(dev.pool)])
          .Goto(q, Released(p)).Move(p, InPool)
    case Look =>
      if !s.Pc(q).Released? then s
      else
        var p := s.Pc(q).p;
        var dev := s.Get(p.home);
        s.Set(p.home, if Wakes(s, p) then dev.(stopped := false) else dev).Goto(q, Idle)
  }

  /** The test after the unlock in snull_release_buffer. */
  predicate Wakes(s: State, p: Packet) {
    s.Get(p.home).stopped && p in s.next && s.next[p].None?
  }

  function Run(s: State, acts: seq<Act>): State
    decreases |acts|
  {
    if acts == [] then s else Run(Next(s, acts[0].pid, acts[0].step), acts[1..])
  }

  // ----- Conservation -----

  predicate Distinct(l: seq<Packet>) {
    forall i, j :: 0 <= i < j < |l| ==> l[i] != l[j]
  }

  /** A pool holds its own packets and a receive list the twin's, each packet once. */
  ghost predicate ListsOk(s: State, d: bool) {
    var dev := s.Get(d);
    && Distinct(dev.pool) && Distinct(dev.rx)
    && (forall p :: p in dev.pool ==> p in s.places && s.places[p] == InPool && p.home == d)
    && (forall p :: p in dev.rx ==> p in s.places && s.places[p] == InRx && p.home != d)
  }

  predicate HandOk(s: State, q: nat) {
    var pc := s.Pc(q);
    pc.Sending? || pc.Handling? ==> pc.p in s.places && s.places[pc.p] == InHand(q)
  }

  /** The packet is where its place says. */
  predicate PlaceOk(s: State, p: Packet)
    requires p in s.places
  {
    match s.places[p]
    case InPool => p in s.Get(p.home).pool
    case InRx => p in s.Get(!p.home).rx
    case InHand(q) => (s.Pc(q).Sending? || s.Pc(q).Handling?) && s.Pc(q).p == p
  }

  ghost predicate Split(s: State) {
    && ListsOk(s, false) && ListsOk(s, true)
    && (forall q: nat :: HandOk(s, q))
    && (forall p :: p in s.places ==> PlaceOk(s, p))
  }

  lemma PushFront(p: Packet, l: seq<Packet>)
    requires Distinct(l) && p !in l
    ensures Distinct([p] + l) && forall x :: x in [p] + l <==> x == p || x in l
  {
  }

  lemma PopFront(l: seq<Packet>)
    requires Distinct(l) && l != []
    ensures Distinct(l[1..]) && forall x :: x in l[1..] <==> x in l && x != l[0]
  {
    forall x | x in l && x != l[0]
      ensures x in l[1..]
    {
      var i :| 0 <= i < |l| && l[i] == x;
      assert l[1..][i - 1] == x;
    }
  }

  /** What is left to show once the lists are right: everybody else's packet and every other place is as before. */
  lemma OthersStay(s: State, t: State, q: nat, p: Packet)
    requires (forall r: nat :: HandOk(s, r)) && (forall x :: x in s.places ==> PlaceOk(s, x))
    requires p in s.places && p in t.places && t.places == s.places[p := t.places[p]]
    requires t.procs == s.procs[q := t.Pc(q)]
    requires s.places[p] == InHand(q) || ((s.Pc(q).Idle? || s.Pc(q).Released?) && !s.places[p].InHand?)
    requires HandOk(t, q) && PlaceOk(t, p)
    requires forall x, d :: x != p ==>
      (x in t.Get(d).pool <==> x in s.Get(d).pool) && (x in t.Get(d).rx <==> x in s.Get(d).rx)
    ensures (forall r: nat :: HandOk(t, r)) && (forall x :: x in t.places ==> PlaceOk(t, x))
  {
    forall r: nat
      ensures HandOk(t, r)
    {
      assert HandOk(s, r);
      assert r != q ==> t.Pc(r) == s.Pc(r);
    }
    assert PlaceOk(s, p);
    forall x | x in t.places
      ensures PlaceOk(t, x)
    {
      if x != p {
        assert PlaceOk(s, x) && t.places[x] == s.places[x];
      }
    }
  }

  lemma TakingKeepsSplit(s: State, q: nat, step: Step)
    requires Split(s) && s.Pc(q).Idle? && (step.Transmit? || step.Receive?) && !s.Get(step.d).hung
    requires match step
      case Transmit(d) => !s.Get(d).stopped && s.Get(d).pool != []
      case Receive(d) => s.Get(d).rx != []
      case _ => false
    ensures Split(Next(s, q, step)) && Next(s, q, step).places.Keys == s.places.Keys
  {
    var dev, t := s.Get(step.d), Next(s, q, step);
    var l := if step.Transmit? then dev.pool else dev.rx;
    PopFront(l);
    assert l[0] in l;
    OthersStay(s, t, q, l[0]);
  }

  lemma GivingKeepsSplit(s: State, q: nat, step: Step)
    requires Split(s)
    requires match step
      case Enqueue => s.Pc(q).Sending? && !s.Get(!s.Pc(q).p.home).hung
      case Push => s.Pc(q).Handling? && !s.Get(s.Pc(q).p.home).hung
      case _ => false
    ensures Split(Next(s, q, step)) && Next(s, q, step).places.Keys == s.places.Keys
  {
    assert HandOk(s, q);
    var p, t := s.Pc(q).p, Next(s, q, step);
    PushFront(p, if step.Enqueue? then s.Get(!p.home).rx else s.Get(p.home).pool);
    OthersStay(s, t, q, p);
  }

  lemma LookingKeepsSplit(s: State, q: nat, t: State)
    requires Split(s) && !s.Pc(q).Sending? && !s.Pc(q).Handling?
    requires t.procs == s.procs[q := Idle] && t.places == s.places
    requires forall d :: t.Get(d).pool == s.Get(d).pool && t.Get(d).rx == s.Get(d).rx
    ensures Split(t)
  {
    forall r: nat
      ensures HandOk(t, r)
    {
      assert HandOk(s, r);
      assert r != q ==> t.Pc(r) == s.Pc(r);
    }
    forall x | x in t.places
      ensures PlaceOk(t, x)
    {
      assert PlaceOk(s, x);
    }
    assert t.Get(false).pool == s.Get(false).pool && t.Get(true).pool == s.Get(true).pool;
  }

  lemma HangingKeepsSplit(s: State, d: bool)
    requires Split(s)
    ensures Split(s.Set(d, s.Get(d).(hung := true)))
  {
    var t := s.Set(d, s.Get(d).(hung := true));
    forall r: nat
      ensures HandOk(t, r)
    {
      assert HandOk(s, r);
    }
    forall x | x in t.places
      ensures PlaceOk(t, x)
    {
      assert PlaceOk(s, x);
    }
  }

  lemma StepKeepsSplit(s: State, q: nat, step: Step)
    requires Split(s)
    ensures Split(Next(s, q, step)) && Next(s, q, step).places.Keys == s.places.Keys
  {
    if Next(s, q, step) != s {
      match step
      case Transmit(d) =>
        if s.Get(d).pool == [] {
          HangingKeepsSplit(s, d);
        } else {
          TakingKeepsSplit(s, q, step);
        }
      case Receive(d) => TakingKeepsSplit(s, q, step);
      case Enqueue => GivingKeepsSplit(s, q, step);
      case Push => GivingKeepsSplit(s, q, step);
      case Look => LookingKeepsSplit(s, q, Next(s, q, step));
    }
  }

  // ----- The next pointers -----

  /** Each packet of a list points to the rest of it, so that popping the first leaves its next as the new head. */
  predicate Linked(l: seq<Packet>, next: map<Packet, Option<Packet>>) {
    forall i :: 0 <= i < |l| ==> l[i] in next && next[l[i]] == Head(l[i + 1..])
  }

  predicate AllLinked(s: State) {
    Linked(s.a.pool, s.next) && Linked(s.a.rx, s.next) && Linked(s.b.pool, s.next) && Linked(s.b.rx, s.next)
  }

  lemma LinkedRest(l: seq<Packet>, next: map<Packet, Option<Packet>>)
    requires Linked(l, next) && l != []
    ensures Linked(l[1..], next) && l[0] in next && next[l[0]] == Head(l[1..])
  {
    forall i | 0 <= i < |l[1..]|
      ensures l[1..][i] in next && next[l[1..][i]] == Head(l[1..][i + 1..])
    {
      assert l[1..][i] == l[i + 1] && l[1..][i + 1..] == l[i + 2..];
    }
  }

  lemma LinkedFront(p: Packet, l: seq<Packet>, next: map<Packet, Option<Packet>>)
    requires Linked(l, next) && p !in l
    ensures Linked([p] + l, next[p := Head(l)]) && Linked(l, next[p := Head(l)])
  {
    var more := [p] + l;
    forall i | 0 <= i < |more|
      ensures more[i] in next[p := Head(l)] && next[p := Head(l)][more[i]] == Head(more[i + 1..])
    {
      assert i > 0 ==> more[i] == l[i - 1];
      assert more[i + 1..] == l[i..];
    }
  }

  lemma LinkedElsewhere(p: Packet, l: seq<Packet>, next: map<Packet, Option<Packet>>, to: Option<Packet>)
    requires Linked(l, next) && p !in l
    ensures Linked(l, next[p := to])
  {
  }

  /** A packet in somebody's hand is in no list. */
  lemma HandIsNowhere(s: State, q: nat)
    requires Split(s) && (s.Pc(q).Sending? || s.Pc(q).Handling?)
    ensures var p := s.Pc(q).p; p !in s.a.pool && p !in s.a.rx && p !in s.b.pool && p !in s.b.rx
  {
    assert HandOk(s, q);
    assert s.Get(false) == s.a && s.Get(true) == s.b;
  }

  lemma StepKeepsLinked(s: State, q: nat, step: Step)
    requires Split(s) && AllLinked(s)
    ensures AllLinked(Next(s, q, step))
  {
    hide Linked, Split;
    match step
    case Transmit(d) =>
      if s.Get(d).pool != [] {
        LinkedRest(s.Get(d).pool, s.next);
      }
    case Receive(d) =>
      if s.Get(d).rx != [] {
        LinkedRest(s.Get(d).rx, s.next);
      }
    case Look =>
    case _ =>
      if s.Pc(q).Sending? || s.Pc(q).Handling? {
        HandIsNowhere(s, q);
        var p := s.Pc(q).p;
        var l := if step.Enqueue? then s.Get(!p.home).rx else s.Get(p.home).pool;
        LinkedFront(p, l, s.next);
        LinkedElsewhere(p, s.a.pool, s.next, Head(l));
        LinkedElsewhere(p, s.a.rx, s.next, Head(l));
        LinkedElsewhere(p, s.b.pool, s.next, Head(l));
        LinkedElsewhere(p, s.b.rx, s.next, Head(l));
      }
  }

  /** The packets are split between lists and hands, and the next pointers spell the lists. */
  ghost predicate Conserved(s: State) {
    Split(s) && AllLinked(s)
  }

  lemma StepKeepsConserved(s: State, q: nat, step: Step)
    requires Conserved(s)
    ensures Conserved(Next(s, q, step)) && Next(s, q, step).places.Keys == s.places.Keys
  {
    hide Split, AllLinked;
    StepKeepsSplit(s, q, step);
    StepKeepsLinked(s, q, step);
  }

  /**
   In every interleaving no packet is lost or duplicated: those that setup allocated stay split
   between their home's pool, the twin's receive list and one process each, and each list can be
   followed by its next pointers.
   */
  lemma {:induction false} PacketsAreConserved(s: State, acts: seq<Act>)
    requires Conserved(s)
    ensures Conserved(Run(s, acts)) && Run(s, acts).places.Keys == s.places.Keys
    decreases |acts|
  {
    if acts != [] {
      StepKeepsConserved(s, acts[0].pid, acts[0].step);
      PacketsAreConserved(Next(s, acts[0].pid, acts[0].step), acts[1..]);
    }
  }

  function NewPool(d: bool, n: nat): seq<Packet> {
    seq(n, i requires 0 <= i < n => Packet(d, i))
  }

  function PoolSize(m: nat, n: nat, d: bool): nat {
    if d then n else m
  }

  /** The packet that snull_setup_pool linked behind p, in a pool of n; ids count from the head. */
  function Behind(p: Packet, n: nat): Option<Packet> {
    if p.id + 1 < n then Some(Packet(p.home, p.id + 1)) else None
  }

  /** After snull_setup_pool has run for both devices and their queues have been started. */
  function Setup(m: nat, n: nat): State {
    var a, b := NewPool(false, m), NewPool(true, n);
    var next := map p | p in a + b :: Behind(p, PoolSize(m, n, p.home));
    State(Dev(a, [], false, false), Dev(b, [], false, false), next, map[], map p | p in a + b :: InPool)
  }

  lemma SetupIsLinked(m: nat, n: nat, d: bool)
    ensures Linked(NewPool(d, PoolSize(m, n, d)), Setup(m, n).next)
  {
    var l, next := NewPool(d, PoolSize(m, n, d)), Setup(m, n).next;
    var all := NewPool(false, m) + NewPool(true, n);
    forall i | 0 <= i < |l|
      ensures l[i] in next && next[l[i]] == Head(l[i + 1..])
    {
      assert all[if d then m + i else i] == l[i] == Packet(d, i);
      assert next[l[i]] == Behind(l[i], |l|);
      assert i + 1 < |l| ==> l[i + 1..][0] == l[i + 1] == Packet(d, i + 1);
    }
  }

  lemma SetupIsSplit(m: nat, n: nat)
    ensures Split(Setup(m, n)) && (m > 0 && n > 0 ==> Supplied(Setup(m, n), false) && Supplied(Setup(m, n), true))
  {
  }

  lemma SetupIsConserved(m: nat, n: nat)
    ensures Conserved(Setup(m, n)) && (m > 0 && n > 0 ==> Supplied(Setup(m, n), false) && Supplied(Setup(m, n), true))
  {
    hide Split, Linked, Supplied;
    SetupIsSplit(m, n);
    SetupIsLinked(m, n, false);
    SetupIsLinked(m, n, true);
    EmptyIsLinked(Setup(m, n).next);
  }

  lemma EmptyIsLinked(next: map<Packet, Option<Packet>>)
    ensures Linked([], next)
  {
  }

  // ----- A running queue has packets -----

  /** What snull_get_tx_buffer relies on: while the queue runs the pool is not empty. */
  predicate Supplied(s: State, d: bool) {
    !s.Get(d).stopped ==> s.Get(d).pool != []
  }

  /** The step wakes a queue whose pool has been emptied since the packet was pushed. */
  predicate WakesEmpty(s: State, q: nat, step: Step, d: bool) {
    && step.Look? && s.Pc(q).Released? && s.Pc(q).p.home == d && s.Get(d).stopped && s.Get(d).pool == []
    && s.Pc(q).p in s.next && s.next[s.Pc(q).p] == None
  }

  lemma StaysSuppliedIff(s: State, q: nat, step: Step, d: bool)
    requires Supplied(s, d)
    ensures Supplied(Next(s, q, step), d) <==> !WakesEmpty(s, q, step, d)
  {
  }

  /** The out-of-pool path, which leaves the lock held, needs a transmit on a queue that runs without packets. */
  lemma HangsIff(s: State, q: nat, step: Step, d: bool)
    requires !s.Get(d).hung
    ensures Next(s, q, step).Get(d).hung <==>
      step == Transmit(d) && s.Pc(q).Idle? && !Supplied(s, d)
  {
  }

  /** The running queue has packets before and after every step. */
  predicate AlwaysSupplied(s: State, acts: seq<Act>, d: bool)
    decreases |acts|
  {
    Supplied(s, d) && (acts != [] ==> AlwaysSupplied(Next(s, acts[0].pid, acts[0].step), acts[1..], d))
  }

  predicate NoLateWakeUp(s: State, acts: seq<Act>, d: bool)
    decreases |acts|
  {
    acts != [] ==>
      && !WakesEmpty(s, acts[0].pid, acts[0].step, d)
      && NoLateWakeUp(Next(s, acts[0].pid, acts[0].step), acts[1..], d)
  }

  /** Along every run only a late wake-up breaks it, and until then the device does not hang. */
  lemma {:induction false} AlwaysSuppliedIff(s: State, acts: seq<Act>, d: bool)
    requires Supplied(s, d) && !s.Get(d).hung
    ensures AlwaysSupplied(s, acts, d) <==> NoLateWakeUp(s, acts, d)
    ensures NoLateWakeUp(s, acts, d) ==> !Run(s, acts).Get(d).hung
    decreases |acts|
  {
    if acts != [] {
      var q, step := acts[0].pid, acts[0].step;
      StaysSuppliedIff(s, q, step, d);
      HangsIff(s, q, step, d);
      if !WakesEmpty(s, q, step, d) {
        AlwaysSuppliedIff(Next(s, q, step), acts[1..], d);
      }
    }
  }

  /** When each release looks directly after its push, a running queue always has packets and nothing hangs. */
  lemma {:induction false} PromptReleaseNeverHangs(s: State, acts: seq<Act>)
    requires Supplied(s, false) && Supplied(s, true) && !s.a.hung && !s.b.hung
    requires forall q: nat :: !s.Pc(q).Released?
    requires forall i :: 0 <= i < |acts| && acts[i].step.Push? ==>
      i + 1 < |acts| && acts[i + 1] == Act(acts[i].pid, Look)
    ensures var t := Run(s, acts); Supplied(t, false) && Supplied(t, true) && !t.a.hung && !t.b.hung
    decreases |acts|
  {
    if acts != [] {
      var q, step := acts[0].pid, acts[0].step;
      var t := Next(s, q, step);
      StepSupplies(s, q, step);
      if step.Push? {
        PromptLookSupplies(t, q);
        var u := Next(t, q, Look);
        assert acts[1..][0] == Act(q, Look) && acts[1..][1..] == acts[2..];
        assert Run(s, acts) == Run(u, acts[2..]);
        PromptReleaseNeverHangs(u, acts[2..]);
      } else {
        PromptReleaseNeverHangs(t, acts[1..]);
      }
    }
  }

  lemma StepSupplies(s: State, q: nat, step: Step)
    requires Supplied(s, false) && Supplied(s, true) && !s.a.hung && !s.b.hung
    requires forall r: nat :: !s.Pc(r).Released?
    ensures var t := Next(s, q, step);
      && Supplied(t, false) && Supplied(t, true) && !t.a.hung && !t.b.hung
      && (forall r: nat :: r != q ==> !t.Pc(r).Released?)
      && (!step.Push? ==> !t.Pc(q).Released?)
      && (t.Pc(q).Released? ==> t.Get(t.Pc(q).p.home).pool != [])
  {
    assert !s.Pc(q).Released?;
    var t := Next(s, q, step);
    assert forall r: nat :: r != q ==> t.Pc(r) == s.Pc(r);
  }

  lemma PromptLookSupplies(t: State, q: nat)
    requires Supplied(t, false) && Supplied(t, true) && !t.a.hung && !t.b.hung
    requires forall r: nat :: r != q ==> !t.Pc(r).Released?
    requires t.Pc(q).Released? ==> t.Get(t.Pc(q).p.home).pool != []
    ensures var u := Next(t, q, Look);
      && Supplied(u, false) && Supplied(u, true) && !u.a.hung && !u.b.hung
      && (forall r: nat :: !u.Pc(r).Released?)
  {
    var u := Next(t, q, Look);
    assert forall r: nat :: r != q ==> u.Pc(r) == t.Pc(r);
  }

  // ----- A stopped queue is woken -----

  /** Process q has pushed the last packet of d's pool and is about to find that it has to wake the queue. */
  predicate Owes(s: State, q: nat, d: bool) {
    && s.Get(d).pool != [] && s.Pc(q) == Released(s.Get(d).pool[|s.Get(d).pool| - 1])
    && s.Pc(q).p.home == d && s.Pc(q).p in s.next && s.next[s.Pc(q).p] == None
  }

  ghost predicate WakeUpOwed(s: State, d: bool) {
    s.Get(d).stopped && s.Get(d).pool != [] ==> exists q: nat :: Owes(s, q, d)
  }

  /** The step of another process, which does not hold the packet, leaves the debt, unless it starts the queue. */
  lemma DebtStays(s: State, r: nat, step: Step, q: nat, d: bool)
    requires s.Get(d).stopped && Owes(s, q, d) && r != q
    requires s.Pc(r).Sending? || s.Pc(r).Handling? ==> s.Pc(r).p != s.Pc(q).p
    ensures !Next(s, r, step).Get(d).stopped || Owes(Next(s, r, step), q, d)
  {
    var t, l := Next(s, r, step), s.Get(d).pool;
    assert t.Pc(q) == s.Pc(q);
    match step
    case Push =>
      assert s.Pc(r).Handling? ==> ([s.Pc(r).p] + l)[|l|] == l[|l| - 1];
    case Transmit(e) => assert e == d ==> t == s;
    case _ => assert t.Get(d).pool == l;
  }

  /** Its own next step is the Look, which starts the queue. */
  lemma DebtIsPaid(s: State, step: Step, q: nat, d: bool)
    requires s.Get(d).stopped && Owes(s, q, d)
    ensures if step.Look? then !Next(s, q, step).Get(d).stopped
            else Next(s, q, step).Get(d).stopped ==> Owes(Next(s, q, step), q, d)
  {
  }

  /** Without a debt a step leaves the queue running or the pool empty, or it is the push that makes the debt. */
  lemma DebtStarts(s: State, r: nat, step: Step, d: bool)
    requires Conserved(s) && (s.Get(d).stopped ==> s.Get(d).pool == [])
    ensures var t := Next(s, r, step); t.Get(d).stopped && t.Get(d).pool != [] ==> Owes(t, r, d)
  {
    hide Conserved;
  }

  lemma PooledIsNotInHand(s: State, r: nat, p: Packet, d: bool)
    requires Conserved(s) && p in s.Get(d).pool
    ensures s.Pc(r).Sending? || s.Pc(r).Handling? ==> s.Pc(r).p != p
  {
    if s.Pc(r).Sending? || s.Pc(r).Handling? {
      HandIsNowhere(s, r);
    }
  }

  lemma StepKeepsWakeUpOwed(s: State, r: nat, step: Step, d: bool)
    requires Conserved(s) && WakeUpOwed(s, d)
    ensures WakeUpOwed(Next(s, r, step), d)
  {
    hide Conserved;
    if s.Get(d).stopped && s.Get(d).pool != [] {
      var q: nat :| Owes(s, q, d);
      if q == r {
        DebtIsPaid(s, step, q, d);
      } else {
        PooledIsNotInHand(s, r, s.Pc(q).p, d);
        DebtStays(s, r, step, q, d);
      }
    } else {
      DebtStarts(s, r, step, d);
    }
  }

  lemma {:induction false} RunKeepsWakeUpOwed(s: State, acts: seq<Act>, d: bool)
    requires Conserved(s) && WakeUpOwed(s, d)
    ensures WakeUpOwed(Run(s, acts), d)
    decreases |acts|
  {
    if acts != [] {
      StepKeepsConserved(s, acts[0].pid, acts[0].step);
      StepKeepsWakeUpOwed(s, acts[0].pid, acts[0].step, d);
      RunKeepsWakeUpOwed(Next(s, acts[0].pid, acts[0].step), acts[1..], d);
    }
  }

  /**
   A queue is never left stopped: in every run from setup, while it is stopped although there are
   packets, some process has pushed the last of them, and its next step starts the queue.
   */
  lemma StoppedQueueIsWoken(m: nat, n: nat, acts: seq<Act>, d: bool)
    requires Run(Setup(m, n), acts).Get(d).stopped && Run(Setup(m, n), acts).Get(d).pool != []
    ensures var s := Run(Setup(m, n), acts);
      exists q: nat :: Owes(s, q, d) && !Next(s, q, Look).Get(d).stopped
  {
    hide Conserved;
    SetupIsConserved(m, n);
    RunKeepsWakeUpOwed(Setup(m, n), acts, d);
    var s := Run(Setup(m, n), acts);
    var q: nat :| Owes(s, q, d);
    assert !Next(s, q, Look).Get(d).stopped;
  }

  // ----- From setup: which pool sizes are safe -----

  lemma {:induction false} RunJoin(s: State, first: seq<Act>, second: seq<Act>)
    ensures Run(s, first + second) == Run(Run(s, first), second)
    decreases |first|
  {
    if first == [] {
      assert first + second == second;
    } else {
      assert (first + second)[1..] == first[1..] + second;
      RunJoin(Next(s, first[0].pid, first[0].step), first[1..], second);
    }
  }

  lemma RunTwo(s: State, acts: seq<Act>)
    requires |acts| == 2
    ensures Run(s, acts) == Next(Next(s, acts[0].pid, acts[0].step), acts[1].pid, acts[1].step)
  {
    var s1 := Next(s, acts[0].pid, acts[0].step);
    assert acts[1..][1..] == [];
    assert Run(s, acts) == Run(s1, acts[1..]);
    assert Run(Next(s1, acts[1].pid, acts[1].step), []) == Next(s1, acts[1].pid, acts[1].step);
  }

  lemma RunOne(s: State, act: Act)
    ensures Run(s, [act]) == Next(s, act.pid, act.step)
  {
    assert Run(Next(s, act.pid, act.step), []) == Next(s, act.pid, act.step);
  }

  /** Device d has the packets l in its pool and can be used, and processes 1 and 3 are free. */
  predicate Ready(s: State, d: bool, l: seq<Packet>) {
    && s.Get(d).pool == l && s.Get(d).stopped == (l == [])
    && !s.Get(d).hung && !s.Get(!d).hung && s.Pc(1) == Idle && s.Pc(3) == Idle
  }

  function Sent(d: bool): seq<Act> {
    [Act(1, Transmit(d)), Act(1, Enqueue)]
  }

  function BroughtBack(d: bool): seq<Act> {
    [Act(2, Receive(!d)), Act(2, Push)]
  }

  /** Process 1 transmits the first packet of the pool. */
  lemma SendOne(s: State, d: bool, l: seq<Packet>)
    requires Ready(s, d, l) && l != [] && l[0].home == d
    ensures var t := Run(s, Sent(d));
      && Ready(t, d, l[1..]) && t.Pc(2) == s.Pc(2)
      && t.Get(!d).rx == [l[0]] + s.Get(!d).rx && t.next == s.next[l[0] := Head(s.Get(!d).rx)]
  {
    RunTwo(s, Sent(d));
    assert Next(s, 1, Transmit(d)).Pc(1) == Sending(l[0]);
  }

  /** It transmits all of them; the next pointer of a packet that is not among them stays. */
  lemma {:induction false} SendAll(s: State, d: bool, l: seq<Packet>, x: Packet) returns (acts: seq<Act>)
    requires Ready(s, d, l) && (forall p :: p in l ==> p.home == d && p != x)
    requires s.Pc(2) == Released(x) && x in s.next && s.next[x] == None
    ensures var t := Run(s, acts);
      Ready(t, d, []) && t.Pc(2) == Released(x) && x in t.next && t.next[x] == None
    decreases |l|
  {
    acts := [];
    if l != [] {
      SendOne(s, d, l);
      var rest := SendAll(Run(s, Sent(d)), d, l[1..], x);
      acts := Sent(d) + rest;
      RunJoin(s, Sent(d), rest);
    }
  }

  /** Process 1 sends the first packet, and process 2 pushes it back onto a pool that is not empty. */
  lemma SendAndPush(s: State, d: bool, l: seq<Packet>)
    requires Ready(s, d, l) && |l| > 1 && l[0].home == d && s.Get(!d).rx == [] && s.Pc(2) == Idle
    ensures var t := Run(s, Sent(d) + BroughtBack(d));
      Ready(t, d, l) && t.Get(!d).rx == [] && t.Pc(2) == Released(l[0])
  {
    SendOne(s, d, l);
    var s2 := Run(s, Sent(d));
    RunJoin(s, Sent(d), BroughtBack(d));
    RunTwo(s2, BroughtBack(d));
    var s3 := Next(s2, 2, Receive(!d));
    assert s3.Pc(2) == Handling(l[0]);
    assert [l[0]] + l[1..] == l;
  }

  /** All packets are sent before process 2, which has pushed the first of them, looks; the next transmit hangs. */
  lemma LookTooLate(s: State, d: bool, l: seq<Packet>) returns (acts: seq<Act>)
    requires Ready(s, d, l) && s.Get(!d).rx == [] && l != [] && s.Pc(2) == Released(l[0])
    requires Distinct(l) && forall p :: p in l ==> p.home == d
    ensures !Supplied(Run(s, acts), d) && Run(s, acts + [Act(3, Transmit(d))]).Get(d).hung
  {
    SendOne(s, d, l);
    var s1 := Run(s, Sent(d));
    var rest := SendAll(s1, d, l[1..], l[0]);
    var s2 := Run(s1, rest);
    var s3 := Next(s2, 2, Look);
    assert !s3.Get(d).stopped && s3.Get(d).pool == [];
    acts := Sent(d) + rest + [Act(2, Look)];
    RunJoin(s, Sent(d), rest);
    RunJoin(s, Sent(d) + rest, [Act(2, Look)]);
    RunOne(s2, Act(2, Look));
    RunJoin(s, acts, [Act(3, Transmit(d))]);
    RunOne(s3, Act(3, Transmit(d)));
  }

  /**
   It can fail.  Process 2 pushes packet x onto a pool that is not empty, and before it looks, process 1
   sends x again, which clears its next pointer, and then all the others, which stops the queue.
   Process 2 then takes x for the first packet to come back and wakes a queue without packets, and
   the next transmit hangs.
   */
  lemma LateWakeUp(m: nat, n: nat, d: bool) returns (acts: seq<Act>)
    requires PoolSize(m, n, d) > 1
    ensures !Supplied(Run(Setup(m, n), acts), d)
    ensures Run(Setup(m, n), acts + [Act(3, Transmit(d))]).Get(d).hung
  {
    var s, l := Setup(m, n), NewPool(d, PoolSize(m, n, d));
    var back, transmit := Sent(d) + BroughtBack(d), [Act(3, Transmit(d))];
    SendAndPush(s, d, l);
    var rest := LookTooLate(Run(s, back), d, l);
    acts := back + rest;
    RunJoin(s, back, rest);
    RunJoin(s, back, rest + transmit);
    assert back + (rest + transmit) == acts + transmit;
  }

  /**
   With a single packet a queue that has stopped stays stopped until the packet is back and has been
   looked at, so nobody can send it in between.
   */
  ghost predicate OnePacket(s: State, d: bool) {
    Conserved(s) && Supplied(s, d) && !s.Get(d).hung && OnlyFirst(s, d) && ReleaseWaits(s, d)
  }

  predicate OnlyFirst(s: State, d: bool) {
    forall x :: x in s.places && x.home == d ==> x == Packet(d, 0)
  }

  predicate Releasing(s: State, q: nat, d: bool) {
    s.Pc(q).Released? && s.Pc(q).p.home == d
  }

  ghost predicate ReleaseWaits(s: State, d: bool) {
    && (forall q: nat :: Releasing(s, q, d) ==> s.Get(d).stopped && s.Get(d).pool != [])
    && (forall q: nat, r: nat :: Releasing(s, q, d) && Releasing(s, r, d) ==> q == r)
  }

  lemma HeadIsIn(l: seq<Packet>)
    ensures l != [] ==> l[0] in l
  {
  }

  lemma HandledLeavesPoolEmpty(s: State, q: nat, d: bool)
    requires Conserved(s) && OnlyFirst(s, d) && s.Pc(q).Handling? && s.Pc(q).p.home == d
    ensures s.Get(d).pool == []
  {
    HeadIsIn(s.Get(d).pool);
    assert HandOk(s, q);
  }

  /** The pool of d stays filled and its queue stopped while a process other than q is releasing to it. */
  lemma OtherWaits(s: State, q: nat, step: Step, d: bool)
    requires s.Get(d).stopped && s.Get(d).pool != [] && !Releasing(s, q, d)
    requires s.Pc(q).Handling? && s.Pc(q).p.home == d ==> s.Get(d).pool == []
    ensures var t := Next(s, q, step); t.Get(d).stopped && t.Get(d).pool != [] && !Releasing(t, q, d)
  {
  }

  lemma OwnWaits(s: State, q: nat, step: Step, d: bool)
    requires Supplied(s, d) && (Releasing(s, q, d) ==> s.Get(d).stopped && s.Get(d).pool != [])
    requires s.Pc(q).Handling? && s.Pc(q).p.home == d ==> s.Get(d).pool == []
    ensures var t := Next(s, q, step); Releasing(t, q, d) ==> t.Get(d).stopped && t.Get(d).pool != []
  {
  }

  lemma ReleaseStillWaits(s: State, q: nat, step: Step, d: bool)
    requires Supplied(s, d) && ReleaseWaits(s, d)
    requires s.Pc(q).Handling? && s.Pc(q).p.home == d ==> s.Get(d).pool == []
    ensures ReleaseWaits(Next(s, q, step), d)
  {
    var t := Next(s, q, step);
    OwnWaits(s, q, step, d);
    forall r: nat | r != q && Releasing(t, r, d)
      ensures Releasing(s, r, d) && t.Get(d).stopped && t.Get(d).pool != [] && !Releasing(t, q, d)
    {
      assert t.Pc(r) == s.Pc(r);
      assert Releasing(s, r, d);
      OtherWaits(s, q, step, d);
    }
  }

  lemma StepKeepsOnePacket(s: State, q: nat, step: Step, d: bool)
    requires OnePacket(s, d)
    ensures OnePacket(Next(s, q, step), d)
  {
    StepKeepsConserved(s, q, step);
    if s.Pc(q).Handling? && s.Pc(q).p.home == d {
      HandledLeavesPoolEmpty(s, q, d);
    }
    ReleaseStillWaits(s, q, step, d);
    assert Releasing(s, q, d) ==> s.Get(d).pool != [];
    StaysSuppliedIff(s, q, step, d);
    HangsIff(s, q, step, d);
  }

  lemma {:induction false} OnePacketIsSafe(s: State, acts: seq<Act>, d: bool)
    requires OnePacket(s, d)
    ensures OnePacket(Run(s, acts), d)
    decreases |acts|
  {
    if acts != [] {
      StepKeepsOnePacket(s, acts[0].pid, acts[0].step, d);
      OnePacketIsSafe(Next(s, acts[0].pid, acts[0].step), acts[1..], d);
    }
  }

  lemma SetupHasOnePacket(m: nat, n: nat, d: bool)
    requires PoolSize(m, n, d) == 1
    ensures OnePacket(Setup(m, n), d)
  {
    SetupIsConserved(m, n);
    var s := Setup(m, n);
    assert s.Get(d).pool == NewPool(d, 1) && NewPool(d, 1)[0] == Packet(d, 0);
  }

  /**
   Which pools are safe: from setup no run empties the pool of a running queue, and none makes the
   device hang, if and only if that device's pool was set up with exactly one packet.
   */
  lemma SafeIffOnePacket(m: nat, n: nat, d: bool)
    ensures (forall acts :: Supplied(Run(Setup(m, n), acts), d)) <==> PoolSize(m, n, d) == 1
    ensures (forall acts :: !Run(Setup(m, n), acts).Get(d).hung) <==> PoolSize(m, n, d) == 1
  {
    var s := Setup(m, n);
    if PoolSize(m, n, d) == 1 {
      SetupHasOnePacket(m, n, d);
      forall acts
        ensures Supplied(Run(s, acts), d) && !Run(s, acts).Get(d).hung
      {
        OnePacketIsSafe(s, acts, d);
      }
    } else if PoolSize(m, n, d) == 0 {
      assert !Supplied(Run(s, []), d);
      RunOne(s, Act(3, Transmit(d)));
      assert Run(s, [Act(3, Transmit(d))]).Get(d).hung;
    } else {
      var acts := LateWakeUp(m, n, d);
      assert !Supplied(Run(s, acts), d) && Run(s, acts + [Act(3, Transmit(d))]).Get(d).hung;
    }
  }
}
