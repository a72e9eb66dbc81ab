/**
 The socket server as a step system: any number of client threads (threadfunc in aesdsocket.c)
 run interleaved, one mutex orders their work on the device.  Allocation, open and the copies
 succeed and nobody else uses the device; AesdServer shows what one client does when they may fail.
 */
module AesdServerRuns {
  import opened Common
  import opened AesdSpec
  import opened AesdServer

  datatype Pc =
    | Receiving(chunks: seq<seq<Byte>>)
    | Ready(m: seq<Byte>)                 // message complete, about to take the mutex
    | Opened(m: seq<Byte>)                // holds the mutex, device open at position 0
    | Stored(m: seq<Byte>)                // holds the mutex, about to reopen the device
    | Reading(m: seq<Byte>, seek: Option<(nat, nat)>, start: nat, sent: seq<Byte>)
    | Done(m: seq<Byte>, seek: Option<(nat, nat)>, reply: seq<Byte>, at: nat)

  datatype Choice = Chunk(bytes: seq<Byte>) | HangUp | Scanned(numbers: Option<(nat, nat)>) | Go

  datatype Act = Act(pid: nat, choice: Choice)

  datatype Entry = Entry(pid: nat, m: seq<Byte>)

  /** log is a history variable: who stored which message, in the order of the mutex. */
  datatype State = State(store: Store, lock: Option<nat>, threads: map<nat, Pc>, log: seq<Entry>) {
    function Pc(p: nat): Pc {
      if p in threads then threads[p] else Receiving([])
    }

    function Goto(p: nat, pc: Pc): State {
      this.(threads := threads[p := pc])
    }
  }

  const INIT := State(EMPTY, None, map[], [])

  /** One more read and send; an empty read ends the conversation. */
  function ReadOn(cmds: seq<seq<Byte>>, pc: Pc, at: nat): Pc
    requires pc.Reading?
  {
    var bytes := Window(Flat(cmds), pc.start + |pc.sent|, SEND_BUF);
    if bytes != [] then Reading(pc.m, pc.seek, pc.start, pc.sent + bytes)
    else Done(pc.m, pc.seek, pc.sent, at)
  }

  function Next(s: State, p: nat, c: Choice): State {
    match s.Pc(p)
    case Receiving(chunks) =>
      if c.Chunk? && c.bytes != [] then
        var all := chunks + [c.bytes];
        if NEWLINE in c.bytes then s.Goto(p, Ready(Message(all))) else s.Goto(p, Receiving(all))
      else if c.HangUp? then s.Goto(p, Ready(Message(chunks)))
      else s
    case Ready(m) =>
      if c.Go? && s.lock.None? then s.(lock := Some(p)).Goto(p, Opened(m)) else s
    case Opened(m) =>
      if IsSeek(m) then
        if c.Scanned? then s.Goto(p, Reading(m, c.numbers, StartOf(s.store.cmds, c.numbers), [])) else s
      else if !c.Go? then s
      else if m == [] then s.Goto(p, Stored(m))
      else s.(store := Accept(s.store, m), log := s.log + [Entry(p, m)]).Goto(p, Stored(m))
    case Stored(m) =>
      if c.Go? then s.Goto(p, Reading(m, None, 0, [])) else s
    case Reading(_, _, _, _) =>
      if !c.Go? then s
      else
        var pc := ReadOn(s.store.cmds, s.Pc(p), |s.log|);
        (if pc.Done? then s.(lock := None) else s).Goto(p, pc)
    case Done(_, _, _, _) => s
  }

  function Run(s: State, acts: seq<Act>): State
    decreases |acts|
  {
    if acts == [] then s else Run(Next(s, acts[0].pid, acts[0].choice), acts[1..])
  }

  // ----- The invariant -----

  function Messages(log: seq<Entry>): (ms: seq<seq<Byte>>)
    ensures |ms| == |log|
    ensures forall i :: 0 <= i < |log| ==> ms[i] == log[i].m
  {
    seq(|log|, i requires 0 <= i < |log| => log[i].m)
  }

  /** The commands on the device when the first n messages have been stored. */
  function CommandsAfter(log: seq<Entry>, n: nat): seq<seq<Byte>>
    requires n <= |log|
  {
    LastTen(Messages(log[..n]))
  }

  predicate HoldsLock(pc: Pc) {
    pc.Opened? || pc.Stored? || pc.Reading?
  }

  predicate IsCommand(m: seq<Byte>) {
    0 < |m| <= FULL_BUF && m[|m| - 1] == NEWLINE
  }

  /** A client that is neither seeking nor empty has the newest log entry while it holds the mutex. */
  predicate Newest(log: seq<Entry>, n: nat, p: nat, m: seq<Byte>)
    requires n <= |log|
  {
    !IsSeek(m) && m != [] ==> n > 0 && log[n - 1] == Entry(p, m)
  }

  /** What has been sent so far is a window of the data at the place the client asked for. */
  predicate ReadingOk(cmds: seq<seq<Byte>>, pc: Pc)
    requires pc.Reading?
  {
    pc.start == StartOf(cmds, pc.seek) && pc.sent == Window(Flat(cmds), pc.start, |pc.sent|)
  }

  /** The reply is everything from that place on. */
  predicate DoneOk(cmds: seq<seq<Byte>>, pc: Pc)
    requires pc.Done?
  {
    pc.reply == From(Flat(cmds), StartOf(cmds, pc.seek))
  }

  predicate ThreadOk(s: State, p: nat) {
    var pc := s.Pc(p);
    && (HoldsLock(pc) <==> s.lock == Some(p))
    && (!pc.Receiving? ==> pc.m == [] || IsCommand(pc.m))
    && (pc.Stored? ==> !IsSeek(pc.m) && Newest(s.log, |s.log|, p, pc.m))
    && (pc.Reading? ==>
      && Newest(s.log, |s.log|, p, pc.m)
      && (!IsSeek(pc.m) ==> pc.seek.None?)
      && ReadingOk(s.store.cmds, pc))
    && (pc.Done? ==>
      && pc.at <= |s.log|
      && Newest(s.log, pc.at, p, pc.m)
      && (!IsSeek(pc.m) ==> pc.seek.None?)
      && DoneOk(CommandsAfter(s.log, pc.at), pc))
  }

  /** The device holds the last ten messages in the order of the mutex, never a partial line. */
  predicate StoreOk(s: State) {
    && s.store == Store(CommandsAfter(s.log, |s.log|), [])
    && (forall e :: e in s.log ==> IsCommand(e.m) && !IsSeek(e.m))
  }

  ghost predicate Inv(s: State) {
    StoreOk(s) && forall p: nat :: ThreadOk(s, p)
  }

  lemma StoringKeepsStore(s: State, e: Entry)
    requires StoreOk(s) && IsCommand(e.m) && !IsSeek(e.m)
    ensures StoreOk(s.(store := Accept(s.store, e.m), log := s.log + [e]))
  {
    var log := s.log + [e];
    assert NEWLINE in e.m;
    assert s.log[..|s.log|] == s.log && log[..|log|] == log;
    assert Messages(log) == Messages(s.log) + [e.m];
    assert [] + e.m == e.m;
    assert LastTen(LastTen(Messages(s.log)) + [e.m]) == LastTen(Messages(log));
  }

  /** A finished client stays right when the log grows. */
  lemma GrowingKeepsDone(s: State, t: State, q: nat)
    requires ThreadOk(s, q) && !HoldsLock(s.Pc(q))
    requires t.Pc(q) == s.Pc(q) && t.lock != Some(q) && s.log <= t.log
    ensures ThreadOk(t, q)
  {
    var pc := s.Pc(q);
    if pc.Done? {
      assert t.log[..pc.at] == s.log[..pc.at];
    }
  }

  /** One more round of the read-back loop keeps what was sent a window, and ends with the whole rest. */
  lemma ReadingGoesOn(cmds: seq<seq<Byte>>, pc: Pc, at: nat)
    requires pc.Reading? && ReadingOk(cmds, pc)
    ensures var next := ReadOn(cmds, pc, at);
      && (next.Reading? ==> ReadingOk(cmds, next) && next.m == pc.m && next.seek == pc.seek)
      && (!next.Reading? ==> next == Done(pc.m, pc.seek, pc.sent, at) && DoneOk(cmds, next))
  {
    var bytes := Window(Flat(cmds), pc.start + |pc.sent|, SEND_BUF);
    OneMoreRound(Flat(cmds), pc.start, pc.sent, SEND_BUF, bytes);
    if bytes == [] {
      WindowToTheEnd(Flat(cmds), pc.start, |pc.sent|);
    }
  }

  lemma ReadingKeepsThread(s: State, p: nat)
    requires StoreOk(s) && ThreadOk(s, p) && s.Pc(p).Reading?
    ensures ThreadOk(Next(s, p, Go), p)
  {
    ReadingGoesOn(s.store.cmds, s.Pc(p), |s.log|);
  }

  lemma ReceivingKeepsThread(s: State, p: nat, c: Choice)
    requires ThreadOk(s, p) && s.Pc(p).Receiving?
    ensures ThreadOk(Next(s, p, c), p)
  {
    MessageIsCommand(s.Pc(p).chunks);
    if c.Chunk? {
      MessageIsCommand(s.Pc(p).chunks + [c.bytes]);
    }
  }

  lemma ServingKeepsThread(s: State, p: nat, c: Choice)
    requires StoreOk(s) && ThreadOk(s, p) && !s.Pc(p).Receiving? && !s.Pc(p).Reading?
    ensures ThreadOk(Next(s, p, c), p)
  {
  }

  lemma StepKeepsThread(s: State, p: nat, c: Choice)
    requires StoreOk(s) && ThreadOk(s, p)
    ensures ThreadOk(Next(s, p, c), p)
  {
    if s.Pc(p).Receiving? {
      ReceivingKeepsThread(s, p, c);
    } else if !s.Pc(p).Reading? {
      ServingKeepsThread(s, p, c);
    } else if c.Go? {
      ReadingKeepsThread(s, p);
    }
  }

  lemma StepKeepsStore(s: State, p: nat, c: Choice)
    requires StoreOk(s) && ThreadOk(s, p)
    ensures StoreOk(Next(s, p, c)) && s.log <= Next(s, p, c).log
  {
    if s.Pc(p).Opened? && Next(s, p, c).log != s.log {
      StoringKeepsStore(s, Entry(p, s.Pc(p).m));
    }
  }

  lemma StepKeepsOther(s: State, p: nat, c: Choice, q: nat)
    requires ThreadOk(s, p) && ThreadOk(s, q) && q != p && s.log <= Next(s, p, c).log
    ensures ThreadOk(Next(s, p, c), q)
  {
    var t := Next(s, p, c);
    assert t.Pc(q) == s.Pc(q);
    if HoldsLock(s.Pc(q)) {
      assert !HoldsLock(s.Pc(p));
    } else {
      GrowingKeepsDone(s, t, q);
    }
  }

  lemma StepKeepsInv(s: State, p: nat, c: Choice)
    requires Inv(s)
    ensures Inv(Next(s, p, c))
    ensures s.log <= Next(s, p, c).log
  {
    hide ThreadOk, StoreOk, Next;
    assert ThreadOk(s, p);
    StepKeepsThread(s, p, c);
    StepKeepsStore(s, p, c);
    forall q: nat
      ensures ThreadOk(Next(s, p, c), q)
    {
      assert ThreadOk(s, q);
      if q != p {
        StepKeepsOther(s, p, c, q);
      }
    }
  }

  lemma {:induction false} RunKeepsInv(s: State, acts: seq<Act>)
    requires Inv(s)
    ensures Inv(Run(s, acts))
    ensures s.log <= Run(s, acts).log
    decreases |acts|
  {
    if acts != [] {
      StepKeepsInv(s, acts[0].pid, acts[0].choice);
      RunKeepsInv(Next(s, acts[0].pid, acts[0].choice), acts[1..]);
    }
  }

  lemma InitInv()
    ensures Inv(INIT)
  {
  }

  // ----- Where messages come from -----

  /** What recv returns to client p in a run, up to the end of its message. */
  function Heard(acts: seq<Act>, p: nat): seq<seq<Byte>>
    decreases |acts|
  {
    if acts == [] then []
    else if acts[0].pid == p && acts[0].choice.HangUp? then []
    else if acts[0].pid == p && acts[0].choice.Chunk? && acts[0].choice.bytes != [] then
      [acts[0].choice.bytes] + if NEWLINE in acts[0].choice.bytes then [] else Heard(acts[1..], p)
    else Heard(acts[1..], p)
  }

  lemma {:induction false} MessageStays(s: State, acts: seq<Act>, p: nat)
    requires !s.Pc(p).Receiving?
    ensures !Run(s, acts).Pc(p).Receiving? && Run(s, acts).Pc(p).m == s.Pc(p).m
    decreases |acts|
  {
    if acts != [] {
      MessageStays(Next(s, acts[0].pid, acts[0].choice), acts[1..], p);
    }
  }

  lemma {:induction false} MessageIsHeard(s: State, acts: seq<Act>, p: nat)
    requires s.Pc(p).Receiving?
    ensures var pc, all := Run(s, acts).Pc(p), s.Pc(p).chunks + Heard(acts, p);
      if pc.Receiving? then pc.chunks == all else pc.m == Message(all)
    decreases |acts|
  {
    if acts == [] {
      assert s.Pc(p).chunks + [] == s.Pc(p).chunks;
    } else {
      var t := Next(s, acts[0].pid, acts[0].choice);
      if t.Pc(p).Receiving? {
        MessageIsHeard(t, acts[1..], p);
        assert t.Pc(p).chunks + Heard(acts[1..], p) == s.Pc(p).chunks + Heard(acts, p);
      } else {
        MessageStays(t, acts[1..], p);
        var c := acts[0].choice;
        assert s.Pc(p).chunks + [] == s.Pc(p).chunks;
        assert c.Chunk? ==> [c.bytes] + [] == [c.bytes] == Heard(acts, p);
      }
    }
  }

  /** In every run a client's message is made of the chunks it was sent, and of nobody else's. */
  lemma MessagesComeFromTheirClients(acts: seq<Act>, p: nat)
    requires !Run(INIT, acts).Pc(p).Receiving?
    ensures Run(INIT, acts).Pc(p).m == Message(Heard(acts, p))
  {
    MessageIsHeard(INIT, acts, p);
    assert [] + Heard(acts, p) == Heard(acts, p);
  }

  // ----- A client left alone -----

  lemma {:induction false} RunJoin(s: State, first: seq<Act>, second: seq<Act>)
    ensures Run(s, first + second) == Run(Run(s, first), second)
    decreases |first|
  {
    if first == [] {
      assert first + second == second;
    } else {
      assert (first + second)[1..] == first[1..] + second;
      RunJoin(Next(s, first[0].pid, first[0].choice), first[1..], second);
    }
  }

  lemma RunOne(s: State, p: nat, c: Choice)
    ensures Run(s, [Act(p, c)]) == Next(s, p, c)
  {
    assert Run(Next(s, p, c), []) == Next(s, p, c);
  }

  /** The rest of the read-back loop: it ends, and gives the mutex back. */
  lemma {:induction false} ReadingEnds(s: State, p: nat) returns (acts: seq<Act>)
    requires s.Pc(p).Reading? && ReadingOk(s.store.cmds, s.Pc(p))
    ensures var pc := s.Pc(p);
      Run(s, acts) == s.(lock := None).Goto(p, Done(pc.m, pc.seek, From(Flat(s.store.cmds), pc.start), |s.log|))
    ensures forall a :: a in acts ==> a.pid == p
    decreases |Flat(s.store.cmds)| - s.Pc(p).start - |s.Pc(p).sent|
  {
    var pc, flat, t := s.Pc(p), Flat(s.store.cmds), Next(s, p, Go);
    OneMoreRound(flat, pc.start, pc.sent, SEND_BUF, Window(flat, pc.start + |pc.sent|, SEND_BUF));
    ReadingGoesOn(s.store.cmds, pc, |s.log|);
    RunOne(s, p, Go);
    if t.Pc(p).Done? {
      WindowToTheEnd(flat, pc.start, |pc.sent|);
      acts := [Act(p, Go)];
    } else {
      var rest := ReadingEnds(t, p);
      acts := [Act(p, Go)] + rest;
      RunJoin(s, [Act(p, Go)], rest);
      var done := Done(pc.m, pc.seek, From(flat, pc.start), |s.log|);
      assert t.threads[p := done] == s.threads[p := done];
    }
  }

  /** What one client's turn makes of the state: as Serve while there is memory, with the mutex free again. */
  function AfterTurn(s: State, p: nat, m: seq<Byte>, scan: Option<(nat, nat)>): State {
    if IsSeek(m) then
      s.Goto(p, Done(m, scan, From(Flat(s.store.cmds), StartOf(s.store.cmds, scan)), |s.log|))
    else if m == [] then
      s.Goto(p, Done(m, None, From(Flat(s.store.cmds), 0), |s.log|))
    else
      var t := s.(store := Accept(s.store, m), log := s.log + [Entry(p, m)]);
      t.Goto(p, Done(m, None, From(Flat(t.store.cmds), 0), |t.log|))
  }

  /** From an open device on: seek or write, reopen, read back. */
  lemma TurnEnds(s: State, p: nat, scan: Option<(nat, nat)>) returns (acts: seq<Act>)
    requires s.Pc(p).Opened?
    ensures Run(s, acts) == AfterTurn(s.(lock := None), p, s.Pc(p).m, scan)
    ensures forall a :: a in acts ==> a.pid == p
  {
    var m := s.Pc(p).m;
    var start := if IsSeek(m) then [Act(p, Scanned(scan))] else [Act(p, Go), Act(p, Go)];
    var t := Run(s, start);
    if IsSeek(m) {
      RunOne(s, p, Scanned(scan));
    } else {
      RunOne(s, p, Go);
      RunOne(Next(s, p, Go), p, Go);
      RunJoin(s, [Act(p, Go)], [Act(p, Go)]);
      assert [Act(p, Go)] + [Act(p, Go)] == start;
    }
    var rest := ReadingEnds(t, p);
    acts := start + rest;
    RunJoin(s, start, rest);
    var u := AfterTurn(s.(lock := None), p, m, scan);
    assert t.threads[p := u.Pc(p)] == u.threads;
  }

  /** A client whose message is complete is served to the end whenever it finds the mutex free. */
  lemma ClientIsServed(s: State, p: nat, scan: Option<(nat, nat)>) returns (acts: seq<Act>)
    requires s.lock.None? && s.Pc(p).Ready?
    ensures Run(s, acts) == AfterTurn(s, p, s.Pc(p).m, scan)
    ensures forall a :: a in acts ==> a.pid == p
  {
    hide AfterTurn;
    var t := s.(lock := Some(p)).Goto(p, Opened(s.Pc(p).m));
    RunOne(s, p, Go);
    var rest := TurnEnds(t, p, scan);
    acts := [Act(p, Go)] + rest;
    RunJoin(s, [Act(p, Go)], rest);
    TurnForgetsPc(s, p, scan, s.Pc(p).m);
  }

  lemma TurnForgetsPc(s: State, p: nat, scan: Option<(nat, nat)>, m: seq<Byte>)
    requires s.lock.None?
    ensures AfterTurn(s.(lock := Some(p)).Goto(p, Opened(m)).(lock := None), p, m, scan) == AfterTurn(s, p, m, scan)
  {
    var u := AfterTurn(s, p, m, scan);
    assert s.threads[p := Opened(m)][p := u.Pc(p)] == s.threads[p := u.Pc(p)];
  }

  // ----- What clients see -----

  /**
   Replies linearise: in every run a finished client that stored a message m is served at its own
   place in the mutex order, and its reply is the last ten messages up to and including m.
   */
  lemma RepliesLinearise(acts: seq<Act>, p: nat)
    requires var pc := Run(INIT, acts).Pc(p); pc.Done? && !IsSeek(pc.m) && pc.m != []
    ensures var s, pc := Run(INIT, acts), Run(INIT, acts).Pc(p);
      && IsCommand(pc.m)
      && 0 < pc.at <= |s.log| && s.log[pc.at - 1] == Entry(p, pc.m)
      && pc.reply == Flat(LastTen(Messages(s.log[..pc.at])))
      && |pc.m| <= |pc.reply| && pc.reply[|pc.reply| - |pc.m|..] == pc.m
  {
    var s := Run(INIT, acts);
    InitInv();
    RunKeepsInv(INIT, acts);
    assert ThreadOk(s, p);
    var pc := s.Pc(p);
    var cmds := CommandsAfter(s.log, pc.at);
    assert cmds[|cmds| - 1] == pc.m;
    CommandAt(cmds, |cmds| - 1);
    StartNext(cmds, |cmds| - 1);
    assert cmds[..|cmds|] == cmds;
  }

  /**
   A seeking client gets exactly the rest of the data from the command and offset it named, everything
   if the seek is refused, and nothing if it names a command that does not exist and is accepted all
   the same; its message is not stored.
   */
  lemma SeekRepliesWithSuffix(acts: seq<Act>, p: nat)
    requires var pc := Run(INIT, acts).Pc(p); pc.Done? && IsSeek(pc.m)
    ensures var s, pc := Run(INIT, acts), Run(INIT, acts).Pc(p);
      && pc.at <= |s.log| && (forall e :: e in s.log ==> e.m != pc.m)
      && var cmds := LastTen(Messages(s.log[..pc.at]));
      && (pc.seek.None? ==> pc.reply == Flat(cmds))
      && (pc.seek.Some? && pc.seek.value.0 < |cmds| ==>
          var (cmd, off) := pc.seek.value;
          pc.reply == if off < |cmds[cmd]| then cmds[cmd][off..] + Flat(cmds[cmd + 1..]) else Flat(cmds))
      && (pc.seek.Some? && pc.seek.value.0 >= |cmds| ==>
          pc.reply == if |cmds| == SLOTS && pc.seek.value.1 < |cmds[SLOTS - 1]| then [] else Flat(cmds))
  {
    var s := Run(INIT, acts);
    InitInv();
    RunKeepsInv(INIT, acts);
    assert ThreadOk(s, p);
    var pc := s.Pc(p);
    var cmds := CommandsAfter(s.log, pc.at);
    if pc.seek.Some? && pc.seek.value.0 < |cmds| && pc.seek.value.1 < |cmds[pc.seek.value.0]| {
      SuffixFrom(cmds, pc.seek.value.0, pc.seek.value.1);
    }
  }

  /** Client q has not been served before the log had n entries. */
  predicate ServedAfter(s: State, q: nat, n: nat) {
    && n <= |s.log|
    && (s.Pc(q).Done? ==> n <= s.Pc(q).at && (!IsSeek(s.Pc(q).m) && s.Pc(q).m != [] ==> n < s.Pc(q).at))
    && (s.Pc(q).Stored? || s.Pc(q).Reading? ==> !IsSeek(s.Pc(q).m) && s.Pc(q).m != [] ==> n < |s.log|)
  }

  lemma StepStaysServedAfter(s: State, p: nat, c: Choice, q: nat, n: nat)
    requires ThreadOk(s, q) && ServedAfter(s, q, n)
    ensures ServedAfter(Next(s, p, c), q, n)
  {
  }

  lemma {:induction false} StaysServedAfter(s: State, acts: seq<Act>, q: nat, n: nat)
    requires Inv(s) && ServedAfter(s, q, n)
    ensures ServedAfter(Run(s, acts), q, n)
    decreases |acts|
  {
    if acts != [] {
      StepKeepsInv(s, acts[0].pid, acts[0].choice);
      assert ThreadOk(s, q);
      StepStaysServedAfter(s, acts[0].pid, acts[0].choice, q, n);
      StaysServedAfter(Next(s, acts[0].pid, acts[0].choice), acts[1..], q, n);
    }
  }

  /**
   The order is the real-time order: a client that takes the mutex after another has finished sees
   at least what that one saw, and comes strictly later if it stores a message.
   */
  lemma RealTimeOrder(before: seq<Act>, after: seq<Act>, p: nat, q: nat)
    requires Run(INIT, before).Pc(p).Done?
    requires Run(INIT, before).Pc(q).Receiving? || Run(INIT, before).Pc(q).Ready?
    requires Run(Run(INIT, before), after).Pc(q).Done?
    ensures var first, later := Run(INIT, before).Pc(p), Run(Run(INIT, before), after).Pc(q);
      && first.at <= later.at
      && (!IsSeek(later.m) && later.m != [] ==> first.at < later.at)
  {
    var s := Run(INIT, before);
    InitInv();
    RunKeepsInv(INIT, before);
    assert ThreadOk(s, p) && ThreadOk(s, q);
    StaysServedAfter(s, after, q, s.Pc(p).at);
  }
}
