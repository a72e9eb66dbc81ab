/** What the aesdchar device stores, as values: the meaning the driver code is proved against. */
module AesdSpec {
  import opened Common

  const NEWLINE: Byte := 10

  /** AESDCHAR_MAX_WRITE_OPERATIONS_SUPPORTED */
  const SLOTS: nat := 10

  /** The commands kept, oldest first, and the unfinished line after them. */
  datatype Store = Store(cmds: seq<seq<Byte>>, partial: seq<Byte>)

  const EMPTY := Store([], [])

  /** All pieces joined end to end: what a reader of the device sees. */
  function Flat(pieces: seq<seq<Byte>>): seq<Byte> {
    if pieces == [] then [] else pieces[0] + Flat(pieces[1..])
  }

  function LastTen<T>(s: seq<T>): seq<T> {
    if |s| <= SLOTS then s else s[|s| - SLOTS..]
  }

  /** One write: its bytes end a command if there is a newline among them, and are held back otherwise. */
  function Accept(st: Store, data: seq<Byte>): Store {
    if NEWLINE in data then Store(LastTen(st.cmds + [st.partial + data]), [])
    else Store(st.cmds, st.partial + data)
  }

  /** What a store reached by writes looks like. */
  predicate Proper(st: Store) {
    && |st.cmds| <= SLOTS
    && (forall c :: c in st.cmds ==> NEWLINE in c)
    && NEWLINE !in st.partial
  }

  lemma AcceptKeepsProper(st: Store, data: seq<Byte>)
    requires Proper(st)
    ensures Proper(Accept(st, data))
  {
    var c := st.partial + data;
    if NEWLINE in data {
      var i :| 0 <= i < |data| && data[i] == NEWLINE;
      assert c[|st.partial| + i] == NEWLINE;
    }
  }

  lemma {:induction false} FlatAppend(a: seq<seq<Byte>>, b: seq<seq<Byte>>)
    ensures Flat(a + b) == Flat(a) + Flat(b)
  {
    if a == [] {
      assert a + b == b;
    } else {
      assert (a + b)[1..] == a[1..] + b;
      FlatAppend(a[1..], b);
    }
  }

  lemma FlatSingle(c: seq<Byte>)
    ensures Flat([c]) == c
  {
    assert [c][1..] == [];
  }

  // ----- Runs of writes -----

  function AfterWrites(writes: seq<seq<Byte>>): Store {
    if writes == [] then EMPTY else Accept(AfterWrites(writes[..|writes| - 1]), writes[|writes| - 1])
  }

  /** The same run on a device that never forgets: every command ever finished, and the unfinished line. */
  function History(writes: seq<seq<Byte>>): Store {
    if writes == [] then EMPTY
    else
      var h := History(writes[..|writes| - 1]);
      var data := writes[|writes| - 1];
      if NEWLINE in data then Store(h.cmds + [h.partial + data], []) else Store(h.cmds, h.partial + data)
  }

  lemma AfterOneMore(writes: seq<seq<Byte>>, data: seq<Byte>)
    ensures AfterWrites(writes + [data]) == Accept(AfterWrites(writes), data)
    ensures Proper(AfterWrites(writes))
  {
    assert (writes + [data])[..|writes|] == writes;
    DeviceKeepsLastTen(writes);
  }

  /** The device keeps exactly the last ten commands of the history, and no written byte is lost, repeated or moved. */
  lemma {:induction false} DeviceKeepsLastTen(writes: seq<seq<Byte>>)
    ensures AfterWrites(writes) == Store(LastTen(History(writes).cmds), History(writes).partial)
    ensures |AfterWrites(writes).cmds| == Min(|History(writes).cmds|, 10)
    ensures Proper(AfterWrites(writes))
    ensures Flat(History(writes).cmds) + History(writes).partial == Flat(writes)
  {
    if writes != [] {
      var before, data := writes[..|writes| - 1], writes[|writes| - 1];
      DeviceKeepsLastTen(before);
      AcceptKeepsProper(AfterWrites(before), data);
      var h := History(before);
      assert writes == before + [data];
      FlatAppend(before, [data]);
      FlatSingle(data);
      Regroup(Flat(h.cmds), h.partial, data);
      if NEWLINE in data {
        FlatAppend(h.cmds, [h.partial + data]);
        FlatSingle(h.partial + data);
        assert LastTen(LastTen(h.cmds) + [h.partial + data]) == LastTen(h.cmds + [h.partial + data]);
      }
    }
  }

  // ----- Positions -----

  /** The offset at which command k starts. */
  function Start(cmds: seq<seq<Byte>>, k: nat): nat
    requires k <= |cmds|
  {
    |Flat(cmds[..k])|
  }

  /** Byte b of command k is at position p. */
  predicate LiesAt(cmds: seq<seq<Byte>>, k: nat, b: nat, p: nat) {
    k < |cmds| && b < |cmds[k]| && Start(cmds, k) + b == p
  }

  /** The bytes a read of count bytes at position p delivers. */
  function Window(flat: seq<Byte>, p: nat, count: nat): seq<Byte> {
    if p >= |flat| then [] else flat[p..Min(p + count, |flat|)]
  }

  lemma StartNext(cmds: seq<seq<Byte>>, k: nat)
    requires k < |cmds|
    ensures Start(cmds, k + 1) == Start(cmds, k) + |cmds[k]|
    ensures Flat(cmds[..k + 1]) == Flat(cmds[..k]) + cmds[k]
  {
    assert cmds[..k + 1] == cmds[..k] + [cmds[k]];
    FlatAppend(cmds[..k], [cmds[k]]);
    FlatSingle(cmds[k]);
  }

  lemma StartMonotone(cmds: seq<seq<Byte>>, j: nat, k: nat)
    requires j <= k <= |cmds|
    ensures Start(cmds, j) <= Start(cmds, k)
  {
    assert cmds[..k] == cmds[..j] + cmds[j..k];
    FlatAppend(cmds[..j], cmds[j..k]);
  }

  /** Where command k lies in the joined bytes. */
  lemma CommandAt(cmds: seq<seq<Byte>>, k: nat)
    requires k < |cmds|
    ensures Start(cmds, k) + |cmds[k]| <= |Flat(cmds)|
    ensures Flat(cmds)[Start(cmds, k)..Start(cmds, k) + |cmds[k]|] == cmds[k]
  {
    assert cmds == cmds[..k + 1] + cmds[k + 1..];
    FlatAppend(cmds[..k + 1], cmds[k + 1..]);
    StartNext(cmds, k);
  }

  /** A position lies in at most one command: seeking to a command and looking the position up returns to it. */
  lemma PositionIsUnique(cmds: seq<seq<Byte>>, j: nat, a: nat, k: nat, b: nat)
    requires j < |cmds| && k < |cmds| && LiesAt(cmds, j, a, Start(cmds, k) + b) && b < |cmds[k]|
    ensures j == k && a == b
  {
    StartNext(cmds, j);
    StartNext(cmds, k);
    if j < k {
      StartMonotone(cmds, j + 1, k);
    } else if k < j {
      StartMonotone(cmds, k + 1, j);
    }
  }

  lemma SliceOfSlice(s: seq<Byte>, at: nat, len: nat, off: nat, n: nat)
    requires at + len <= |s| && off + n <= len
    ensures s[at..at + len][off..off + n] == s[at + off..at + off + n]
  {
    var a, b := s[at..at + len][off..off + n], s[at + off..at + off + n];
    assert forall i :: 0 <= i < n ==> a[i] == b[i];
  }

  lemma JoinSlices(s: seq<Byte>, a: nat, b: nat, c: nat)
    requires a <= b <= c <= |s|
    ensures s[a..b] + s[b..c] == s[a..c]
  {
  }

  /** Copying on from inside command k continues a window of the joined bytes. */
  lemma ExtendWindow(cmds: seq<seq<Byte>>, k: nat, off: nat, start: nat, n: nat, copied: seq<Byte>)
    requires LiesAt(cmds, k, off, start + |copied|) && off + n <= |cmds[k]|
    requires copied == Window(Flat(cmds), start, |copied|)
    ensures copied + cmds[k][off..off + n] == Window(Flat(cmds), start, |copied| + n)
  {
    CommandAt(cmds, k);
    var flat, at := Flat(cmds), Start(cmds, k);
    SliceOfSlice(flat, at, |cmds[k]|, off, n);
    JoinSlices(flat, start, at + off, at + off + n);
  }

  /** A shorter window is the beginning of a longer one, and all of it once the data ends. */
  lemma WindowGrows(flat: seq<Byte>, start: nat, done: nat, count: nat)
    requires done <= count
    ensures Window(flat, start, done) <= Window(flat, start, count)
    ensures start + done >= |flat| || done == count ==> Window(flat, start, done) == Window(flat, start, count)
  {
  }

  /** Consecutive reads deliver consecutive windows. */
  lemma WindowsJoin(flat: seq<Byte>, start: nat, done: nat, count: nat)
    requires |Window(flat, start, done)| == done
    ensures Window(flat, start, done) + Window(flat, start + done, count) == Window(flat, start, done + count)
  {
    if start + done <= |flat| {
      JoinSlices(flat, start, start + done, Min(start + done + count, |flat|));
    }
  }

  /** Everything from a position on, nothing if it is past the end. */
  function From(flat: seq<Byte>, p: nat): seq<Byte> {
    if p <= |flat| then flat[p..] else []
  }

  /** One round of a read-back loop: what has arrived is again a window, and an empty round means the end is reached. */
  lemma OneMoreRound(flat: seq<Byte>, start: nat, sent: seq<Byte>, count: nat, bytes: seq<Byte>)
    requires sent == Window(flat, start, |sent|) && count > 0
    requires bytes == Window(flat, start + |sent|, count)
    ensures sent + bytes == Window(flat, start, |sent| + |bytes|)
    ensures bytes == [] ==> start + |sent| >= |flat|
    ensures bytes != [] ==> |flat| - (start + |sent| + |bytes|) < |flat| - (start + |sent|) && start + |sent| < |flat|
  {
    WindowsJoin(flat, start, |sent|, |bytes|);
  }

  /** A window that reaches the end of the data is everything from its start. */
  lemma WindowToTheEnd(flat: seq<Byte>, start: nat, n: nat)
    requires start + n >= |flat|
    ensures Window(flat, start, n) == From(flat, start)
  {
  }

  // ----- AESDCHAR_IOCSEEKTO -----

  /** The position the ioctl seeks to, as the code computes it; None is -EINVAL. */
  function SeekTarget(cmds: seq<seq<Byte>>, cmd: nat, off: nat): Option<nat> {
    if cmd < |cmds| then
      if off < |cmds[cmd]| then Some(Start(cmds, cmd) + off) else None
    else if |cmds| == SLOTS && off < |cmds[SLOTS - 1]| then Some(|Flat(cmds)| + off)
    else None
  }

  /** An in-range seek succeeds exactly for offsets inside the command, and lands on that command and byte only. */
  lemma SeekRoundTrip(cmds: seq<seq<Byte>>, cmd: nat, off: nat)
    requires cmd < |cmds|
    ensures SeekTarget(cmds, cmd, off).Some? <==> off < |cmds[cmd]|
    ensures off < |cmds[cmd]| ==>
      var p := SeekTarget(cmds, cmd, off).value;
      && p < |Flat(cmds)| && Flat(cmds)[p] == cmds[cmd][off]
      && Flat(cmds)[p..] == cmds[cmd][off..] + Flat(cmds[cmd + 1..])
      && (forall k: nat, b: nat :: LiesAt(cmds, k, b, p) <==> k == cmd && b == off)
  {
    if off < |cmds[cmd]| {
      CommandAt(cmds, cmd);
      var p := Start(cmds, cmd) + off;
      assert LiesAt(cmds, cmd, off, p);
      forall k: nat, b: nat | LiesAt(cmds, k, b, p)
        ensures k == cmd && b == off
      {
        PositionIsUnique(cmds, k, b, cmd, off);
      }
      SuffixFrom(cmds, cmd, off);
    }
  }

  lemma SuffixFrom(cmds: seq<seq<Byte>>, cmd: nat, off: nat)
    requires cmd < |cmds| && off <= |cmds[cmd]|
    ensures Start(cmds, cmd) + off <= |Flat(cmds)|
    ensures Flat(cmds)[Start(cmds, cmd) + off..] == cmds[cmd][off..] + Flat(cmds[cmd + 1..])
  {
    CommandAt(cmds, cmd);
    StartNext(cmds, cmd);
    assert cmds == cmds[..cmd + 1] + cmds[cmd + 1..];
    FlatAppend(cmds[..cmd + 1], cmds[cmd + 1..]);
    var head, tail := Flat(cmds[..cmd]), Flat(cmds[cmd + 1..]);
    assert Flat(cmds) == (head + cmds[cmd]) + tail;
    assert (head + cmds[cmd])[|head| + off..] == cmds[cmd][off..];
  }

  /**
   Whatever has been written, a command number that does not exist is accepted exactly when at least
   ten commands have ever been finished and the offset is inside the newest, and then leads past the end.
   */
  lemma SeekOutOfRange(writes: seq<seq<Byte>>, cmd: nat, off: nat)
    requires cmd >= |AfterWrites(writes).cmds|
    ensures var cmds, all := AfterWrites(writes).cmds, History(writes).cmds;
      && (SeekTarget(cmds, cmd, off).Some? <==> |all| >= SLOTS && off < |all[|all| - 1]|)
      && (SeekTarget(cmds, cmd, off).Some? ==> SeekTarget(cmds, cmd, off).value >= |Flat(cmds)|)
  {
    DeviceKeepsLastTen(writes);
  }

  /** n writes of one newline each. */
  function Newlines(n: nat): seq<seq<Byte>> {
    if n == 0 then [] else Newlines(n - 1) + [[NEWLINE]]
  }

  lemma {:induction false} EmptyLines(n: nat)
    requires n <= SLOTS
    ensures |Newlines(n)| == |Flat(Newlines(n))| == n && AfterWrites(Newlines(n)) == Store(Newlines(n), [])
  {
    if n > 0 {
      EmptyLines(n - 1);
      FlatAppend(Newlines(n - 1), [[NEWLINE]]);
      FlatSingle([NEWLINE]);
      AfterOneMore(Newlines(n - 1), [NEWLINE]);
      assert [] + [NEWLINE] == [NEWLINE];
    }
  }

  /** After ten writes of one newline each, seeking to command 10 is accepted and leads past the end. */
  lemma SeekPastTheLastCommand()
    ensures var cmds := AfterWrites(Newlines(SLOTS)).cmds;
      |cmds| == SLOTS && SeekTarget(cmds, SLOTS, 0) == Some(|Flat(cmds)|)
  {
    EmptyLines(SLOTS);
    assert Newlines(SLOTS)[SLOTS - 1] == [NEWLINE];
  }

  // ----- lseek -----

  datatype Whence = SeekSet | SeekCur | SeekEnd | Other

  /** The position aesd_llseek settles on in a file of the given size; None is -EINVAL. */
  function LseekTarget(whence: Whence, pos: nat, offset: int, size: nat): Option<nat> {
    match whence
    case SeekSet => Clamp(offset, size)
    case SeekCur => Clamp(pos + offset, size)
    case SeekEnd => Clamp(size + offset, size)
    case Other => None
  }

  /** Going back by k is refused exactly beyond the beginning; going on by k from the end stays at the end. */
  lemma LseekLimits(pos: nat, k: nat, size: nat)
    requires pos <= size && k > 0
    ensures LseekTarget(SeekSet, pos, 0 - k, size).None?
    ensures LseekTarget(SeekCur, pos, 0 - k, size).None? <==> k > pos
    ensures LseekTarget(SeekEnd, pos, 0 - k, size).None? <==> k > size
    ensures LseekTarget(SeekSet, pos, size + k, size) == Some(size)
    ensures LseekTarget(SeekCur, pos, size - pos + k, size) == Some(size)
    ensures LseekTarget(SeekEnd, pos, k, size) == Some(size)
    ensures forall offset: int :: LseekTarget(Other, pos, offset, size).None?
  {
  }

  function Clamp(newpos: int, size: nat): Option<nat> {
    if newpos < 0 then None else Some(Min(newpos, size))
  }
}
