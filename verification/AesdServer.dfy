/** One client connection of the socket server (threadfunc in aesdsocket.c) on top of the aesdchar device. */
module AesdServer {
  import opened Common
  import opened AesdSpec
  import opened AesdDevice

  const FULL_BUF: nat := 2048
  const SEND_BUF: nat := 1024

  /** IOCTL_PREFIX: the characters of AESDCHAR_IOCSEEKTO: */
  const PREFIX: seq<Byte> := [65, 69, 83, 68, 67, 72, 65, 82, 95, 73, 79, 67, 83, 69, 69, 75, 84, 79, 58]

  // ----- Receiving -----

  /** What is in full_buf after recv has returned these chunks: a chunk that does not fit is dropped. */
  function Received(chunks: seq<seq<Byte>>, acc: seq<Byte>): seq<Byte> {
    if chunks == [] then acc
    else
      var acc' := if |acc| + |chunks[0]| < FULL_BUF then acc + chunks[0] else acc;
      if NEWLINE in chunks[0] then acc' else Received(chunks[1..], acc')
  }

  /** The message a connection contributes: what was received, with a newline put after it if there is none. */
  function Message(chunks: seq<seq<Byte>>): seq<Byte> {
    var r := Received(chunks, []);
    if r != [] && r[|r| - 1] != NEWLINE then r + [NEWLINE] else r
  }

  lemma {:induction false} ReceivedFits(chunks: seq<seq<Byte>>, acc: seq<Byte>)
    requires |acc| < FULL_BUF
    ensures |Received(chunks, acc)| < FULL_BUF
    decreases |chunks|
  {
    if chunks != [] {
      ReceivedFits(chunks[1..], if |acc| + |chunks[0]| < FULL_BUF then acc + chunks[0] else acc);
    }
  }

  /** A message is empty, or at most 2048 bytes long and newline-terminated: one whole command for the device. */
  lemma MessageIsCommand(chunks: seq<seq<Byte>>)
    ensures var m := Message(chunks); m == [] || (|m| <= 2048 && m[|m| - 1] == NEWLINE)
  {
    ReceivedFits(chunks, []);
  }

  /** Nothing is dropped while the total stays below the buffer size; the first chunk with a newline is the last. */
  lemma {:induction false} ReceivedWhole(chunks: seq<seq<Byte>>, acc: seq<Byte>)
    requires |acc| + |Flat(chunks)| < FULL_BUF
    requires forall i :: 0 <= i < |chunks| - 1 ==> NEWLINE !in chunks[i]
    ensures Received(chunks, acc) == acc + Flat(chunks)
    decreases |chunks|
  {
    if chunks != [] {
      Regroup(acc, chunks[0], Flat(chunks[1..]));
      if NEWLINE in chunks[0] {
        assert |chunks| == 1;
      } else {
        ReceivedWhole(chunks[1..], acc + chunks[0]);
      }
    }
  }

  /** A chunk that comes next is kept if it fits after what has been kept so far, whatever was dropped before it. */
  lemma {:induction false} ReceivedNext(chunks: seq<seq<Byte>>, c: seq<Byte>, acc: seq<Byte>)
    requires forall i :: 0 <= i < |chunks| ==> NEWLINE !in chunks[i]
    ensures Received(chunks + [c], acc) ==
      var kept := Received(chunks, acc); if |kept| + |c| < FULL_BUF then kept + c else kept
    decreases |chunks|
  {
    if chunks == [] {
      assert [c][1..] == [];
      assert [] + [c] == [c];
    } else {
      assert (chunks + [c])[1..] == chunks[1..] + [c];
      ReceivedNext(chunks[1..], c, if |acc| + |chunks[0]| < FULL_BUF then acc + chunks[0] else acc);
    }
  }

  /** Nothing that follows a chunk with a newline belongs to the message. */
  lemma {:induction false} ReceivedOnlyLine(chunks: seq<seq<Byte>>, more: seq<seq<Byte>>, acc: seq<Byte>)
    requires exists i :: 0 <= i < |chunks| && NEWLINE in chunks[i]
    ensures Received(chunks + more, acc) == Received(chunks, acc)
    decreases |chunks|
  {
    assert (chunks + more)[0] == chunks[0] && (chunks + more)[1..] == chunks[1..] + more;
    if NEWLINE !in chunks[0] {
      var i :| 0 <= i < |chunks| && NEWLINE in chunks[i];
      assert chunks[1..][i - 1] == chunks[i];
      ReceivedOnlyLine(chunks[1..], more, if |acc| + |chunks[0]| < FULL_BUF then acc + chunks[0] else acc);
    }
  }

  /**
   A message that fits is what the peer sent, with one newline after it unless it is empty or ends in
   one: no byte of it is lost, repeated or moved.
   */
  lemma MessageIsWhole(chunks: seq<seq<Byte>>)
    requires |Flat(chunks)| < 2048 && forall i :: 0 <= i < |chunks| - 1 ==> NEWLINE !in chunks[i]
    ensures var sent := Flat(chunks);
      Message(chunks) == sent + if sent == [] || sent[|sent| - 1] == NEWLINE then [] else [NEWLINE]
  {
    ReceivedWhole(chunks, []);
    assert [] + Flat(chunks) == Flat(chunks);
    assert Flat(chunks) + [] == Flat(chunks);
  }

  /** memcpy(full_buf + total_len, buf, bytes_received) */
  method Append(fullBuf: array<Byte>, at: nat, buf: seq<Byte>)
    requires at + |buf| <= fullBuf.Length
    modifies fullBuf
    ensures fullBuf[..at + |buf|] == old(fullBuf[..at]) + buf
  {
    forall j | 0 <= j < |buf| {
      fullBuf[at + j] := buf[j];
    }
  }

  /** The receive loop of threadfunc, on the chunks recv returns before it fails or the peer closes. */
  method Receive(chunks: seq<seq<Byte>>) returns (message: seq<Byte>)
    ensures message == Message(chunks)
  {
    var fullBuf := new Byte[FULL_BUF];
    var totalLen: nat, i: nat, done := 0, 0, false;
    ReceivedFits(chunks, []);
    while i < |chunks| && !done
      invariant i <= |chunks| && totalLen < FULL_BUF
      invariant Received(chunks, []) == if done then fullBuf[..totalLen] else Received(chunks[i..], fullBuf[..totalLen])
      decreases |chunks| - i, !done
    {
      var buf := chunks[i];
      ghost var acc := fullBuf[..totalLen];
      assert chunks[i..][0] == buf && chunks[i..][1..] == chunks[i + 1..];
      if totalLen + |buf| < FULL_BUF {
        Append(fullBuf, totalLen, buf);
        totalLen := totalLen + |buf|;
      }
      assert fullBuf[..totalLen] == if |acc| + |buf| < FULL_BUF then acc + buf else acc;
      if NEWLINE in buf {
        done := true;
      }
      i := i + 1;
    }
    if totalLen > 0 && fullBuf[totalLen - 1] != NEWLINE {
      Append(fullBuf, totalLen, [NEWLINE]);
      totalLen := totalLen + 1;
    }
    message := fullBuf[..totalLen];
  }

  // ----- The section under file_mutex -----

  predicate IsSeek(message: seq<Byte>) {
    PREFIX <= message
  }

  /** The messages with which the server seeks are those that start with the ioctl's name and a colon. */
  lemma SeeksAreSpelt(message: seq<Byte>)
    ensures var name := "AESDCHAR_IOCSEEKTO:";
      IsSeek(message) <==> |message| >= |name| && forall i :: 0 <= i < |name| ==> message[i] as char == name[i]
    ensures NEWLINE as char == '\n'
  {
    var name := "AESDCHAR_IOCSEEKTO:";
    assert |PREFIX| == |name| && forall i :: 0 <= i < |name| ==> PREFIX[i] as char == name[i];
    if |message| >= |name| && forall i :: 0 <= i < |name| ==> message[i] as char == name[i] {
      assert forall i :: 0 <= i < |name| ==> message[i] == PREFIX[i];
    }
  }

  /** One read of the read-back loop; the copy does not fail. */
  method ReadSome(dev: Device, ghost flat: seq<Byte>, start: nat, sent: seq<Byte>)
    returns (all: seq<Byte>, more: bool)
    requires dev.Valid() && flat == Flat(dev.Contents().cmds)
    requires sent == Window(flat, start, |sent|)
    ensures all == Window(flat, start, |all|)
    ensures if more then |sent| < |all| && start + |sent| < |flat| else all == From(flat, start)
  {
    var ok, bytes := dev.Gather(start + |sent|, SEND_BUF, SEND_BUF);
    all, more := sent + bytes, |bytes| > 0;
    OneMoreRound(flat, start, sent, SEND_BUF, bytes);
    if !more {
      WindowToTheEnd(flat, start, |all|);
    }
  }

  /** The read-back loop, from a file position to the end of the data, SEND_BUF bytes at a time; no copy fails. */
  method SendRest(dev: Device, start: nat) returns (sent: seq<Byte>)
    requires dev.Valid()
    ensures sent == From(Flat(dev.Contents().cmds), start)
  {
    ghost var flat := Flat(dev.Contents().cmds);
    var more := true;
    sent := [];
    while more
      invariant if more then sent == Window(flat, start, |sent|) else sent == From(flat, start)
      decreases more, |flat| - start - |sent|
    {
      sent, more := ReadSome(dev, flat, start, sent);
    }
  }

  /** A message is stored whole or not at all; an empty one changes nothing, another one fails only without memory. */
  predicate Stored(before: Store, after: Store, message: seq<Byte>, memory: bool) {
    && (after == before || (message != [] && after == Accept(before, message)))
    && (message != [] && memory ==> after == Accept(before, message))
  }

  /** The write loop: it stops early when a write fails, for lack of memory, and then the device is unchanged. */
  method WriteAll(dev: Device, fd: File, message: seq<Byte>, memory: bool)
    requires dev.Valid()
    modifies fd, dev`buffer_partial, dev`size_partial, dev`writes, dev.buffer, dev.buffer.entry, dev.slab
    ensures dev.Valid()
    ensures Stored(old(dev.Contents()), dev.Contents(), message, memory)
  {
    var writtenTotal, failed := 0, false;
    while writtenTotal < |message| && !failed
      invariant writtenTotal == 0 || writtenTotal == |message|
      invariant dev.Valid()
      invariant dev.Contents() ==
        if writtenTotal == 0 then old(dev.Contents()) else Accept(old(dev.Contents()), message)
      invariant memory ==> !failed
      decreases |message| - writtenTotal, !failed
    {
      var written := dev.Write(fd, message[writtenTotal..], memory, true);
      match written {
        case Ok(n) => writtenTotal := writtenTotal + n;
        case Error(_) => failed := true;
      }
    }
  }

  /** The seek or the write; the file it leaves open is positioned where the read-back starts. */
  method Commit(dev: Device, message: seq<Byte>, scan: Option<(nat, nat)>, memory: bool) returns (fd: File)
    requires dev.Valid()
    modifies dev`buffer_partial, dev`size_partial, dev`writes, dev.buffer, dev.buffer.entry, dev.slab
    ensures dev.Valid()
    ensures if IsSeek(message) then dev.Contents() == old(dev.Contents())
      else Stored(old(dev.Contents()), dev.Contents(), message, memory)
    ensures fd.f_pos == if IsSeek(message) then StartOf(dev.Contents().cmds, scan) else 0
  {
    fd := new File();
    if !IsSeek(message) {
      WriteAll(dev, fd, message, memory);
      fd := new File();
    } else if scan.Some? {
      var r := dev.SeekTo(fd, scan.value.0, scan.value.1, true);
    }
  }

  /** Where the read-back of a seeking client starts: position 0 unless the seek is accepted. */
  function StartOf(cmds: seq<seq<Byte>>, seek: Option<(nat, nat)>): nat {
    if seek.None? then 0
    else
      var target := SeekTarget(cmds, seek.value.0, seek.value.1);
      if target.None? then 0 else target.value
  }

  /**
   What threadfunc does between taking and releasing file_mutex.  scan is what sscanf makes of the
   text after the prefix.  A failing write is not retried, and the reply is then read back all the same.
   */
  method Serve(dev: Device, message: seq<Byte>, scan: Option<(nat, nat)>, memory: bool) returns (reply: seq<Byte>)
    requires dev.Valid()
    modifies dev`buffer_partial, dev`size_partial, dev`writes, dev.buffer, dev.buffer.entry, dev.slab
    ensures dev.Valid()
    ensures if IsSeek(message) then dev.Contents() == old(dev.Contents())
      else Stored(old(dev.Contents()), dev.Contents(), message, memory)
    ensures reply == From(Flat(dev.Contents().cmds), if IsSeek(message) then StartOf(dev.Contents().cmds, scan) else 0)
  {
    var fd := Commit(dev, message, scan, memory);
    reply := SendRest(dev, fd.f_pos);
  }
}
