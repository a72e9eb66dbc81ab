/** The scullpipe device of scull/pipe.c: each method is one critical section under the device mutex. */
module ScullPipe {
  import opened Common
  import opened PipeRing

  /** How a critical section ends: the caller must wait, it failed, or it moved some bytes. */
  datatype Outcome<+T> = MustWait | Failed(error: Errno) | Moved(value: T)

  class Pipe {
    var buffer: array?<Byte>
    var buffersize: nat
    var rp: nat
    var wp: nat
    var nreaders: nat
    var nwriters: nat

    ghost predicate Valid()
      reads this, buffer
    {
      && (buffer == null ==> nreaders + nwriters == 0)
      && (buffer != null ==> buffersize <= buffer.Length && State().Settled())
    }

    /** The ring as a value; the block may be longer than what the pipe uses of it. */
    ghost function State(): Ring
      reads this, buffer
      requires buffer != null && buffersize <= buffer.Length
    {
      Ring(buffer[..buffersize], rp, wp)
    }

    constructor ()
      ensures Valid() && buffer == null && nreaders == 0 && nwriters == 0
    {
      buffer := null;
      buffersize, rp, wp := 0, 0, 0;
      nreaders, nwriters := 0, 0;
    }

    /**
     scull_p_open: every open empties the pipe, whoever else has it open, and takes the present
     scull_p_buffer for its size.  The block is only allocated when there is none, so the size and
     the block agree exactly as long as the parameter is not above what the block was made for.
     */
    method Open(forReading: bool, forWriting: bool, scullPBuffer: nat) returns (error: Option<Errno>)
      modifies this
      ensures error.None? ==> buffer != null && (Valid() <==> 1 <= scullPBuffer <= buffer.Length)
      ensures error.None? && Valid() ==> State().Contents() == [] && SpaceFree(State()) == scullPBuffer - 1
      ensures error.None? ==> buffersize == scullPBuffer && rp == wp == 0
      ensures error.None? ==> nreaders == old(nreaders) + (if forReading then 1 else 0)
      ensures error.None? ==> nwriters == old(nwriters) + (if forWriting then 1 else 0)
      ensures error.None? && old(buffer) == null ==> fresh(buffer) && buffer.Length == scullPBuffer
      ensures error.Some? ==> error.value == ENOMEM && old(buffer) == null && unchanged(this)
      ensures old(buffer) != null ==> buffer == old(buffer)
    {
      if buffer == null {
        var granted: bool := *;
        if !granted {
          return Some(ENOMEM);
        }
        buffer := new Byte[scullPBuffer];
      }
      buffersize := scullPBuffer;
      rp, wp := 0, 0;
      if forReading { nreaders := nreaders + 1; }
      if forWriting { nwriters := nwriters + 1; }
      return None;
    }

    /** scull_p_release: the last close gives the buffer back. */
    method Release(forReading: bool, forWriting: bool)
      requires (forReading ==> nreaders > 0) && (forWriting ==> nwriters > 0)
      modifies this`nreaders, this`nwriters, this`buffer
      ensures old(Valid()) ==> Valid()
      ensures nreaders == old(nreaders) - (if forReading then 1 else 0)
      ensures nwriters == old(nwriters) - (if forWriting then 1 else 0)
      ensures buffer == if nreaders + nwriters == 0 then null else old(buffer)
    {
      if forReading { nreaders := nreaders - 1; }
      if forWriting { nwriters := nwriters - 1; }
      if nreaders + nwriters == 0 {
        buffer := null;
      }
    }

    /** spacefree: exactly the number of bytes that can still be accepted. */
    method FreeSpace() returns (free: int)
      requires Valid() && buffer != null
      ensures free == buffersize - 1 - |State().Contents()| == SpaceFree(State())
    {
      FreeIs(State());
      if rp == wp {
        return buffersize - 1;
      }
      return (rp + buffersize - wp) % buffersize - 1;
    }

    /** The mutex-protected part of scull_p_read. */
    method Read(count: nat, copyOk: bool) returns (r: Outcome<seq<Byte>>)
      requires Valid() && buffer != null
      modifies this`rp
      ensures Valid()
      ensures r.MustWait? <==> old(State().Contents()) == []
      ensures !r.Moved? ==> State() == old(State())
      ensures r.Failed? ==> !copyOk && r.error == EFAULT
      ensures r.Moved? ==> copyOk && State() == AfterRead(old(State()), count)
      ensures r.Moved? ==> |r.value| <= count && (count > 0 ==> |r.value| > 0)
      ensures r.Moved? ==> old(State().Contents()) == r.value + State().Contents()
    {
      hide AfterRead;
      if rp == wp {
        return MustWait;
      }
      var n: nat;
      if wp > rp {
        n := Min(count, wp - rp);
      } else {
        n := Min(count, buffersize - rp);
      }
      if !copyOk {
        return Failed(EFAULT);
      }
      ghost var before := State();
      ReadSection(before, count);
      var bytes := TakeOut(n);
      return Moved(bytes);
    }

    /** copy_to_user and the pointer update that follows it. */
    method TakeOut(n: nat) returns (bytes: seq<Byte>)
      requires buffer != null && rp < buffersize <= buffer.Length && rp + n <= buffersize
      modifies this`rp
      ensures bytes == buffer[..buffersize][old(rp)..old(rp) + n]
      ensures rp == if old(rp) + n == buffersize then 0 else old(rp) + n
    {
      bytes := buffer[rp..rp + n];
      rp := rp + n;
      if rp == buffersize {
        rp := 0;
      }
    }

    /** The mutex-protected part of scull_p_write. */
    method Write(data: seq<Byte>, copyOk: bool) returns (r: Outcome<nat>)
      requires Valid() && buffer != null
      modifies this`wp, buffer
      ensures Valid()
      ensures r.MustWait? <==> |old(State().Contents())| == buffersize - 1
      ensures !r.Moved? ==> State() == old(State())
      ensures r.Failed? ==> !copyOk && r.error == EFAULT
      ensures r.Moved? ==> copyOk && State() == AfterWrite(old(State()), data)
      ensures r.Moved? ==> r.value <= |data| && (|data| > 0 ==> r.value > 0)
      ensures r.Moved? ==> State().Contents() == old(State().Contents()) + data[..r.value]
    {
      hide AfterWrite, Splice;
      var free := FreeSpace();
      if free == 0 {
        return MustWait;
      }
      var n: nat := Min(|data|, free);
      if wp >= rp {
        n := Min(n, buffersize - wp);
      } else {
        n := Min(n, rp - wp - 1);
      }
      if !copyOk {
        return Failed(EFAULT);
      }
      WriteSection(State(), data);
      assert n == WriteCount(State(), |data|);
      PutIn(data[..n]);
      return Moved(n);
    }

    /** copy_from_user and the pointer update that follows it. */
    method PutIn(bytes: seq<Byte>)
      requires buffer != null && wp < buffersize <= buffer.Length && wp + |bytes| <= buffersize
      modifies this`wp, buffer
      ensures buffer[..buffersize] == Splice(old(buffer[..buffersize]), old(wp), bytes)
      ensures wp == if old(wp) + |bytes| == buffersize then 0 else old(wp) + |bytes|
    {
      forall i | 0 <= i < |bytes| {
        buffer[wp + i] := bytes[i];
      }
      wp := wp + |bytes|;
      if wp == buffersize {
        wp := 0;
      }
    }

    /** scull_p_poll: what may be done without waiting. */
    method Poll() returns (readable: bool, writable: bool)
      requires Valid() && buffer != null
      ensures readable <==> State().Contents() != []
      ensures writable <==> |State().Contents()| < buffersize - 1
      ensures buffersize >= 2 ==> readable || writable
    {
      PollReportsSomething(State());
      var free := FreeSpace();
      return rp != wp, free != 0;
    }
  }
}
