/** The circular buffer of scull/pipe.c: one slot is always kept free. */
module PipeRing {
  import opened Common

  /**
   The buffer and its two pointers, as offsets from the start of the buffer.  A pointer equals
   |buf| only between the two statements that advance and wrap it.
   */
  datatype Ring = Ring(buf: seq<Byte>, rp: nat, wp: nat) {
    predicate Ok() {
      |buf| >= 1 && rp <= |buf| && wp <= |buf| && !(rp == 0 && wp == |buf|)
      && !(rp == |buf| && wp == |buf|)
    }

    /** Both pointers are inside the buffer. */
    predicate Settled() {
      |buf| >= 1 && rp < |buf| && wp < |buf|
    }

    /** The bytes written and not yet read, oldest first. */
    function Contents(): seq<Byte>
      requires Ok()
    {
      if rp <= wp then buf[rp..wp] else buf[rp..] + buf[..wp]
    }
  }

  /** A ring as scull_p_open leaves it. */
  function EmptyRing(buf: seq<Byte>): Ring {
    Ring(buf, 0, 0)
  }

  /** The value spacefree computes from a read pointer, a write pointer and a buffer size. */
  function SpaceFreeOf(rp: nat, wp: nat, n: nat): int
    requires n > 0
  {
    if rp == wp then n - 1 else (rp + n - wp) % n - 1
  }

  function SpaceFree(r: Ring): int
    requires r.Ok()
  {
    SpaceFreeOf(r.rp, r.wp, |r.buf|)
  }

  /** How many bytes scull_p_read moves once there is something to read. */
  function ReadCount(r: Ring, count: nat): nat
    requires r.Settled()
  {
    if r.wp > r.rp then Min(count, r.wp - r.rp) else Min(count, |r.buf| - r.rp)
  }

  /** How many bytes scull_p_write accepts once there is space. */
  function WriteCount(r: Ring, count: nat): nat
    requires r.Settled() && |r.Contents()| < |r.buf| - 1
  {
    FreeIs(r);
    var c := Min(count, SpaceFree(r));
    if r.wp >= r.rp then Min(c, |r.buf| - r.wp)
    else Min(c, r.rp - r.wp - 1)
  }

  /** The pointer assignment of a read, before the wrap. */
  function AdvanceRead(r: Ring, count: nat): Ring
    requires r.Settled()
  {
    r.(rp := r.rp + ReadCount(r, count))
  }

  /** data laid over a buffer at position at. */
  function Splice(buf: seq<Byte>, at: nat, data: seq<Byte>): seq<Byte>
    requires at + |data| <= |buf|
  {
    buf[..at] + data + buf[at + |data|..]
  }

  /** The copy and pointer assignment of a write, before the wrap. */
  function AdvanceWrite(r: Ring, data: seq<Byte>): Ring
    requires r.Settled() && |r.Contents()| < |r.buf| - 1
  {
    var k := WriteCount(r, |data|);
    FreeIs(r);
    Ring(Splice(r.buf, r.wp, data[..k]), r.rp, r.wp + k)
  }

  function WrapRead(r: Ring): Ring {
    if r.rp == |r.buf| then r.(rp := 0) else r
  }

  function WrapWrite(r: Ring): Ring {
    if r.wp == |r.buf| then r.(wp := 0) else r
  }

  /** What a whole critical section of scull_p_read leaves behind. */
  function AfterRead(r: Ring, count: nat): Ring
    requires r.Settled()
  {
    WrapRead(AdvanceRead(r, count))
  }

  function AfterWrite(r: Ring, data: seq<Byte>): Ring
    requires r.Settled() && |r.Contents()| < |r.buf| - 1
  {
    WrapWrite(AdvanceWrite(r, data))
  }

  /** spacefree and the bytes held always add up to one less than the buffer size. */
  lemma FreeIs(r: Ring)
    requires r.Settled()
    ensures |r.Contents()| + SpaceFree(r) == |r.buf| - 1
  {
    if r.rp != r.wp {
      ModOnce(r.rp + |r.buf| - r.wp, |r.buf|);
    }
  }

  /** A read hands out the oldest bytes, in order, and removes exactly those. */
  lemma ReadRefinesQueue(r: Ring, count: nat)
    requires r.Settled() && r.rp != r.wp
    ensures var k := ReadCount(r, count);
      && k <= |r.Contents()| && (count > 0 ==> k > 0)
      && AdvanceRead(r, count).Ok()
      && r.buf[r.rp..r.rp + k] == r.Contents()[..k]
      && AdvanceRead(r, count).Contents() == r.Contents()[k..]
  {
  }

  /** Overwriting extends any window that ends there. */
  lemma SplicedBefore(buf: seq<Byte>, at: nat, data: seq<Byte>, lo: nat)
    requires lo <= at && at + |data| <= |buf|
    ensures |Splice(buf, at, data)| == |buf|
    ensures Splice(buf, at, data)[lo..at + |data|] == buf[lo..at] + data
  {
  }

  /** It leaves what follows alone. */
  lemma SplicedAfter(buf: seq<Byte>, at: nat, data: seq<Byte>, hi: nat)
    requires at + |data| <= hi <= |buf|
    ensures |Splice(buf, at, data)| == |buf| && Splice(buf, at, data)[hi..] == buf[hi..]
  {
  }

  /** A chunk that fits between the write pointer and the next boundary is appended by a plain copy. */
  lemma AppendInPlace(r: Ring, chunk: seq<Byte>)
    requires r.Settled() && |r.Contents()| + |chunk| < |r.buf| && r.wp + |chunk| <= |r.buf|
    ensures var r' := Ring(Splice(r.buf, r.wp, chunk), r.rp, r.wp + |chunk|);
      r'.Ok() && |r'.buf| == |r.buf| && r'.Contents() == r.Contents() + chunk
  {
    hide Splice;
    if r.rp <= r.wp {
      SplicedBefore(r.buf, r.wp, chunk, r.rp);
    } else {
      SplicedBefore(r.buf, r.wp, chunk, 0);
      SplicedAfter(r.buf, r.wp, chunk, r.rp);
      Regroup(r.buf[r.rp..], r.buf[..r.wp], chunk);
      assert Splice(r.buf, r.wp, chunk)[0..r.wp + |chunk|] == Splice(r.buf, r.wp, chunk)[..r.wp + |chunk|];
      assert r.buf[0..r.wp] == r.buf[..r.wp];
    }
  }

  /** A write appends a prefix of its data and never overruns the unread bytes. */
  lemma WriteRefinesQueue(r: Ring, data: seq<Byte>)
    requires r.Settled() && |r.Contents()| < |r.buf| - 1
    ensures var k := WriteCount(r, |data|);
      && k <= |data| && (|data| > 0 ==> k > 0)
      && AdvanceWrite(r, data).Ok() && |AdvanceWrite(r, data).buf| == |r.buf|
      && AdvanceWrite(r, data).Contents() == r.Contents() + data[..k]
  {
    FreeIs(r);
    AppendInPlace(r, data[..WriteCount(r, |data|)]);
  }

  /** Wrapping a pointer does not change what the ring holds. */
  lemma WrapKeepsContents(r: Ring)
    requires r.Ok()
    ensures r.wp < |r.buf| ==> WrapRead(r).Settled() && WrapRead(r).Contents() == r.Contents()
    ensures r.rp < |r.buf| ==> WrapWrite(r).Settled() && WrapWrite(r).Contents() == r.Contents()
  {
  }

  /** Two consecutive writes accept everything there is room for, whatever the wrap position. */
  lemma TwoWritesFill(r: Ring, data: seq<Byte>)
    requires r.Settled() && |r.Contents()| < |r.buf| - 1
    ensures var k := WriteCount(r, |data|); var r1 := AfterWrite(r, data);
      && r1.Settled()
      && (k == Min(|data|, SpaceFree(r))
          || (|r1.Contents()| < |r1.buf| - 1 && k + WriteCount(r1, |data| - k) == Min(|data|, SpaceFree(r))))
  {
    var r1 := AfterWrite(r, data);
    WriteRefinesQueue(r, data);
    WrapKeepsContents(AdvanceWrite(r, data));
    FreeIs(r);
    FreeIs(r1);
  }

  /** Two consecutive reads deliver everything asked for that is there. */
  lemma TwoReadsDrain(r: Ring, count: nat)
    requires r.Settled() && r.rp != r.wp
    ensures var k := ReadCount(r, count); var r1 := AfterRead(r, count);
      && r1.Settled()
      && (k == Min(count, |r.Contents()|)
          || (r1.rp != r1.wp && k + ReadCount(r1, count - k) == Min(count, |r.Contents()|)))
  {
    ReadRefinesQueue(r, count);
  }

  /** What scull_p_poll reports. */
  predicate Readable(r: Ring)
    requires r.Settled()
  {
    r.rp != r.wp
  }

  predicate Writable(r: Ring)
    requires r.Settled()
  {
    SpaceFree(r) != 0
  }

  /** Readable and writable mean non-empty and not full; poll is never silent unless the buffer is one byte long. */
  lemma PollReportsSomething(r: Ring)
    requires r.Settled()
    ensures Readable(r) <==> r.Contents() != []
    ensures Writable(r) <==> |r.Contents()| < |r.buf| - 1
    ensures (Readable(r) || Writable(r)) <==> |r.buf| >= 2
  {
    FreeIs(r);
  }

  /** A whole read section: an in-place copy out, then the pointer moves and wraps. */
  lemma ReadSection(r: Ring, count: nat)
    requires r.Settled() && r.rp != r.wp
    ensures var n := ReadCount(r, count); var rp' := if r.rp + n == |r.buf| then 0 else r.rp + n;
      && AfterRead(r, count) == Ring(r.buf, rp', r.wp) && AfterRead(r, count).Settled()
      && n <= |r.Contents()| && (count > 0 ==> n > 0) && r.Contents() != []
      && r.buf[r.rp..r.rp + n] + AfterRead(r, count).Contents() == r.Contents()
  {
    ReadRefinesQueue(r, count);
    WrapKeepsContents(AdvanceRead(r, count));
    var n := ReadCount(r, count);
    assert r.Contents()[..n] + r.Contents()[n..] == r.Contents();
  }

  /** A whole write section. */
  lemma WriteSection(r: Ring, data: seq<Byte>)
    requires r.Settled() && |r.Contents()| < |r.buf| - 1
    ensures var n := WriteCount(r, |data|); var wp' := if r.wp + n == |r.buf| then 0 else r.wp + n;
      && r.wp + n <= |r.buf| && n <= |data| && (|data| > 0 ==> n > 0)
      && AfterWrite(r, data) == Ring(Splice(r.buf, r.wp, data[..n]), r.rp, wp')
      && AfterWrite(r, data).Settled()
      && AfterWrite(r, data).Contents() == r.Contents() + data[..n]
  {
    FreeIs(r);
    WriteRefinesQueue(r, data);
    WrapKeepsContents(AdvanceWrite(r, data));
  }
}
