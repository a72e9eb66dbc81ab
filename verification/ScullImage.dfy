/** The sparse byte store that the scull device stands for. */
module ScullImage {
  import opened Common
  import opened ScullGeometry

  /** The allocated quanta and their bytes, by list item and slot. */
  type Image = map<(nat, nat), seq<Byte>>

  /** The byte at a position; None is a hole. */
  function Cell(im: Image, pos: nat, q: nat, n: nat): Option<Byte>
    requires q > 0 && n > 0
  {
    var at := PlaceOf(pos, q, n);
    if (at.item, at.slot) in im && at.off < |im[(at.item, at.slot)]| then Some(im[(at.item, at.slot)][at.off]) else None
  }

  /** Every quantum is q bytes long and has a slot below n. */
  ghost predicate WellSized(im: Image, q: nat, n: nat) {
    forall k :: k in im ==> k.1 < n && |im[k]| == q
  }

  lemma HoleOrQuantum(im: Image, pos: nat, q: nat, n: nat)
    requires q > 0 && n > 0 && WellSized(im, q, n)
    ensures var at := PlaceOf(pos, q, n); Cell(im, pos, q, n).Some? <==> (at.item, at.slot) in im
  {
    PlaceInRange(pos, q, n);
  }

  /** A stretch of positions inside one quantum is a stretch of its bytes. */
  lemma QuantumCells(im: Image, pos: nat, bytes: seq<Byte>, q: nat, n: nat)
    requires q > 0 && n > 0
    requires var at := PlaceOf(pos, q, n);
      && (at.item, at.slot) in im && at.off + |bytes| <= q == |im[(at.item, at.slot)]|
      && bytes == im[(at.item, at.slot)][at.off..at.off + |bytes|]
    ensures forall j :: 0 <= j < |bytes| ==> Cell(im, pos + j, q, n) == Some(bytes[j])
  {
    forall j | 0 <= j < |bytes|
      ensures Cell(im, pos + j, q, n) == Some(bytes[j])
    {
      AlongTheQuantum(pos, j, q, n);
    }
  }

  /** How many of count bytes at pos one call may move when it has to stop at the end of the quantum. */
  function ToQuantumEnd(pos: nat, count: nat, q: nat, n: nat): nat
    requires q > 0 && n > 0
  {
    PlaceInRange(pos, q, n);
    Min(count, q - PlaceOf(pos, q, n).off)
  }

  /** The bytes one write at pos takes from buf when okBytes of it can be copied. */
  function Taken(pos: nat, buf: seq<Byte>, okBytes: nat, q: nat, n: nat): seq<Byte>
    requires q > 0 && n > 0
  {
    buf[..Min(ToQuantumEnd(pos, |buf|, q, n), okBytes)]
  }

  /** How many bytes one read at pos may move: also not past the end of the data. */
  function Readable(pos: nat, count: nat, size: nat, q: nat, n: nat): nat
    requires q > 0 && n > 0 && pos < size
  {
    ToQuantumEnd(pos, Min(count, size - pos), q, n)
  }

  /**
   What a read of count bytes at pos has to return: nothing at or past the end and in a hole, and
   otherwise the bytes up to the end of the data or of the quantum.
   */
  ghost predicate ReadsRight(im: Image, size: nat, q: nat, n: nat, pos: nat, count: nat,
                             r: Result<nat>, bytes: seq<Byte>)
    requires q > 0 && n > 0
  {
    match r
    case Ok(m) =>
      && m == |bytes|
      && (if pos < size && Cell(im, pos, q, n).Some? then m == Readable(pos, count, size, q, n) else m == 0)
      && (forall j :: 0 <= j < m ==> Cell(im, pos + j, q, n) == Some(bytes[j]))
    case Error(e) =>
      e == EFAULT && bytes == [] && pos < size && Cell(im, pos, q, n).Some?
  }

  /** What is found at a place of the device. */
  ghost predicate IsFound(im: Image, at: Place, n: nat, q: nat, r: Result<nat>, bytes: seq<Byte>) {
    var key, k := (at.item, at.slot), Min(n, q - at.off);
    if key !in im then r == Ok(0) && bytes == []
    else if r.Error? then r == Error(EFAULT) && bytes == []
    else 0 <= k && at.off + k <= |im[key]| && r == Ok(k) && bytes == im[key][at.off..at.off + k]
  }

  /** Looking at the place of pos, for no more bytes than there are, is a right read. */
  lemma FoundIsRight(im: Image, size: nat, q: nat, n: nat, pos: nat, count: nat, avail: nat,
                     r: Result<nat>, bytes: seq<Byte>)
    requires q > 0 && n > 0 && WellSized(im, q, n) && pos < size && avail == Min(count, size - pos)
    requires IsFound(im, PlaceOf(pos, q, n), avail, q, r, bytes)
    ensures ReadsRight(im, size, q, n, pos, count, r, bytes)
  {
    HoleOrQuantum(im, pos, q, n);
    var at := PlaceOf(pos, q, n);
    if (at.item, at.slot) in im {
      QuantumCells(im, pos, bytes, q, n);
    }
  }

  /**
   What storing data at pos does to the bytes: those positions hold the data, no other byte that
   was there changes, and bytes that were not there appear only in the quantum written to.
   */
  ghost predicate Stores(before: Image, after: Image, pos: nat, data: seq<Byte>, q: nat, n: nat)
    requires q > 0 && n > 0
  {
    && (forall j :: 0 <= j < |data| ==> Cell(after, pos + j, q, n) == Some(data[j]))
    && (forall p: nat :: !(pos <= p < pos + |data|) && Cell(before, p, q, n).Some? ==>
          Cell(after, p, q, n) == Cell(before, p, q, n))
    && (forall p: nat :: Cell(before, p, q, n).None? && Cell(after, p, q, n).Some? ==> p / q == pos / q)
  }

  /** The same bytes, with data laid over block from offset off on. */
  function Overlay(block: seq<Byte>, off: nat, data: seq<Byte>): (r: seq<Byte>)
    requires off + |data| <= |block|
    ensures |r| == |block|
  {
    block[..off] + data + block[off + |data|..]
  }

  /** Overlaying one quantum, new or old, at the place of pos is a store of the data at pos. */
  lemma OverlayStores(before: Image, pos: nat, block: seq<Byte>, data: seq<Byte>, q: nat, n: nat)
    requires q > 0 && n > 0 && |block| == q
    requires var at := PlaceOf(pos, q, n);
      at.off + |data| <= q && ((at.item, at.slot) in before ==> before[(at.item, at.slot)] == block)
    ensures var at := PlaceOf(pos, q, n);
      Stores(before, before[(at.item, at.slot) := Overlay(block, at.off, data)], pos, data, q, n)
  {
    var at := PlaceOf(pos, q, n);
    var after := before[(at.item, at.slot) := Overlay(block, at.off, data)];
    forall j | 0 <= j < |data|
      ensures Cell(after, pos + j, q, n) == Some(data[j])
    {
      AlongTheQuantum(pos, j, q, n);
    }
    forall p: nat | !(pos <= p < pos + |data|)
      ensures Cell(before, p, q, n).Some? ==> Cell(after, p, q, n) == Cell(before, p, q, n)
      ensures Cell(before, p, q, n).None? && Cell(after, p, q, n).Some? ==> p / q == pos / q
    {
      OverlayElsewhere(before, pos, block, data, p, q, n);
    }
    forall p: nat | pos <= p < pos + |data| && Cell(before, p, q, n).None? && Cell(after, p, q, n).Some?
      ensures p / q == pos / q
    {
      AlongTheQuantum(pos, p - pos, q, n);
      SameQuantum(p, pos, q, n);
    }
  }

  lemma OverlayElsewhere(before: Image, pos: nat, block: seq<Byte>, data: seq<Byte>, p: nat, q: nat, n: nat)
    requires q > 0 && n > 0 && |block| == q && !(pos <= p < pos + |data|)
    requires var at := PlaceOf(pos, q, n);
      at.off + |data| <= q && ((at.item, at.slot) in before ==> before[(at.item, at.slot)] == block)
    ensures var at := PlaceOf(pos, q, n);
      var after := before[(at.item, at.slot) := Overlay(block, at.off, data)];
      && (Cell(before, p, q, n).Some? ==> Cell(after, p, q, n) == Cell(before, p, q, n))
      && (Cell(before, p, q, n).None? && Cell(after, p, q, n).Some? ==> p / q == pos / q)
  {
    var at, to := PlaceOf(pos, q, n), PlaceOf(p, q, n);
    SameQuantum(p, pos, q, n);
    PlaceIsRight(pos, q, n);
    PlaceIsRight(p, q, n);
    if to.item == at.item && to.slot == at.slot {
      assert p - to.off == pos - at.off;
      assert to.off < at.off || to.off >= at.off + |data|;
    }
  }

  /** When the quantum is new and zeroed, every byte that appears beside the data is zero. */
  lemma ZeroesAppear(before: Image, pos: nat, block: seq<Byte>, data: seq<Byte>, p: nat, q: nat, n: nat)
    requires q > 0 && n > 0 && |block| == q && !(pos <= p < pos + |data|)
    requires var at := PlaceOf(pos, q, n);
      && at.off + |data| <= q && (at.item, at.slot) !in before
      && (forall j :: 0 <= j < q ==> block[j] == 0)
    ensures var at := PlaceOf(pos, q, n);
      var after := before[(at.item, at.slot) := Overlay(block, at.off, data)];
      Cell(before, p, q, n).None? && Cell(after, p, q, n).Some? ==> Cell(after, p, q, n) == Some(0)
  {
    var at, to := PlaceOf(pos, q, n), PlaceOf(p, q, n);
    PlaceIsRight(pos, q, n);
    PlaceIsRight(p, q, n);
    if to.item == at.item && to.slot == at.slot {
      assert p - to.off == pos - at.off;
      assert to.off < at.off || to.off >= at.off + |data|;
    }
  }

  /** What a write call has to do; okBytes is how many bytes can be copied from the caller before the copy faults. */
  ghost predicate WritesRight(before: Image, after: Image, size: nat, size': nat, q: nat, n: nat,
                              pos: nat, buf: seq<Byte>, okBytes: nat, r: Result<nat>)
    requires q > 0 && n > 0
  {
    var count := ToQuantumEnd(pos, |buf|, q, n);
    var k := Min(count, okBytes);
    match r
    case Ok(m) =>
      && m == count && okBytes >= count
      && Stores(before, after, pos, buf[..m], q, n)
      && size' == if size < pos + m then pos + m else size
    case Error(e) =>
      && size' == size
      && (e == ENOMEM ==> after == before)
      && (e != ENOMEM ==> e == EFAULT && okBytes < count && Stores(before, after, pos, buf[..okBytes], q, n))
  }

  /** Reaching a quantum, new or old, and then changing its bytes is one change of that quantum. */
  lemma OneChange(before: Image, mid: Image, after: Image, key: (nat, nat), block: seq<Byte>, laid: seq<Byte>)
    requires mid == (if key in before then before else before[key := block]) && key in mid && mid[key] == block
    requires after == mid[key := laid]
    ensures after == before[key := laid] && (key in before ==> before[key] == block)
  {
  }

  /** Failing for lack of memory with nothing changed is allowed at any time. */
  lemma FailureIsRight(im: Image, size: nat, q: nat, n: nat, pos: nat, buf: seq<Byte>, okBytes: nat)
    requires q > 0 && n > 0
    ensures WritesRight(im, im, size, size, q, n, pos, buf, okBytes, Error(ENOMEM))
  {
  }

  /** Overlaying the bytes that could be copied is a right write, and leaves what was remembered. */
  lemma OverlayIsRight(before: Image, after: Image, writes: seq<Chunk>, size: nat, q: nat, n: nat,
                       pos: nat, buf: seq<Byte>, okBytes: nat, block: seq<Byte>)
    requires q > 0 && n > 0 && |block| == q && Remembers(writes, before, q, n)
    requires var at, count := PlaceOf(pos, q, n), ToQuantumEnd(pos, |buf|, q, n);
      && ((at.item, at.slot) in before ==> before[(at.item, at.slot)] == block)
      && at.off + Min(count, okBytes) <= q
      && after == before[(at.item, at.slot) := Overlay(block, at.off, buf[..Min(count, okBytes)])]
    ensures var count := ToQuantumEnd(pos, |buf|, q, n);
      && Remembers(writes + [Chunk(pos, buf[..Min(count, okBytes)])], after, q, n)
      && if okBytes < count then WritesRight(before, after, size, size, q, n, pos, buf, okBytes, Error(EFAULT))
         else
           var end := if size < pos + count then pos + count else size;
           WritesRight(before, after, size, end, q, n, pos, buf, okBytes, Ok(count))
  {
    var data := buf[..Min(ToQuantumEnd(pos, |buf|, q, n), okBytes)];
    OverlayStores(before, pos, block, data, q, n);
    StoresRemembers(writes, before, after, pos, data, q, n);
  }

  // ----- Runs of stores -----

  datatype Chunk = Chunk(pos: nat, data: seq<Byte>) {
    predicate Covers(p: nat) {
      pos <= p < pos + |data|
    }
  }

  /** The byte last written at a position since the device was emptied. */
  function LastWritten(writes: seq<Chunk>, p: nat): Option<Byte> {
    if writes == [] then None
    else
      var w := writes[|writes| - 1];
      if w.Covers(p) then Some(w.data[p - w.pos]) else LastWritten(writes[..|writes| - 1], p)
  }

  /** Every byte ever written is still what was written there last. */
  ghost predicate Remembers(writes: seq<Chunk>, im: Image, q: nat, n: nat)
    requires q > 0 && n > 0
  {
    forall p: nat :: LastWritten(writes, p).Some? ==> Cell(im, p, q, n) == LastWritten(writes, p)
  }

  lemma StoresRemembers(writes: seq<Chunk>, before: Image, after: Image, pos: nat, data: seq<Byte>, q: nat, n: nat)
    requires q > 0 && n > 0 && Remembers(writes, before, q, n) && Stores(before, after, pos, data, q, n)
    ensures Remembers(writes + [Chunk(pos, data)], after, q, n)
  {
    var more := writes + [Chunk(pos, data)];
    assert more[..|writes|] == writes;
    forall p: nat | LastWritten(more, p).Some?
      ensures Cell(after, p, q, n) == LastWritten(more, p)
    {
      if pos <= p < pos + |data| {
        assert Cell(after, pos + (p - pos), q, n) == Some(data[p - pos]);
      } else {
        assert LastWritten(more, p) == LastWritten(writes, p);
      }
    }
  }

  /** So a read delivers, at every position that was ever written, the byte last written there. */
  lemma ReadsAreLastWritten(writes: seq<Chunk>, im: Image, size: nat, q: nat, n: nat, pos: nat, count: nat,
                            r: Result<nat>, bytes: seq<Byte>)
    requires q > 0 && n > 0 && Remembers(writes, im, q, n) && ReadsRight(im, size, q, n, pos, count, r, bytes)
    ensures forall j :: 0 <= j < |bytes| && LastWritten(writes, pos + j).Some? ==>
      LastWritten(writes, pos + j) == Some(bytes[j])
  {
    forall j | 0 <= j < |bytes| && LastWritten(writes, pos + j).Some?
      ensures LastWritten(writes, pos + j) == Some(bytes[j])
    {
      assert Cell(im, pos + j, q, n) == Some(bytes[j]);
    }
  }

  // ----- Transfers by several calls -----

  /** All of data lies at pos. */
  ghost predicate Holds(im: Image, pos: nat, data: seq<Byte>, q: nat, n: nat)
    requires q > 0 && n > 0
  {
    forall j :: 0 <= j < |data| ==> Cell(im, pos + j, q, n) == Some(data[j])
  }

  /** No byte that was there changes outside the len positions from pos on. */
  ghost predicate SameOutside(before: Image, after: Image, pos: nat, len: nat, q: nat, n: nat)
    requires q > 0 && n > 0
  {
    forall p: nat :: !(pos <= p < pos + len) && Cell(before, p, q, n).Some? ==>
      Cell(after, p, q, n) == Cell(before, p, q, n)
  }

  /** Data stored piece after piece is all there in the end. */
  lemma HoldsMore(before: Image, mid: Image, after: Image, pos: nat, done: seq<Byte>, more: seq<Byte>, q: nat, n: nat)
    requires q > 0 && n > 0 && Holds(mid, pos, done, q, n) && SameOutside(before, mid, pos, |done|, q, n)
    requires Stores(mid, after, pos + |done|, more, q, n)
    ensures Holds(after, pos, done + more, q, n) && SameOutside(before, after, pos, |done + more|, q, n)
  {
    forall j | 0 <= j < |done + more|
      ensures Cell(after, pos + j, q, n) == Some((done + more)[j])
    {
      if j < |done| {
        assert Cell(mid, pos + j, q, n) == Some(done[j]);
      } else {
        assert Cell(after, pos + |done| + (j - |done|), q, n) == Some(more[j - |done|]);
      }
    }
    assert forall p: nat :: !(pos <= p < pos + |done + more|) && Cell(before, p, q, n).Some? ==>
        Cell(mid, p, q, n) == Cell(before, p, q, n);
  }

  /** One round of a writing loop: it gets further, by all the bytes of one quantum that are wanted. */
  lemma StoreRound(before: Image, mid: Image, after: Image, size: nat, size': nat, q: nat, n: nat,
                   pos: nat, w: seq<Byte>, done: nat, at: nat, rest: seq<Byte>, left: nat, r: Result<nat>, next: nat)
    requires q > 0 && n > 0 && done < |w| && at == pos + done && rest == w[done..] && left == |rest|
    requires next == done + if r.Ok? then r.value else 0
    requires Holds(mid, pos, w[..done], q, n) && SameOutside(before, mid, pos, done, q, n)
    requires WritesRight(mid, after, size, size', q, n, at, rest, left, r) && r != Error(ENOMEM)
    ensures done < next <= |w|
    ensures Holds(after, pos, w[..next], q, n) && SameOutside(before, after, pos, next, q, n)
    ensures size' == if size < pos + next then pos + next else size
    ensures Touched(pos + next, |w| - next, q) == Touched(pos + done, |w| - done, q) - 1
  {
    PlaceIsRight(at, q, n);
    OneCallLess(at, left, q);
    HoldsMore(before, mid, after, pos, w[..done], rest[..r.value], q, n);
    assert w[..done] + rest[..r.value] == w[..next];
  }

  /** One round of a reading loop over data that is all there. */
  lemma LoadRound(im: Image, size: nat, q: nat, n: nat, pos: nat, w: seq<Byte>, done: nat,
                  at: nat, left: nat, r: Result<nat>, bytes: seq<Byte>, next: nat)
    requires q > 0 && n > 0 && done < |w| && pos + |w| <= size && Holds(im, pos, w, q, n)
    requires at == pos + done && left == |w| - done && next == done + |bytes|
    requires ReadsRight(im, size, q, n, at, left, r, bytes) && r.Ok?
    ensures done < next <= |w| && w[..done] + bytes == w[..next]
    ensures Touched(pos + next, |w| - next, q) == Touched(pos + done, |w| - done, q) - 1
  {
    assert Cell(im, pos + done, q, n) == Some(w[done]);
    PlaceIsRight(at, q, n);
    OneCallLess(at, left, q);
    forall j | 0 <= j < |bytes|
      ensures bytes[j] == w[done + j]
    {
      assert Cell(im, at + j, q, n) == Some(bytes[j]);
      assert Cell(im, pos + (done + j), q, n) == Some(w[done + j]);
    }
  }
}
