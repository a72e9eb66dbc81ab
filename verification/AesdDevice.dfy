/** The aesdchar driver of aesd-char-driver/main.c: its file operations and its memory. */
module AesdDevice {
  import opened Common
  import opened AesdSpec
  import opened AesdBuffer

  /** kmalloc and kfree, with the set of blocks that have been handed out and not yet freed. */
  class Slab {
    ghost var live: set<array<Byte>>

    constructor ()
      ensures live == {}
    {
      live := {};
    }

    /** May fail unless there is memory. */
    method Kmalloc(size: nat, memory: bool) returns (p: array?<Byte>)
      modifies this
      ensures memory ==> p != null
      ensures p == null ==> live == old(live)
      ensures p != null ==> fresh(p) && p !in old(live) && p.Length == size && live == old(live) + {p}
    {
      var granted: bool := *;
      if !granted && !memory {
        return null;
      }
      p := new Byte[size];
      live := live + {p};
    }

    /** Freeing a block that is not live would be a double free. */
    method Kfree(p: array?<Byte>)
      requires p != null ==> p in live
      modifies this
      ensures live == if p == null then old(live) else old(live) - {p}
    {
      if p != null {
        live := live - {p};
      }
    }
  }

  /** The open file: only its position matters. */
  class File {
    var f_pos: nat

    constructor ()
      ensures f_pos == 0
    {
      f_pos := 0;
    }
  }

  /** The blocks the entries point to. */
  ghost function Blocks(entries: seq<Entry>): set<array<Byte>> {
    set e | e in entries && e.buffptr != null :: e.buffptr
  }

  /** entries hold the commands of cmds, one block each. */
  ghost predicate Represents(entries: seq<Entry>, cmds: seq<seq<Byte>>)
    reads Blocks(entries)
  {
    && |entries| == |cmds|
    && (forall k :: 0 <= k < |entries| ==>
          entries[k].buffptr != null && entries[k].size == |cmds[k]| && entries[k].buffptr[..] == cmds[k])
    && (forall j, k :: 0 <= j < k < |entries| ==> entries[j].buffptr != entries[k].buffptr)
  }

  lemma {:induction false} SizesAreLengths(entries: seq<Entry>, cmds: seq<seq<Byte>>)
    requires |entries| == |cmds| && forall k :: 0 <= k < |entries| ==> entries[k].size == |cmds[k]|
    ensures TotalSize(entries) == |Flat(cmds)|
    ensures forall k: nat :: k <= |entries| ==> TotalSize(entries[..k]) == Start(cmds, k)
    decreases |entries|
  {
    if entries == [] {
    } else {
      var n := |entries| - 1;
      SizesAreLengths(entries[..n], cmds[..n]);
      assert forall k: nat :: k <= n ==> entries[..n][..k] == entries[..k] && cmds[..n][..k] == cmds[..k];
      TotalNext(entries, n);
      StartNext(cmds, n);
      assert entries[..n + 1] == entries && cmds[..n + 1] == cmds;
    }
  }

  /** A fresh block added as newest entry. */
  lemma RepresentsPlusOne(entries: seq<Entry>, cmds: seq<seq<Byte>>, block: array<Byte>)
    requires Represents(entries, cmds) && block !in Blocks(entries)
    ensures Represents(entries + [Entry(block, block.Length)], cmds + [block[..]])
    ensures Blocks(entries + [Entry(block, block.Length)]) == Blocks(entries) + {block}
  {
    var more := entries + [Entry(block, block.Length)];
    assert forall i :: 0 <= i < |entries| ==> entries[i] in entries && more[i] == entries[i];
    assert more[|entries|] in more;
    forall b | b in Blocks(entries) + {block} ensures b in Blocks(more) {
      if b != block {
        var e :| e in entries && e.buffptr != null && e.buffptr == b;
        assert e in more;
      }
    }
  }

  /** The oldest entry dropped: its block is no longer referred to. */
  lemma RepresentsMinusOne(entries: seq<Entry>, cmds: seq<seq<Byte>>)
    requires Represents(entries, cmds) && entries != []
    ensures Represents(entries[1..], cmds[1..])
    ensures Blocks(entries[1..]) == Blocks(entries) - {entries[0].buffptr}
  {
    assert forall i :: 0 <= i < |entries| ==> entries[i] in entries;
    forall b | b in Blocks(entries) && b != entries[0].buffptr ensures b in Blocks(entries[1..]) {
      var e :| e in entries && e.buffptr != null && e.buffptr == b;
      var i :| 0 <= i < |entries| && entries[i] == e;
      assert entries[1..][i - 1] == e;
    }
  }

  /** The arrival of a finished command, with or without an eviction. */
  lemma RepresentsAfterAdd(entries: seq<Entry>, cmds: seq<seq<Byte>>, block: array<Byte>)
    requires Represents(entries, cmds) && block !in Blocks(entries) && |cmds| <= SLOTS
    ensures var entries' := WithoutOldest(entries) + [Entry(block, block.Length)];
      && Represents(entries', LastTen(cmds + [block[..]]))
      && Blocks(entries') == Blocks(WithoutOldest(entries)) + {block}
    ensures |entries| == SLOTS ==> entries[0].buffptr in Blocks(entries)
    ensures |entries| == SLOTS ==> Blocks(WithoutOldest(entries)) == Blocks(entries) - {entries[0].buffptr}
  {
    if |entries| == SLOTS {
      assert entries[0] in entries;
      RepresentsMinusOne(entries, cmds);
      assert LastTen(cmds + [block[..]]) == cmds[1..] + [block[..]];
      RepresentsPlusOne(entries[1..], cmds[1..], block);
    } else {
      RepresentsPlusOne(entries, cmds, block);
    }
  }

  lemma {:induction false} TotalClear(entries: seq<Entry>)
    requires forall i :: 0 <= i < |entries| ==> entries[i] == NO_ENTRY
    ensures TotalSize(entries) == 0
  {
    if entries != [] {
      TotalClear(entries[1..]);
    }
  }

  class Device {
    const buffer: CircularBuffer
    const slab: Slab
    var buffer_partial: array?<Byte>
    var size_partial: nat
    ghost var writes: seq<seq<Byte>>     // the data of every write that succeeded

    /** The device's contents as the sequence of successful writes determines them. */
    ghost function Contents(): Store
      reads this
    {
      AfterWrites(writes)
    }

    /** The blocks the device points to. */
    ghost function Owned(): set<array<Byte>>
      reads this`buffer_partial, buffer, buffer.entry
      requires buffer.Valid()
    {
      Blocks(buffer.Entries()) + if buffer_partial == null then {} else {buffer_partial}
    }

    /** The slots and the partial buffer hold st, each block in one place only. */
    ghost predicate Holds(st: Store)
      reads this`buffer_partial, this`size_partial, buffer, buffer.entry, slab, slab.live
    {
      && buffer.Valid()
      && Owned() <= slab.live
      && Represents(buffer.Entries(), st.cmds)
      && (buffer_partial == null ==> size_partial == 0 && st.partial == [])
      && (buffer_partial != null ==>
            && buffer_partial !in Blocks(buffer.Entries())
            && buffer_partial.Length == size_partial && buffer_partial[..] == st.partial)
    }

    /** The device holds its contents, and no other block is live: nothing has leaked. */
    ghost predicate Valid()
      reads this, buffer, buffer.entry, slab, slab.live
    {
      Holds(Contents()) && slab.live == Owned()
    }

    constructor ()
      ensures Valid() && fresh(buffer) && fresh(buffer.entry) && fresh(slab) && Contents() == EMPTY
    {
      buffer := new CircularBuffer();
      slab := new Slab();
      buffer_partial, size_partial := null, 0;
      writes := [];
    }

    /**
     One lookup and one copy_to_user at position pos: up to wanted bytes, but not beyond the end of
     the entry that holds the position; copied is what has been copied from start on.
     */
    method CopyNext(start: nat, pos: nat, wanted: nat, copied: seq<Byte>, copyOk: bool)
      returns (found: bool, ok: bool, n: nat, more: seq<Byte>)
      requires Valid() && start <= pos && |copied| == pos - start
      requires copied == Window(Flat(Contents().cmds), start, pos - start)
      ensures found <==> pos < |Flat(Contents().cmds)|
      ensures ok <==> found ==> copyOk
      ensures n <= wanted && (found && ok && wanted > 0 ==> n > 0) && (!found || !ok ==> n == 0)
      ensures |more| == pos + n - start && more == Window(Flat(Contents().cmds), start, pos + n - start)
    {
      hide Represents, AfterWrites, Window, Flat;
      var slot: nat, offset: nat;
      ghost var k: nat;
      SizeIsLength();
      ok, n, more := true, 0, copied;
      found, slot, offset, k := buffer.FindEntry(pos);
      if !found {
        return;
      }
      if !copyOk {
        ok := false;
        return;
      }
      var chunk := CopyOut(slot, offset, wanted, k, pos);
      ExtendWindow(Contents().cmds, k, offset, start, |chunk|, copied);
      n := |chunk|;
      more := copied + chunk;
    }

    /** One copy_to_user from the entry in a slot. */
    method CopyOut(slot: nat, offset: nat, wanted: nat, ghost k: nat, ghost pos: nat) returns (chunk: seq<Byte>)
      requires Valid() && k < |buffer.Entries()| && slot == buffer.SlotOf(k) && IsAt(buffer.Entries(), k, offset, pos)
      ensures LiesAt(Contents().cmds, k, offset, pos) && offset + |chunk| <= |Contents().cmds[k]|
      ensures |chunk| <= wanted && (wanted > 0 ==> |chunk| > 0)
      ensures chunk == Contents().cmds[k][offset..offset + |chunk|]
    {
      SizesAreLengths(buffer.Entries(), Contents().cmds);
      buffer.SlotHolds(k);
      var n := Min(wanted, buffer.entry[slot].size - offset);
      var block := buffer.entry[slot].buffptr;
      assert block[..] == Contents().cmds[k];
      chunk := block[offset..offset + n];
    }

    lemma SizeIsLength()
      requires Valid()
      ensures TotalSize(buffer.Entries()) == |Flat(Contents().cmds)|
    {
      SizesAreLengths(buffer.Entries(), Contents().cmds);
    }

    /**
     The loop of aesd_read: command by command, across slot boundaries and the end of the slot
     array, until count bytes are copied, the data ends, or the copy after okCopies good ones fails.
     */
    method Gather(start: nat, count: nat, okCopies: nat) returns (ok: bool, copied: seq<Byte>)
      requires Valid()
      ensures copied <= Window(Flat(Contents().cmds), start, count)
      ensures ok ==> copied == Window(Flat(Contents().cmds), start, count)
      ensures okCopies >= count ==> ok
    {
      ok, copied := true, [];
      var found, n, pos, copies := true, 0, start, 0;
      while found && |copied| < count && ok
        invariant pos == start + |copied| && |copied| <= count
        invariant copied == Window(Flat(Contents().cmds), start, |copied|)
        invariant copies <= |copied| && (!ok ==> okCopies < count)
        invariant !found ==> pos >= |Flat(Contents().cmds)|
        decreases count - |copied|, found, ok
      {
        found, ok, n, copied := CopyNext(start, pos, count - |copied|, copied, copies < okCopies);
        pos := pos + n;
        if found && ok {
          copies := copies + 1;
        }
      }
      WindowGrows(Flat(Contents().cmds), start, |copied|, count);
    }

    /** aesd_read: after a failed copy the position has already moved past what was copied. */
    method Read(filp: File, count: nat, okCopies: nat) returns (r: Result<nat>, copied: seq<Byte>)
      requires Valid()
      modifies filp
      ensures filp.f_pos == old(filp.f_pos) + |copied|
      ensures copied <= Window(Flat(Contents().cmds), old(filp.f_pos), count)
      ensures r.Ok? ==> copied == Window(Flat(Contents().cmds), old(filp.f_pos), count) && r.value == |copied|
      ensures r.Error? ==> r.errno == EFAULT
      ensures okCopies >= count ==> r.Ok?
    {
      var ok;
      ok, copied := Gather(filp.f_pos, count, okCopies);
      filp.f_pos := filp.f_pos + |copied|;
      r := if ok then Ok(|copied|) else Error(EFAULT);
    }

    /** The scan of aesd_write for the end of a command. */
    method HasNewline(kbuf: array<Byte>) returns (foundNewline: bool)
      ensures foundNewline <==> NEWLINE in kbuf[..]
    {
      foundNewline := false;
      var i := 0;
      while i < kbuf.Length
        invariant i <= kbuf.Length && NEWLINE !in kbuf[..i]
      {
        if kbuf[i] == NEWLINE {
          return true;
        }
        i := i + 1;
      }
    }

    /** Replaces the partial buffer by newbuf, which takes over its bytes followed by those of kbuf. */
    method AppendPartial(newbuf: array<Byte>, kbuf: array<Byte>, ghost data: seq<Byte>)
      requires Holds(Contents()) && newbuf !in Blocks(buffer.Entries()) && newbuf != buffer_partial && newbuf != kbuf
      requires slab.live == Owned() + {newbuf, kbuf} && kbuf !in Owned()
      requires newbuf.Length == size_partial + |data| && kbuf[..] == data
      modifies this`buffer_partial, this`size_partial, newbuf, slab
      ensures slab.live == Owned() + {kbuf} && kbuf !in Owned()
      ensures buffer_partial == newbuf && size_partial == newbuf.Length
      ensures newbuf[..] == Contents().partial + data
    {
      hide Represents, AfterWrites;
      if buffer_partial != null {
        forall i | 0 <= i < size_partial {
          newbuf[i] := buffer_partial[i];
        }
        slab.Kfree(buffer_partial);
      }
      forall i | 0 <= i < kbuf.Length {
        newbuf[size_partial + i] := kbuf[i];
      }
      assert newbuf[..] == Contents().partial + data;
      buffer_partial := newbuf;
      size_partial := size_partial + kbuf.Length;
    }

    /** The end of aesd_write when the data held a newline: the partial buffer becomes the newest command. */
    method FinishCommand(ghost st: Store, ghost data: seq<Byte>)
      requires buffer.Valid() && Represents(buffer.Entries(), st.cmds) && |st.cmds| <= SLOTS
      requires buffer_partial != null && buffer_partial !in Blocks(buffer.Entries())
      requires size_partial == buffer_partial.Length && buffer_partial[..] == st.partial + data
      requires slab.live == Owned()
      modifies this`buffer_partial, this`size_partial, buffer, buffer.entry, slab
      ensures Holds(Store(LastTen(st.cmds + [st.partial + data]), [])) && slab.live == Owned()
    {
      hide Represents, LastTen;
      var evicted := AddCommand(st.cmds);
      assert Represents(buffer.Entries(), LastTen(st.cmds + [st.partial + data]));
      if evicted != null {
        slab.Kfree(evicted);
      }
      buffer_partial := null;
      size_partial := 0;
    }

    /** The call of aesd_circular_buffer_add_entry. */
    method AddCommand(ghost cmds: seq<seq<Byte>>) returns (evicted: array?<Byte>)
      requires buffer.Valid() && Represents(buffer.Entries(), cmds) && |cmds| <= SLOTS
      requires buffer_partial != null && buffer_partial !in Blocks(buffer.Entries())
      requires size_partial == buffer_partial.Length
      modifies buffer, buffer.entry
      ensures buffer.Valid() && Represents(buffer.Entries(), LastTen(cmds + [buffer_partial[..]]))
      ensures Blocks(buffer.Entries()) ==
        old(Blocks(buffer.Entries())) + {buffer_partial} - (if evicted == null then {} else {evicted})
      ensures evicted != null ==> evicted in old(Blocks(buffer.Entries())) && evicted != buffer_partial
    {
      ghost var entries := buffer.Entries();
      evicted := buffer.AddEntry(Entry(buffer_partial, size_partial));
      RepresentsAfterAdd(entries, cmds, buffer_partial);
    }

    /** The partial buffer has grown by the data, and the copy of the data is given back. */
    method Extend(newbuf: array<Byte>, kbuf: array<Byte>, ghost data: seq<Byte>)
      requires Holds(Contents()) && newbuf !in Owned() && newbuf != kbuf
      requires slab.live == Owned() + {newbuf, kbuf} && kbuf !in Owned()
      requires newbuf.Length == size_partial + |data| && kbuf[..] == data
      modifies this`buffer_partial, this`size_partial, newbuf, slab
      ensures buffer.Valid() && Represents(buffer.Entries(), Contents().cmds) && slab.live == Owned()
      ensures buffer_partial == newbuf && newbuf !in Blocks(buffer.Entries()) && size_partial == newbuf.Length
      ensures newbuf[..] == Contents().partial + data
    {
      hide Represents, AfterWrites;
      AppendPartial(newbuf, kbuf, data);
      slab.Kfree(kbuf);
    }

    /** The part of aesd_write that can no longer fail. */
    method TakeIn(newbuf: array<Byte>, kbuf: array<Byte>, ghost data: seq<Byte>, foundNewline: bool)
      requires Holds(Contents()) && newbuf !in Owned() && newbuf != kbuf
      requires slab.live == Owned() + {newbuf, kbuf} && kbuf !in Owned()
      requires newbuf.Length == size_partial + |data| && kbuf[..] == data && foundNewline == (NEWLINE in data)
      modifies this`buffer_partial, this`size_partial, this`writes, newbuf, buffer, buffer.entry, slab
      ensures Valid() && writes == old(writes) + [data] && Contents() == Accept(old(Contents()), data)
    {
      hide Represents, LastTen, AfterWrites;
      ghost var st := Contents();
      AfterOneMore(writes, data);
      Extend(newbuf, kbuf, data);
      writes := writes + [data];
      if foundNewline {
        FinishCommand(st, data);
      }
    }

    /** The part of aesd_write that can fail: it gets its two blocks or gives back what it got. */
    method Prepare(data: seq<Byte>, memory: bool, copyOk: bool)
      returns (error: Option<Errno>, kbuf: array?<Byte>, newbuf: array?<Byte>, foundNewline: bool)
      modifies slab
      ensures error.Some? ==> slab.live == old(slab.live)
      ensures error.Some? ==> (error.value == ENOMEM && !memory) || (error.value == EFAULT && !copyOk)
      ensures error.None? ==>
        && copyOk && kbuf != null && newbuf != null && kbuf != newbuf && fresh(kbuf) && fresh(newbuf)
        && kbuf !in old(slab.live) && newbuf !in old(slab.live) && slab.live == old(slab.live) + {newbuf, kbuf}
        && kbuf[..] == data && newbuf.Length == size_partial + |data| && foundNewline == (NEWLINE in data)
    {
      newbuf, foundNewline := null, false;
      kbuf := slab.Kmalloc(|data|, memory);
      if kbuf == null {
        return Some(ENOMEM), null, null, false;
      }
      if !copyOk {
        slab.Kfree(kbuf);
        return Some(EFAULT), null, null, false;
      }
      forall i | 0 <= i < |data| {
        kbuf[i] := data[i];
      }
      assert kbuf[..] == data;
      foundNewline := HasNewline(kbuf);
      newbuf := slab.Kmalloc(size_partial + |data|, memory);
      if newbuf == null {
        slab.Kfree(kbuf);
        return Some(ENOMEM), null, null, false;
      }
      error := None;
    }

    /** aesd_write.  On any failure the device, its memory and the position are as before. */
    method Write(filp: File, data: seq<Byte>, memory: bool, copyOk: bool) returns (r: Result<nat>)
      requires Valid()
      modifies filp, this`buffer_partial, this`size_partial, this`writes, buffer, buffer.entry, slab
      ensures Valid()
      ensures r.Ok? ==> r.value == |data| && filp.f_pos == old(filp.f_pos) + |data|
      ensures r.Ok? ==> writes == old(writes) + [data] && Contents() == Accept(old(Contents()), data)
      ensures r.Error? ==> writes == old(writes) && slab.live == old(slab.live) && filp.f_pos == old(filp.f_pos)
      ensures r.Error? ==> buffer.Entries() == old(buffer.Entries()) && buffer_partial == old(buffer_partial)
      ensures r.Error? ==> (r.errno == ENOMEM && !memory) || (r.errno == EFAULT && !copyOk)
    {
      hide Represents, Accept;
      var error, kbuf, newbuf, foundNewline := Prepare(data, memory, copyOk);
      if error.Some? {
        return Error(error.value);
      }
      TakeIn(newbuf, kbuf, data, foundNewline);
      filp.f_pos := filp.f_pos + |data|;
      return Ok(|data|);
    }

    /** A slot in no use is clear, so adding up slots in physical order gives the length in age order. */
    lemma PhysicalTotal()
      requires buffer.Valid()
      ensures TotalSize(buffer.entry[..]) == TotalSize(buffer.Entries())
    {
      var e := buffer.entry[..];
      var cut := if buffer.full then buffer.out_offs else buffer.in_offs;
      assert e == e[..cut] + e[cut..];
      TotalAppend(e[..cut], e[cut..]);
      if buffer.full {
        TotalAppend(e[cut..], e[..cut]);
      } else {
        TotalClear(e[cut..]);
      }
    }

    /** The loop of aesd_llseek over the slots. */
    method StoredBytes() returns (totalSize: nat)
      requires Valid()
      ensures totalSize == |Flat(Contents().cmds)|
    {
      SizeIsLength();
      PhysicalTotal();
      totalSize := 0;
      var index := 0;
      while index < SLOTS
        invariant index <= SLOTS && totalSize == TotalSize(buffer.entry[..][..index])
      {
        TotalNext(buffer.entry[..], index);
        UnusedIsClear(index);
        if buffer.entry[index].buffptr != null {
          totalSize := totalSize + buffer.entry[index].size;
        }
        index := index + 1;
      }
      assert buffer.entry[..][..SLOTS] == buffer.entry[..];
    }

    /** aesd_llseek: any target is clamped to the end of the stored data. */
    method Llseek(filp: File, offset: int, whence: Whence) returns (r: Result<nat>)
      requires Valid()
      modifies filp
      ensures var target := LseekTarget(whence, old(filp.f_pos), offset, |Flat(Contents().cmds)|);
        if target.None? then r == Error(EINVAL) && filp.f_pos == old(filp.f_pos)
        else r == Ok(target.value) && filp.f_pos == target.value
    {
      var totalSize := StoredBytes();
      var newpos: int;
      match whence {
        case SeekSet => newpos := offset;
        case SeekCur => newpos := filp.f_pos + offset;
        case SeekEnd => newpos := totalSize + offset;
        case Other => return Error(EINVAL);
      }
      if newpos < 0 {
        return Error(EINVAL);
      }
      if newpos > totalSize {
        newpos := totalSize;
      }
      filp.f_pos := newpos;
      return Ok(newpos);
    }

    /** Seeking k bytes back from the end and reading gives the last k bytes of the stored commands. */
    method LastBytes(filp: File, k: nat) returns (bytes: seq<Byte>)
      requires Valid() && k <= |Flat(Contents().cmds)|
      modifies filp
      ensures var flat := Flat(Contents().cmds); bytes == flat[|flat| - k..] && filp.f_pos == |flat|
    {
      var r := Llseek(filp, 0 - k, SeekEnd);
      r, bytes := Read(filp, k, k);
    }

    /** Seeking to p from the beginning and reading gives the bytes from p on, none if p is past the end. */
    method BytesAt(filp: File, p: nat, count: nat) returns (bytes: seq<Byte>)
      requires Valid()
      modifies filp
      ensures bytes == Window(Flat(Contents().cmds), p, count)
    {
      var r := Llseek(filp, p, SeekSet);
      r, bytes := Read(filp, count, count);
    }

    /** Moves from the current position add up while they stay inside the data, and a move by 0 tells the position. */
    method MoveTwice(filp: File, i: int, j: int) returns (r: Result<nat>)
      requires Valid() && filp.f_pos <= |Flat(Contents().cmds)|
      requires 0 <= filp.f_pos + i <= |Flat(Contents().cmds)| && 0 <= filp.f_pos + i + j <= |Flat(Contents().cmds)|
      modifies filp
      ensures filp.f_pos == old(filp.f_pos) + i + j && r == Ok(filp.f_pos)
    {
      r := Llseek(filp, i, SeekCur);
      r := Llseek(filp, j, SeekCur);
      r := Llseek(filp, 0, SeekCur);
    }

    /** A slot without a block has size 0. */
    lemma UnusedIsClear(i: nat)
      requires Valid() && i < SLOTS
      ensures buffer.entry[i].buffptr == null ==> buffer.entry[i].size == 0
    {
      if buffer.entry[i] in buffer.Entries() {
      } else {
        assert !buffer.full;
      }
    }

    /** Exactly the slots that hold an entry have a block. */
    lemma SlotInUse(k: nat)
      requires buffer.Valid() && Represents(buffer.Entries(), Contents().cmds) && k < SLOTS
      ensures (buffer.out_offs + k) % SLOTS == buffer.SlotOf(k)
      ensures buffer.entry[buffer.SlotOf(k)].buffptr != null <==> k < |buffer.Entries()|
      ensures k < |buffer.Entries()| ==> buffer.entry[buffer.SlotOf(k)] == buffer.Entries()[k]
    {
      buffer.SlotIsModulo(k);
      if k < |buffer.Entries()| {
        buffer.SlotHolds(k);
      } else {
        buffer.SlotPastNewest(k);
      }
    }

    lemma EntrySizes()
      requires Valid()
      ensures |buffer.Entries()| == |Contents().cmds|
      ensures forall k :: 0 <= k < |buffer.Entries()| ==> buffer.Entries()[k].size == |Contents().cmds[k]|
    {
    }

    /** The loop of aesd_unlocked_ioctl: the slot it stops at and the bytes before that slot's entry. */
    method WalkTo(writeCmd: nat) returns (entry: Entry, offset: nat)
      requires Valid()
      ensures var cmds := Contents().cmds; var k := if writeCmd < |cmds| then writeCmd else SLOTS - 1;
        && (entry.buffptr != null <==> k < |cmds|)
        && (k < |cmds| ==> entry.size == |cmds[k]|)
        && offset == if writeCmd < |cmds| then Start(cmds, writeCmd) else |Flat(cmds)|
    {
      hide Represents, AfterWrites;
      EntrySizes();
      ghost var entries := buffer.Entries();
      offset := 0;
      var index, i := 0, 0;
      entry := NO_ENTRY;
      while i < SLOTS
        invariant i <= SLOTS && index == Min(i, |entries|) && index <= writeCmd
        invariant i > 0 ==> writeCmd < |entries| || entry == buffer.entry[buffer.SlotOf(i - 1)]
        invariant offset == TotalSize(entries[..index])
      {
        SlotInUse(i);
        entry := buffer.entry[(buffer.out_offs + i) % SLOTS];
        if entry.buffptr != null {
          if index == writeCmd {
            SizesAreLengths(entries, Contents().cmds);
            return;
          }
          TotalNext(entries, i);
          offset := offset + entry.size;
          index := index + 1;
        }
        i := i + 1;
      }
      SlotInUse(SLOTS - 1);
      SizesAreLengths(entries, Contents().cmds);
      assert entries[..|entries|] == entries;
    }

    /** AESDCHAR_IOCSEEKTO, given the command number and offset the caller passed. */
    method SeekTo(filp: File, writeCmd: nat, writeCmdOffset: nat, copyOk: bool) returns (r: Result<nat>)
      requires Valid()
      modifies filp
      ensures !copyOk ==> r == Error(EFAULT)
      ensures copyOk ==> var target := SeekTarget(Contents().cmds, writeCmd, writeCmdOffset);
        if target.None? then r == Error(EINVAL) else r == Ok(0) && filp.f_pos == target.value
      ensures r.Error? ==> filp.f_pos == old(filp.f_pos)
      ensures copyOk && writeCmd < |buffer.Entries()| ==> (r.Ok? <==> writeCmdOffset < buffer.Entries()[writeCmd].size)
      ensures copyOk && writeCmd >= |buffer.Entries()| ==>
        (r.Ok? <==> buffer.full && writeCmdOffset < buffer.Newest().size)
    {
      hide Represents, AfterWrites;
      if !copyOk {
        return Error(EFAULT);
      }
      AfterOneMore(writes, []);
      EntrySizes();
      buffer.NewestOfFull();
      var entry, offset := WalkTo(writeCmd);
      if entry.buffptr == null {
        return Error(EINVAL);
      }
      if writeCmdOffset >= entry.size {
        return Error(EINVAL);
      }
      filp.f_pos := offset + writeCmdOffset;
      return Ok(0);
    }

    /** After a seek inside a stored command the next lookup finds that command's slot and the offset asked for. */
    method SeekAndFind(filp: File, writeCmd: nat, writeCmdOffset: nat) returns (slot: nat, entryOffset: nat)
      requires Valid() && writeCmd < |buffer.Entries()| && writeCmdOffset < buffer.Entries()[writeCmd].size
      modifies filp
      ensures slot == buffer.SlotOf(writeCmd) && entryOffset == writeCmdOffset
    {
      ghost var entries, cmds := buffer.Entries(), Contents().cmds;
      SizesAreLengths(entries, cmds);
      SeekRoundTrip(cmds, writeCmd, writeCmdOffset);
      var r := SeekTo(filp, writeCmd, writeCmdOffset, true);
      var pos, found := filp.f_pos, false;
      ghost var k;
      found, slot, entryOffset, k := buffer.FindEntry(pos);
      assert LiesAt(cmds, k, entryOffset, pos);
    }

    /** A slot in use holds an entry of some age, whose block is not the partial buffer. */
    lemma SlotAge(i: nat) returns (k: nat)
      requires Valid() && i < SLOTS && buffer.entry[i].buffptr != null
      ensures k < |buffer.Entries()| && buffer.Entries()[k] == buffer.entry[i] && i == (buffer.out_offs + k) % SLOTS
      ensures buffer.entry[i].buffptr != buffer_partial
    {
      k := if i >= buffer.out_offs then i - buffer.out_offs else i + SLOTS - buffer.out_offs;
      SlotInUse(k);
      assert buffer.Entries()[k] in buffer.Entries();
    }

    /** Different slots in use point to different blocks, none of them the partial buffer's. */
    lemma SlotsDistinct(i: nat, j: nat)
      requires Valid() && i < SLOTS && j < SLOTS && i != j
      requires buffer.entry[i].buffptr != null && buffer.entry[j].buffptr != null
      ensures buffer.entry[i].buffptr != buffer.entry[j].buffptr
      ensures buffer_partial != buffer.entry[i].buffptr && buffer_partial != buffer.entry[j].buffptr
    {
      var a := SlotAge(i);
      var b := SlotAge(j);
    }

    /** The freeing part of aesd_cleanup_module: afterwards every block ever allocated has been freed, each once. */
    method Cleanup()
      requires Valid()
      modifies slab
      ensures slab.live == {}
    {
      PhysicalBlocks();
      forall i: nat, j: nat | i < j < SLOTS && buffer.entry[i].buffptr != null && buffer.entry[j].buffptr != null
        ensures buffer.entry[i].buffptr != buffer.entry[j].buffptr
      {
        SlotsDistinct(i, j);
      }
      if buffer_partial != null {
        slab.Kfree(buffer_partial);
      }
      assert buffer.entry[0..] == buffer.entry[..];
      var index := 0;
      while index < SLOTS
        invariant index <= SLOTS && slab.live == Blocks(buffer.entry[index..])
      {
        if buffer.entry[index].buffptr != null {
          slab.Kfree(buffer.entry[index].buffptr);
        }
        index := index + 1;
      }
    }

    lemma PhysicalBlocks()
      requires Valid()
      ensures Blocks(buffer.entry[..]) == Blocks(buffer.Entries())
    {
      assert forall e :: e in buffer.entry[..] && e.buffptr != null ==> e in buffer.Entries();
      assert forall e :: e in buffer.Entries() ==> e in buffer.entry[..];
    }
  }
}
