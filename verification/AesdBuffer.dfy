/** The ten-slot command ring of aesd-char-driver/aesd-circular-buffer.c. */
module AesdBuffer {
  import opened Common
  import opened AesdSpec

  /** struct aesd_buffer_entry: a block and how many of its bytes are in use. */
  datatype Entry = Entry(buffptr: array?<Byte>, size: nat)

  const NO_ENTRY := Entry(null, 0)

  function TotalSize(entries: seq<Entry>): nat {
    if entries == [] then 0 else entries[0].size + TotalSize(entries[1..])
  }

  lemma {:induction false} TotalAppend(a: seq<Entry>, b: seq<Entry>)
    ensures TotalSize(a + b) == TotalSize(a) + TotalSize(b)
  {
    if a == [] {
      assert a + b == b;
    } else {
      assert (a + b)[1..] == a[1..] + b;
      TotalAppend(a[1..], b);
    }
  }

  /** Byte off of the k-th entry is at position pos of the joined entries. */
  predicate IsAt(entries: seq<Entry>, k: nat, off: nat, pos: nat) {
    k < |entries| && off < entries[k].size && TotalSize(entries[..k]) + off == pos
  }

  lemma TotalNext(entries: seq<Entry>, k: nat)
    requires k < |entries|
    ensures TotalSize(entries[..k + 1]) == TotalSize(entries[..k]) + entries[k].size
    ensures TotalSize(entries[..k + 1]) <= TotalSize(entries)
  {
    assert entries[..k + 1] == entries[..k] + [entries[k]];
    TotalAppend(entries[..k], [entries[k]]);
    assert [entries[k]][1..] == [];
    assert entries == entries[..k + 1] + entries[k + 1..];
    TotalAppend(entries[..k + 1], entries[k + 1..]);
  }

  /** The entries that survive the arrival of one more. */
  function WithoutOldest(entries: seq<Entry>): seq<Entry> {
    if |entries| == SLOTS then entries[1..] else entries
  }

  /** Filling slot at of a ring that is not full. */
  lemma AddedInOrder(slots: seq<Entry>, at: nat, e: Entry)
    requires at < |slots|
    ensures slots[at := e][..at + 1] == slots[..at] + [e]
  {
  }

  /** Overwriting the oldest entry of a full ring, which then starts one slot later. */
  lemma AddedInPlace(slots: seq<Entry>, at: nat, e: Entry)
    requires at < |slots|
    ensures var after := slots[at := e];
      && (slots[at..] + slots[..at])[1..] + [e] == after[at + 1..] + after[..at + 1]
      && (at + 1 == |slots| ==> after[at + 1..] + after[..at + 1] == after)
  {
    assert slots[at..][1..] == slots[at + 1..];
    AddedInOrder(slots, at, e);
  }

  class CircularBuffer {
    const entry: array<Entry>
    var in_offs: nat
    var out_offs: nat
    var full: bool

    /** A ring that is not full has never wrapped, and its unused slots are clear. */
    ghost predicate Valid()
      reads this, entry
    {
      && entry.Length == SLOTS && in_offs < SLOTS && out_offs < SLOTS
      && (full ==> in_offs == out_offs)
      && (!full ==> out_offs == 0 && forall i :: in_offs <= i < SLOTS ==> entry[i] == NO_ENTRY)
    }

    /** The entries in use, oldest first. */
    ghost function Entries(): seq<Entry>
      reads this, entry
      requires Valid()
    {
      if full then entry[out_offs..] + entry[..out_offs] else entry[..in_offs]
    }

    /** The slot that holds the k-th oldest entry: (out_offs + k) % SLOTS. */
    function SlotOf(k: nat): (slot: nat)
      reads this
      requires out_offs < SLOTS && k <= SLOTS
    {
      if out_offs + k < SLOTS then out_offs + k else out_offs + k - SLOTS
    }

    lemma SlotIsModulo(k: nat)
      requires out_offs < SLOTS && k <= SLOTS
      ensures SlotOf(k) == (out_offs + k) % SLOTS
    {
    }

    lemma NextSlot(k: nat)
      requires out_offs < SLOTS && k < SLOTS
      ensures SlotOf(k + 1) == (SlotOf(k) + 1) % SLOTS
    {
    }

    lemma SlotHolds(k: nat)
      requires Valid() && k < |Entries()|
      ensures entry[SlotOf(k)] == Entries()[k]
    {
    }

    lemma SlotPastNewest(k: nat)
      requires Valid() && |Entries()| <= k < SLOTS
      ensures entry[SlotOf(k)] == NO_ENTRY
    {
    }

    /** The slot before in_offs, which holds the newest entry of a full ring. */
    function Newest(): Entry
      reads this, entry
      requires Valid()
    {
      entry[(in_offs + SLOTS - 1) % SLOTS]
    }

    lemma NewestOfFull()
      requires Valid()
      ensures |Entries()| <= SLOTS && (full <==> |Entries()| == SLOTS)
      ensures full ==> Newest() == Entries()[SLOTS - 1]
    {
      if full {
        SlotHolds(SLOTS - 1);
        SlotIsModulo(SLOTS - 1);
      }
    }

    /** aesd_circular_buffer_init */
    constructor ()
      ensures Valid() && Entries() == [] && fresh(entry)
    {
      entry := new Entry[SLOTS](_ => NO_ENTRY);
      in_offs, out_offs, full := 0, 0, false;
    }

    /** aesd_circular_buffer_add_entry: the pointer returned is that of the entry that left, if any. */
    method AddEntry(e: Entry) returns (evicted: array?<Byte>)
      requires Valid()
      modifies this, entry
      ensures Valid()
      ensures Entries() == WithoutOldest(old(Entries())) + [e]
      ensures evicted == if |old(Entries())| == SLOTS then old(Entries())[0].buffptr else null
    {
      ghost var before, at := entry[..], in_offs;
      AddedInOrder(before, at, e);
      AddedInPlace(before, at, e);
      evicted := null;
      if full {
        evicted := entry[out_offs].buffptr;
      }
      entry[in_offs] := e;
      assert entry[..] == before[at := e];
      in_offs := (in_offs + 1) % SLOTS;
      if full {
        out_offs := (out_offs + 1) % SLOTS;
      }
      if in_offs == out_offs {
        full := true;
      }
      assert in_offs == if at + 1 == SLOTS then 0 else at + 1;
    }

    /** aesd_circular_buffer_find_entry_offset_for_fpos: the slot and offset of a position in the joined entries. */
    method FindEntry(charOffset: nat) returns (found: bool, slot: nat, entryOffset: nat, ghost k: nat)
      requires Valid()
      ensures found <==> charOffset < TotalSize(Entries())
      ensures found ==> k < |Entries()| && slot == SlotOf(k) && IsAt(Entries(), k, entryOffset, charOffset)
    {
      if !full && in_offs == out_offs {
        return false, 0, 0, 0;
      }
      var validEntries: nat;
      if full {
        validEntries := SLOTS;
      } else {
        validEntries := (in_offs + SLOTS - out_offs) % SLOTS;
      }
      ghost var entries := Entries();
      assert validEntries == |entries|;
      var rest: nat, ctr: nat, idx: nat := charOffset, 0, out_offs;
      while ctr < validEntries
        invariant ctr <= validEntries && idx == SlotOf(ctr)
        invariant TotalSize(entries[..ctr]) + rest == charOffset
      {
        SlotHolds(ctr);
        TotalNext(entries, ctr);
        if rest < entry[idx].size {
          assert IsAt(entries, ctr, rest, charOffset);
          return true, idx, rest, ctr;
        }
        rest := rest - entry[idx].size;
        NextSlot(ctr);
        idx := (idx + 1) % SLOTS;
        ctr := ctr + 1;
      }
      assert entries[..ctr] == entries;
      return false, 0, 0, 0;
    }
  }
}
