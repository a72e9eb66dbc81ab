/**
 The scullp device of scullp/main.c and scullp/mmap.c: quanta are blocks of pages, the first list
 item is the device itself, and processes can map the pages.  The list is a sequence; blocks are
 numbered, and mem holds the bytes of those that have been allocated and not yet freed.
 */
module ScullpDevice {
  import opened Common
  import opened ScullGeometry
  import opened ScullImage

  const PAGE_SIZE: nat := 4096

  function BlockSize(order: nat): (size: nat)
    ensures size >= PAGE_SIZE && (size == PAGE_SIZE <==> order == 0)
  {
    if order == 0 then PAGE_SIZE else 2 * BlockSize(order - 1)
  }

  /** Each order doubles the block: the sizes are PAGE_SIZE shifted left. */
  lemma {:induction false} BlockSizesMultiply(a: nat, b: nat)
    ensures BlockSize(a) * BlockSize(b) == PAGE_SIZE * BlockSize(a + b) && BlockSize(1) == 8192
    decreases a
  {
    if a > 0 {
      BlockSizesMultiply(a - 1, b);
      assert BlockSize(a) == 2 * BlockSize(a - 1) && BlockSize(a + b) == 2 * BlockSize(a - 1 + b);
      assert BlockSize(a) * BlockSize(b) == 2 * (BlockSize(a - 1) * BlockSize(b));
    }
  }

  datatype Item = Item(order: nat, data: Option<seq<Option<nat>>>)

  const NEW_ITEM := Item(0, None)

  /** The block in slot s of item i. */
  function SlotOf(items: seq<Item>, i: nat, s: nat): Option<nat> {
    if i < |items| && items[i].data.Some? && s < |items[i].data.value| then items[i].data.value[s] else None
  }

  /** home tells where each block of the list is; no block is in two slots. */
  ghost predicate Placed(items: seq<Item>, home: map<nat, (nat, nat)>) {
    && (forall b :: b in home ==> SlotOf(items, home[b].0, home[b].1) == Some(b))
    && (forall i: nat, s: nat :: SlotOf(items, i, s).Some? ==>
          SlotOf(items, i, s).value in home && home[SlotOf(items, i, s).value] == (i, s))
  }

  function WithBlock(items: seq<Item>, i: nat, s: nat, block: nat): seq<Item>
    requires i < |items| && items[i].data.Some? && s < |items[i].data.value|
  {
    items[i := items[i].(data := Some(items[i].data.value[s := Some(block)]))]
  }

  /** A block that is nowhere in the list enters an empty slot. */
  lemma PlaceOne(items: seq<Item>, home: map<nat, (nat, nat)>, i: nat, s: nat, block: nat)
    requires Placed(items, home) && block !in home
    requires i < |items| && items[i].data.Some? && s < |items[i].data.value| && SlotOf(items, i, s).None?
    ensures Placed(WithBlock(items, i, s, block), home[block := (i, s)])
    ensures forall j: nat, t: nat ::
      SlotOf(WithBlock(items, i, s, block), j, t) == if (j, t) == (i, s) then Some(block) else SlotOf(items, j, t)
  {
    var more := WithBlock(items, i, s, block);
    assert forall j: nat, t: nat :: SlotOf(more, j, t) == if (j, t) == (i, s) then Some(block) else SlotOf(items, j, t);
  }

  /** Every live block is in one slot of the list, and has the size its item's order asks for. */
  ghost predicate OwnedBlocks(items: seq<Item>, mem: map<nat, seq<Byte>>, home: map<nat, (nat, nat)>) {
    && home.Keys == mem.Keys && Placed(items, home)
    && (forall b :: b in home ==> |mem[b]| == BlockSize(items[home[b].0].order))
  }

  /** image holds the bytes of the blocks by item and slot. */
  ghost predicate StoredBytes(items: seq<Item>, mem: map<nat, seq<Byte>>, home: map<nat, (nat, nat)>, image: Image) {
    && (forall i: nat, s: nat :: (i, s) in image <==> SlotOf(items, i, s).Some?)
    && (forall b :: b in home && b in mem && home[b] in image ==> image[home[b]] == mem[b])
  }

  /** A new block with its bytes keeps both. */
  lemma AdoptOne(items: seq<Item>, mem: map<nat, seq<Byte>>, home: map<nat, (nat, nat)>, image: Image,
                 i: nat, s: nat, block: nat, bytes: seq<Byte>)
    requires OwnedBlocks(items, mem, home) && StoredBytes(items, mem, home, image) && block !in mem
    requires i < |items| && items[i].data.Some? && s < |items[i].data.value| && SlotOf(items, i, s).None?
    requires |bytes| == BlockSize(items[i].order)
    ensures OwnedBlocks(WithBlock(items, i, s, block), mem[block := bytes], home[block := (i, s)])
    ensures StoredBytes(
      WithBlock(items, i, s, block), mem[block := bytes], home[block := (i, s)], image[(i, s) := bytes])
  {
    PlaceOne(items, home, i, s, block);
    forall b | b in home
      ensures home[b] != (i, s)
    {
      assert SlotOf(items, home[b].0, home[b].1) == Some(b);
    }
  }

  /** The list after scull_follow has walked to item n. */
  function Extended(items: seq<Item>, n: nat): (r: seq<Item>)
    ensures n < |r| && items <= r
  {
    if n < |items| then items else items + seq(n + 1 - |items|, _ => NEW_ITEM)
  }

  lemma ExtendedStep(items: seq<Item>, n: nat)
    ensures var now := Extended(items, n);
      Extended(items, n + 1) == if n + 1 == |now| then now + [NEW_ITEM] else now
  {
    if n + 1 == |Extended(items, n)| {
      assert Extended(items, n) + [NEW_ITEM] == Extended(items, n + 1);
    }
  }

  /** The list with a pointer array in item i. */
  function WithArray(items: seq<Item>, i: nat, qset: nat): (r: seq<Item>)
    ensures |r| == |items| && (i < |items| ==> r[i].data.Some?)
  {
    if i >= |items| || items[i].data.Some? then items
    else items[i := items[i].(data := Some(seq(qset, _ => None)))]
  }

  /** The list with a block in slot s of item i: the one that is there, or else the given one. */
  function WithSlot(items: seq<Item>, i: nat, s: nat, block: nat): (r: seq<Item>)
    ensures |r| == |items|
  {
    if i >= |items| || items[i].data.None? || s >= |items[i].data.value| || SlotOf(items, i, s).Some? then items
    else WithBlock(items, i, s, block)
  }

  /** How far a write gets before an allocation fails. */
  datatype Progress = ItemOnly | ArrayOnly | AllThere

  /** The list after a write to slot s of item i, where block is what the page allocator offers. */
  function Reached(items: seq<Item>, qset: nat, i: nat, s: nat, block: nat, got: Progress): (r: seq<Item>)
    ensures |r| >= |items|
  {
    var long := Extended(items, i);
    if got.ItemOnly? then long
    else if got.ArrayOnly? then WithArray(long, i, qset)
    else WithSlot(WithArray(long, i, qset), i, s, block)
  }

  datatype Layout = Layout(items: seq<Item>, qset: nat, size: nat, vmas: nat)

  /** What a device keeps beside the bytes; its first item is always there. */
  type List = l: Layout | l.items != [] witness Layout([NEW_ITEM], 1, 0, 0)

  function Order(l: List): nat {
    l.items[0].order
  }

  function NewList(order: nat, qset: nat): List {
    Layout([Item(order, None)], qset, 0, 0)
  }

  function AfterRead(l: List, pos: nat): (r: List)
    requires l.qset > 0
    ensures r.vmas == l.vmas
  {
    if pos > l.size then l else l.(items := Extended(l.items, PlaceOf(pos, BlockSize(Order(l)), l.qset).item))
  }

  /** stored is the count that a write which succeeds returns. */
  function AfterWrite(l: List, pos: nat, block: nat, got: Progress, stored: Option<nat>): (r: List)
    requires l.qset > 0
    ensures r.vmas == l.vmas
  {
    var at := PlaceOf(pos, BlockSize(Order(l)), l.qset);
    l.(
      items := Reached(l.items, l.qset, at.item, at.slot, block, got),
      size := if got.AllThere? && stored.Some? && l.size < pos + stored.value then pos + stored.value else l.size)
  }

  /** A mapped device is not trimmed. */
  function AfterTrim(l: List, order: nat, qset: nat): List {
    if l.vmas > 0 then l else NewList(order, qset)
  }

  function AfterVmaOpen(l: List): List {
    l.(vmas := l.vmas + 1)
  }

  function AfterVmaClose(l: List): List
    requires l.vmas > 0
  {
    l.(vmas := l.vmas - 1)
  }

  /** The block the page-fault handler is to find. */
  function PageAt(l: List, offset: nat): Option<nat> {
    if offset >= l.size || l.qset == 0 then None
    else SlotOf(l.items, offset / PAGE_SIZE / l.qset, offset / PAGE_SIZE % l.qset)
  }

  /** How a transfer ends; Overrun is a copy that does not fit the block. */
  datatype Outcome = Done(r: Result<nat>) | Overrun

  /** A read of n bytes of a quantum of q bytes does not fit the block it finds. */
  predicate Overruns(image: Image, at: Place, n: nat, q: nat)
    requires at.off < q
  {
    (at.item, at.slot) in image && at.off + Min(n, q - at.off) > |image[(at.item, at.slot)]|
  }

  lemma PagesFit(image: Image, at: Place, n: nat, q: nat, qset: nat)
    requires at.off < q && WellSized(image, q, qset)
    ensures !Overruns(image, at, n, q)
  {
  }

  lemma EndIsRight(image: Image, at: Place, q: nat, qset: nat, pos: nat, count: nat, r: Result<nat>, bytes: seq<Byte>)
    requires q > 0 && qset > 0 && at.off < q && r.Ok? && IsFound(image, at, 0, q, r, bytes)
    ensures ReadsRight(image, pos, q, qset, pos, count, r, bytes)
  {
  }

  lemma PastEndIsRight(image: Image, size: nat, q: nat, qset: nat, pos: nat, count: nat)
    requires q > 0 && qset > 0 && pos > size
    ensures ReadsRight(image, size, q, qset, pos, count, Ok(0), [])
  {
  }

  function StoredCount(out: Outcome): Option<nat> {
    if out.Done? && out.r.Ok? then Some(out.r.value) else None
  }

  predicate Zeroed(bytes: seq<Byte>) {
    forall j :: 0 <= j < |bytes| ==> bytes[j] == 0
  }

  /** One block, old or zeroed and new, has data laid over it from at.off on; all other blocks are as before. */
  ghost predicate InPlace(before: Image, after: Image, at: Place, data: seq<Byte>, size: nat) {
    var key := (at.item, at.slot);
    && key in after && |after[key]| == size && at.off + |data| <= size
    && after == before[key := after[key]]
    && after[key][at.off..at.off + |data|] == data
    && (forall j :: 0 <= j < size && !(at.off <= j < at.off + |data|) ==>
          after[key][j] == if key in before && |before[key]| == size then before[key][j] else 0)
  }

  lemma OverlayIsInPlace(before: Image, after: Image, at: Place, data: seq<Byte>, block: seq<Byte>)
    requires at.off + |data| <= |block|
    requires var key := (at.item, at.slot);
      && after == before[key := Overlay(block, at.off, data)]
      && (if key in before then before[key] == block else Zeroed(block))
    ensures InPlace(before, after, at, data, |block|)
  {
  }

  /** Bytes that appear outside the positions written, those of the first okBytes of buf from pos on, are zero. */
  ghost predicate ZeroesBeside(before: Image, after: Image, q: nat, n: nat, pos: nat, buf: seq<Byte>, okBytes: nat)
    requires q > 0 && n > 0
  {
    forall p: nat ::
      !(pos <= p < pos + |buf| && p < pos + okBytes) && Cell(before, p, q, n).None? && Cell(after, p, q, n).Some? ==>
        Cell(after, p, q, n) == Some(0)
  }

  lemma ShowZeroes(before: Image, after: Image, q: nat, n: nat, pos: nat, buf: seq<Byte>, okBytes: nat,
                   data: seq<Byte>, block: seq<Byte>)
    requires q > 0 && n > 0 && |block| == q
    requires |data| == Min(ToQuantumEnd(pos, |buf|, q, n), okBytes)
    requires var at := PlaceOf(pos, q, n); var key := (at.item, at.slot);
      && at.off + |data| <= q && after == before[key := Overlay(block, at.off, data)]
      && (if key in before then before[key] == block else Zeroed(block))
    ensures ZeroesBeside(before, after, q, n, pos, buf, okBytes)
  {
    var at := PlaceOf(pos, q, n);
    forall p: nat |
      !(pos <= p < pos + |buf| && p < pos + okBytes) && Cell(before, p, q, n).None? && Cell(after, p, q, n).Some?
      ensures Cell(after, p, q, n) == Some(0)
    {
      if (at.item, at.slot) !in before {
        ZeroesAppear(before, pos, block, data, p, q, n);
      }
    }
  }

  class Device {
    var items: seq<Item>
    var qset: nat
    var size: nat
    var vmas: nat
    var mem: map<nat, seq<Byte>>

    ghost var home: map<nat, (nat, nat)>
    ghost var image: Image

    /** The quantum of the device. */
    ghost function Quantum(): (q: nat)
      requires items != []
      reads this
      ensures q >= PAGE_SIZE && (q == PAGE_SIZE <==> items[0].order == 0)
    {
      BlockSize(items[0].order)
    }

    ghost predicate Sized()
      reads this
    {
      && items != []
      && (forall i :: 0 <= i < |items| && items[i].data.Some? ==> |items[i].data.value| == qset)
      && (forall i :: 0 < i < |items| ==> items[i].order == 0)
    }

    ghost predicate Owned()
      reads this
    {
      OwnedBlocks(items, mem, home)
    }

    ghost predicate Stored()
      reads this
    {
      StoredBytes(items, mem, home, image)
    }

    ghost predicate Reaching()
      reads this
    {
      items != [] && size <= |items| * (BlockSize(items[0].order) * qset)
    }

    /** The list and its blocks, whatever the qset. */
    ghost predicate Intact()
      reads this
    {
      Sized() && Owned() && Stored() && Reaching()
    }

    ghost predicate Valid()
      reads this
    {
      qset > 0 && Intact()
    }

    ghost function State(): List
      requires items != []
      reads this
    {
      Layout(items, qset, size, vmas)
    }

    constructor (order: nat, qset: nat)
      ensures Intact() && (Valid() <==> qset > 0) && State() == NewList(order, qset) && mem == map[] && image == map[]
    {
      items, this.qset, size, vmas := [Item(order, None)], qset, 0, 0;
      mem, home, image := map[], map[], map[];
    }

    /** scullp_follow: appends empty items while the list is too short; its allocation is not checked. */
    method Follow(n: nat)
      requires Valid()
      modifies this`items
      ensures Valid() && items == Extended(old(items), n)
    {
      ghost var before := items;
      var dev: nat, left: nat := 0, n;
      while left > 0
        invariant left + dev == n && Valid() && items == Extended(before, dev)
      {
        ExtendedStep(before, dev);
        left, dev := left - 1, dev + 1;
        if dev == |items| {
          Append();
        }
      }
      assert dev == n;
    }

    method Append()
      requires Valid()
      modifies this`items
      ensures Valid() && items == old(items) + [NEW_ITEM]
    {
      var more := items + [NEW_ITEM];
      assert forall i: nat, s: nat :: SlotOf(more, i, s) == SlotOf(items, i, s);
      MoreFactor(|items|, |more|, BlockSize(items[0].order) * qset);
      items := more;
    }

    /** The part of scullp_read after scullp_follow. */
    method Peek(at: Place, n: nat, copyOk: bool) returns (out: Outcome, bytes: seq<Byte>)
      requires Valid() && at.item < |items| && InRange(at, BlockSize(items[0].order), qset)
      ensures out.Overrun? <==> Overruns(image, at, n, BlockSize(items[0].order))
      ensures out.Done? ==> IsFound(image, at, n, BlockSize(items[0].order), out.r, bytes)
      ensures out.Done? && out.r.Error? ==> n > 0 && !copyOk
    {
      out, bytes := Done(Ok(0)), [];
      var block := SlotOf(items, at.item, at.slot);
      if block.Some? {
        var room := BlockSize(items[0].order) - at.off;
        var k := if n > room then room else n;
        var page := mem[block.value];
        assert image[(at.item, at.slot)] == page;
        if at.off + k > |page| {
          out := Overrun;
        } else if !copyOk && k > 0 {
          out := Done(Error(EFAULT));
        } else {
          out, bytes := Done(Ok(k)), page[at.off..at.off + k];
        }
      }
    }

    /** scullp_read.  At the very end of the data it looks one position too far, which may lengthen the list. */
    method Read(pos: nat, count: nat, copyOk: bool) returns (out: Outcome, bytes: seq<Byte>)
      requires Valid()
      modifies this`items
      ensures Valid()
      ensures State() == AfterRead(old(State()), pos)
      ensures pos > size ==> out == Done(Ok(0)) && bytes == []
      ensures pos <= size ==> var at := PlaceOf(pos, Quantum(), qset); var n := Min(count, size - pos);
        if out.Done? then IsFound(image, at, n, Quantum(), out.r, bytes) else Overruns(image, at, n, Quantum())
      ensures items[0].order == 0 ==> out.Done? && ReadsRight(image, size, PAGE_SIZE, qset, pos, count, out.r, bytes)
      ensures out.Done? && out.r.Error? ==> !copyOk
    {
      hide IsFound, ReadsRight, Overruns, WellSized, Cell, Extended, OwnedBlocks, StoredBytes;
      out, bytes := Done(Ok(0)), [];
      if pos > size {
        PastEndIsRight(image, size, PAGE_SIZE, qset, pos, count);
        return;
      }
      var quantum, n := BlockSize(items[0].order), if pos + count > size then size - pos else count;
      var at := PlaceOf(pos, quantum, qset);
      PlaceInRange(pos, quantum, qset);
      Follow(at.item);
      out, bytes := Peek(at, n, copyOk);
      if items[0].order == 0 {
        PageSized();
        PagesFit(image, at, n, quantum, qset);
        if pos < size {
          FoundIsRight(image, size, quantum, qset, pos, count, n, out.r, bytes);
        } else {
          EndIsRight(image, at, quantum, qset, pos, count, out.r, bytes);
        }
      }
    }

    /** A read lengthens the list exactly when it starts at the very end of data that fills the list. */
    lemma ReadLengthens(pos: nat)
      requires Valid()
      ensures AfterRead(State(), pos).items != items <==> pos == size == |items| * (Quantum() * qset)
    {
      WithinList(pos, |items|, Quantum(), qset);
    }

    /** Without higher orders every block is one page. */
    lemma PageSized()
      requires Valid() && items[0].order == 0
      ensures WellSized(image, PAGE_SIZE, qset)
    {
      forall k | k in image
        ensures k.1 < qset && |image[k]| == PAGE_SIZE
      {
        assert SlotOf(items, k.0, k.1).Some?;
      }
    }

    // ----- Writing -----

    /** The first half of scullp_write's allocation: the item's pointer array. */
    method NeedArray(i: nat, memory: bool) returns (ok: bool)
      requires Valid() && i < |items|
      modifies this`items
      ensures Valid() && (memory ==> ok)
      ensures items == if ok then WithArray(old(items), i, qset) else old(items)
    {
      ok := items[i].data.Some?;
      if !ok {
        var granted: bool := *;
        ok := granted || memory;
        if ok {
          var more := WithArray(items, i, qset);
          assert forall j: nat, s: nat :: SlotOf(more, j, s) == SlotOf(items, j, s);
          items := more;
        }
      }
    }

    /** A zeroed block enters an empty slot. */
    method Adopt(i: nat, s: nat, page: nat)
      requires Valid() && i < |items| && items[i].data.Some? && s < qset && page !in mem && SlotOf(items, i, s).None?
      modifies this`items, this`mem, this`home, this`image
      ensures Valid() && items == old(WithBlock(items, i, s, page))
      ensures page in mem && Zeroed(mem[page])
      ensures image == old(image)[(i, s) := mem[page]] && home == old(home)[page := (i, s)]
    {
      var bytes := seq(BlockSize(items[i].order), _ => 0);
      var more := WithBlock(items, i, s, page);
      AdoptOne(items, mem, home, image, i, s, page, bytes);
      items, mem, home, image := more, mem[page := bytes], home[page := (i, s)], image[(i, s) := bytes];
    }

    /** The second half: a zeroed block from the page allocator, which picks one that is not in use. */
    method NeedBlock(i: nat, s: nat, page: nat, memory: bool) returns (block: Option<nat>)
      requires Valid() && i < |items| && items[i].data.Some? && s < qset && page !in mem
      modifies this`items, this`mem, this`home, this`image
      ensures Valid() && (memory ==> block.Some?) && block == SlotOf(items, i, s)
      ensures items == if block.Some? then WithSlot(old(items), i, s, page) else old(items)
      ensures block.None? || (i, s) in old(image) ==> image == old(image) && home == old(home)
      ensures block.Some? && (i, s) !in old(image) ==>
        image == old(image)[(i, s) := mem[block.value]] && home == old(home)[page := (i, s)] && Zeroed(mem[block.value])
    {
      block := items[i].data.value[s];
      if block.None? {
        var granted: bool := *;
        if granted || memory {
          block := Some(page);
          Adopt(i, s, page);
        }
      }
    }

    /** copy_from_user of data to offset off of a block. */
    method Fill(block: nat, off: nat, data: seq<Byte>)
      requires Valid() && block in mem && off + |data| <= |mem[block]|
      modifies this`mem, this`image
      ensures Valid()
      ensures image == old(image)[home[block] := Overlay(old(image)[home[block]], off, data)]
    {
      assert SlotOf(items, home[block].0, home[block].1) == Some(block);
      assert image[home[block]] == mem[block];
      mem := mem[block := Overlay(mem[block], off, data)];
      image := image[home[block] := mem[block]];
    }

    /** Follow and both allocations: the block at a place of the device. */
    method Reach(at: Place, page: nat, memory: bool) returns (block: Option<nat>, ghost got: Progress)
      requires Valid() && at.slot < qset && page !in mem
      modifies this`items, this`mem, this`home, this`image
      ensures Valid() && (memory ==> block.Some?) && (got.AllThere? <==> block.Some?)
      ensures items == Reached(old(items), qset, at.item, at.slot, page, got)
      ensures items[0].order == old(items[0].order)
      ensures block.Some? ==> block == SlotOf(items, at.item, at.slot)
      ensures block.None? || (at.item, at.slot) in old(image) ==> image == old(image) && home == old(home)
      ensures block.Some? && (at.item, at.slot) !in old(image) ==>
        && image == old(image)[(at.item, at.slot) := mem[block.value]] && home == old(home)[page := (at.item, at.slot)]
        && Zeroed(mem[block.value])
    {
      hide Extended, OwnedBlocks, StoredBytes;
      block, got := None, ItemOnly;
      Follow(at.item);
      var ok := NeedArray(at.item, memory);
      if ok {
        block := NeedBlock(at.item, at.slot, page, memory);
        got := if block.Some? then AllThere else ArrayOnly;
      }
    }

    /** The end of scullp_write. */
    method Extent(end: nat)
      requires Valid() && end <= |items| * (BlockSize(items[0].order) * qset)
      modifies this`size
      ensures Valid() && size == if old(size) < end then end else old(size)
    {
      if size < end {
        size := end;
      }
    }

    lemma BlockAt(i: nat, s: nat)
      requires Valid() && SlotOf(items, i, s).Some?
      ensures var b := SlotOf(items, i, s).value;
        && i < |items| && b in mem && b in home && home[b] == (i, s)
        && |mem[b]| == BlockSize(items[i].order) && (i, s) in image && image[(i, s)] == mem[b]
    {
    }

    lemma NotInList(page: nat)
      requires Valid() && page !in mem
      ensures page !in home
    {
    }

    /** Reach, then copy data, unless count bytes do not fit the block. */
    method Put(at: Place, count: nat, data: seq<Byte>, page: nat, memory: bool)
      returns (reached: bool, fits: bool, ghost bytes: seq<Byte>, ghost got: Progress)
      requires Valid() && page !in mem && InRange(at, Quantum(), qset) && at.off + count <= Quantum() && |data| <= count
      modifies this`items, this`mem, this`home, this`image
      ensures Valid() && (memory ==> reached) && (got.AllThere? <==> reached)
      ensures items == Reached(old(items), qset, at.item, at.slot, page, got) && items[0].order == old(items[0].order)
      ensures forall b :: b in old(home) ==> b in home && home[b] == old(home)[b]
      ensures !reached ==> image == old(image)
      ensures reached ==> at.item < |items| && (fits <==> at.item == 0 || at.off + count <= PAGE_SIZE)
      ensures reached && fits ==> at.off + |data| <= |bytes| == BlockSize(items[at.item].order)
      ensures reached && fits && (at.item, at.slot) in old(image) ==> old(image)[(at.item, at.slot)] == bytes
      ensures reached && fits && (at.item, at.slot) !in old(image) ==> Zeroed(bytes)
      ensures reached && fits ==> image == old(image)[(at.item, at.slot) := Overlay(bytes, at.off, data)]
    {
      hide Overlay, Reached, OwnedBlocks, StoredBytes, Placed, SlotOf;
      NotInList(page);
      ghost var before, key, off := image, (at.item, at.slot), at.off;
      var block;
      block, got := Reach(at, page, memory);
      reached, fits, bytes := block.Some?, false, [];
      if reached {
        var b := block.value;
        ghost var mid := image;
        BlockAt(at.item, at.slot);
        bytes := mem[b];
        fits := at.off + count <= |mem[b]|;
        if fits {
          Fill(b, at.off, data);
          OneChange(before, mid, image, key, bytes, Overlay(bytes, off, data));
        }
      }
    }

    /** scullp_write; okBytes is how many bytes can be copied from the caller before the copy faults. */
    method Write(pos: nat, buf: seq<Byte>, page: nat, memory: bool, okBytes: nat)
      returns (out: Outcome, ghost got: Progress)
      requires Valid() && page !in mem
      modifies this`items, this`mem, this`home, this`image, this`size
      ensures Valid() && items[0].order == old(items[0].order)
      ensures State() == AfterWrite(old(State()), pos, page, got, StoredCount(out))
      ensures got.AllThere? <==> out != Done(Error(ENOMEM))
      ensures forall b :: b in old(home) ==> b in home && home[b] == old(home)[b]
      ensures out.Done? && out.r != Error(ENOMEM) ==>
        var q := Quantum(); var at := PlaceOf(pos, q, qset); var count := ToQuantumEnd(pos, |buf|, q, qset);
        && out.r == (if okBytes < count then Error(EFAULT) else Ok(count))
        && InPlace(old(image), image, at, Taken(pos, buf, okBytes, q, qset), if at.item == 0 then q else PAGE_SIZE)
      ensures items[0].order == 0 ==>
        out.Done? && WritesRight(old(image), image, old(size), size, PAGE_SIZE, qset, pos, buf, okBytes, out.r)
      ensures items[0].order == 0 ==> ZeroesBeside(old(image), image, PAGE_SIZE, qset, pos, buf, okBytes)
      ensures memory ==> out != Done(Error(ENOMEM)) && (out.Overrun? <==> TooLong(Quantum(), qset, pos, |buf|))
    {
      hide InPlace, Overlay, Cell, Reached, OwnedBlocks, StoredBytes;
      var q, n := BlockSize(items[0].order), qset;
      ghost var before := image;
      var at := PlaceOf(pos, q, n);
      PlaceInRange(pos, q, n);
      var count := ToQuantumEnd(pos, |buf|, q, n);
      var k := if okBytes < count then okBytes else count;
      var data := buf[..k];
      var reached, fits;
      ghost var bytes;
      reached, fits, bytes, got := Put(at, count, data, page, memory);
      if !reached {
        out := Done(Error(ENOMEM));
        return;
      }
      if !fits {
        out := Overrun;
        return;
      }
      OverlayIsInPlace(before, image, at, data, bytes);
      if items[0].order == 0 {
        OverlayIsRight(before, image, [], size, q, n, pos, buf, okBytes, bytes);
        ShowZeroes(before, image, q, n, pos, buf, okBytes, data, bytes);
      }
      if k < count {
        out := Done(Error(EFAULT));
        return;
      }
      var end := pos + count;
      StretchWithinList(pos, count, |items|, q, n);
      Extent(end);
      out := Done(Ok(count));
    }

    // ----- Emptying -----

    /** free_pages; freeing a block that is not live would be a double free. */
    method FreePages(block: nat)
      requires block in mem
      modifies this`mem
      ensures mem == old(mem) - {block}
    {
      mem := mem - {block};
    }

    /** The blocks still to be freed when scull_trim is at slot s of item i. */
    static ghost function Left(home: map<nat, (nat, nat)>, i: nat, s: nat): set<nat> {
      set b | b in home && (home[b].0 > i || (home[b].0 == i && home[b].1 >= s))
    }

    /** The blocks of one item are freed, each once. */
    method FreeItem(i: nat)
      requires i < |items| && Placed(items, home) && mem.Keys == Left(home, i, 0)
      requires items[i].data.Some? ==> |items[i].data.value| == qset
      modifies this`mem
      ensures mem.Keys == Left(home, i + 1, 0)
    {
      if items[i].data.None? {
        assert forall b :: b in home ==> home[b].0 != i;
        return;
      }
      var s: nat := 0;
      while s < qset
        invariant s <= qset && mem.Keys == Left(home, i, s)
      {
        var block := items[i].data.value[s];
        assert block == SlotOf(items, i, s);
        if block.Some? {
          FreePages(block.value);
        }
        s := s + 1;
      }
      assert forall b :: b in home && home[b].0 == i ==> home[b].1 < qset;
    }

    method FreeAll()
      requires Sized() && Owned()
      modifies this`mem
      ensures mem == map[]
    {
      var i: nat := 0;
      while i < |items|
        invariant i <= |items| && mem.Keys == Left(home, i, 0)
      {
        FreeItem(i);
        i := i + 1;
      }
      assert forall b :: b in home ==> home[b].0 < |items|;
    }

    /**
     scullp_trim: refused while the device is mapped; otherwise every block is freed exactly once,
     and the device takes the present global order and qset.  A qset of 0 is adopted as well; such a
     device divides by 0 in its next write, or read at position 0, and can still be mapped and emptied again.
     */
    method Trim(newOrder: nat, newQset: nat) returns (r: Result<nat>)
      requires Intact()
      modifies this
      ensures Intact() && vmas == old(vmas)
      ensures r.Ok? ==> (Valid() <==> newQset > 0)
      ensures r == if vmas > 0 then Error(EBUSY) else Ok(0)
      ensures r.Error? ==> unchanged(this)
      ensures State() == AfterTrim(old(State()), newOrder, newQset)
      ensures r.Ok? ==> mem == map[] && image == map[]
      ensures r.Ok? ==> items == [Item(newOrder, None)] && qset == newQset && size == 0
    {
      if vmas > 0 {
        return Error(EBUSY);
      }
      FreeAll();
      size, qset, items := 0, newQset, [Item(newOrder, None)];
      home, image := map[], map[];
      r := Ok(0);
    }

    // ----- Mapping -----

    /** scullp_vma_nopage: the block behind an offset, found by counting items down. */
    method NoPage(offset: nat) returns (page: Option<nat>)
      requires Intact()
      ensures page == PageAt(State(), offset) && (page.Some? ==> page.value in mem)
    {
      if offset >= size {
        return None;
      }
      assert qset > 0;
      var left, ptr: nat := offset / PAGE_SIZE, 0;
      while ptr < |items| && left >= qset
        invariant ptr <= |items| && left >= 0 && offset / PAGE_SIZE == ptr * qset + left
      {
        Distribute(ptr, 1, qset);
        left, ptr := left - qset, ptr + 1;
      }
      SubtractionsDivide(offset / PAGE_SIZE, qset, ptr, left);
      page := if ptr < |items| && items[ptr].data.Some? then items[ptr].data.value[left] else None;
    }

    /** The page a fault maps is the one read copies from at that offset, missing only past the end and in holes. */
    lemma FaultAgreesWithRead(offset: nat)
      requires Valid() && items[0].order == 0
      ensures var page := PageAt(State(), offset);
        && (page.Some? <==> offset < size && Cell(image, offset, PAGE_SIZE, qset).Some?)
        && (page.Some? ==> page.value in mem && |mem[page.value]| == PAGE_SIZE)
        && (page.Some? ==> Cell(image, offset, PAGE_SIZE, qset) == Some(mem[page.value][offset % PAGE_SIZE]))
    {
      PageSized();
      PlaceByQuanta(offset, PAGE_SIZE, qset);
      HoleOrQuantum(image, offset, PAGE_SIZE, qset);
    }

    /** scullp_vma_open */
    method VmaOpen()
      requires Intact()
      modifies this`vmas
      ensures Intact() && State() == AfterVmaOpen(old(State())) && vmas == old(vmas) + 1
    {
      vmas := vmas + 1;
    }

    /** scullp_vma_close, for a mapping that was opened. */
    method VmaClose()
      requires Intact() && vmas > 0
      modifies this`vmas
      ensures Intact() && State() == AfterVmaClose(old(State())) && vmas == old(vmas) - 1
    {
      vmas := vmas - 1;
    }

    /** scullp_mmap */
    method Mmap() returns (r: Result<nat>)
      requires Intact()
      modifies this`vmas
      ensures Intact()
      ensures r == if Order(old(State())) == 0 then Ok(0) else Error(ENODEV)
      ensures State() == if r.Ok? then AfterVmaOpen(old(State())) else old(State())
      ensures vmas == if r.Ok? then old(vmas) + 1 else old(vmas)
    {
      if items[0].order != 0 {
        return Error(ENODEV);
      }
      VmaOpen();
      r := Ok(0);
    }
  }

  /**
   A write that does not fit: quanta of more than a page have room for their bytes only in the first
   list item, because scullp_follow leaves the order of the items it appends at 0.
   */
  predicate TooLong(q: nat, qset: nat, pos: nat, count: nat)
    requires q > 0 && qset > 0
  {
    var at := PlaceOf(pos, q, qset);
    at.item > 0 && at.off + ToQuantumEnd(pos, count, q, qset) > PAGE_SIZE
  }

  lemma PastFirstItem(order: nat, qset: nat)
    requires order > 0 && qset > 0
    ensures TooLong(BlockSize(order), qset, BlockSize(order) * qset, BlockSize(order))
  {
    PlaceIsUnique(Place(1, 0, 0), BlockSize(order), qset);
  }

  /** Some write to the device does not fit its block. */
  ghost predicate CanOverrun(q: nat, qset: nat)
    requires q > 0 && qset > 0
  {
    exists pos, count :: TooLong(q, qset, pos, count)
  }

  /** Those are exactly the devices of an order above 0. */
  lemma OverrunIffHigherOrder(order: nat, qset: nat)
    requires qset > 0
    ensures CanOverrun(BlockSize(order), qset) <==> order > 0
  {
    var q := BlockSize(order);
    if order > 0 {
      PastFirstItem(order, qset);
      var pos := q * qset;
      assert TooLong(q, qset, pos, q);
    } else {
      forall pos: nat, count: nat
        ensures !TooLong(q, qset, pos, count)
      {
        PlaceInRange(pos, q, qset);
      }
    }
  }

  /** A fresh device of a higher order that is given a quantum for its second item. */
  method OverrunFresh(order: nat, qset: nat, buf: seq<Byte>, page: nat) returns (out: Outcome)
    requires order > 0 && qset > 0 && |buf| == BlockSize(order)
    ensures out == Overrun
  {
    var pos := BlockSize(order) * qset;
    PastFirstItem(order, qset);
    var device := new Device(order, qset);
    ghost var got;
    out, got := device.Write(pos, buf, page, true, |buf|);
  }

  lemma LastQuantum(q: nat, qset: nat) returns (pos: nat, end: nat)
    requires q > 0 && qset > 0
    ensures end == pos + q && pos == q * (qset - 1)
    ensures PlaceOf(pos, q, qset) == Place(0, qset - 1, 0) && PlaceOf(end, q, qset) == Place(1, 0, 0)
    ensures ToQuantumEnd(pos, q, q, qset) == q && !TooLong(q, qset, pos, q)
  {
    var last, next := Place(0, qset - 1, 0), Place(1, 0, 0);
    PlaceIsUnique(last, q, qset);
    PlaceIsUnique(next, q, qset);
    pos, end := q * (qset - 1), q * qset;
    assert pos == PositionOf(last, q, qset) && end == PositionOf(next, q, qset);
  }

  /** One item, filled to its end; looking there appends another one. */
  lemma FilledItem(order: nat, qset: nat, page: nat, pos: nat, end: nat)
    requires qset > 0 && end == pos + BlockSize(order)
    requires PlaceOf(pos, BlockSize(order), qset) == Place(0, qset - 1, 0)
    requires PlaceOf(end, BlockSize(order), qset) == Place(1, 0, 0)
    ensures var full := AfterWrite(NewList(order, qset), pos, page, AllThere, Some(BlockSize(order)));
      |full.items| == 1 && |AfterRead(full, end).items| == 2
  {
    hide PlaceOf;
  }

  /** A fresh device whose last slot of the first item is filled: reading at the end of its data appends an item. */
  method ReadAppends(order: nat, qset: nat, buf: seq<Byte>, page: nat) returns (before: nat, after: nat)
    requires qset > 0 && |buf| == BlockSize(order)
    ensures before == 1 && after == 2
  {
    hide InPlace, IsFound, ReadsRight, WritesRight, ZeroesBeside, TooLong, PlaceOf, ToQuantumEnd, AfterRead, AfterWrite;
    var q := BlockSize(order);
    var pos := q * (qset - 1);
    ghost var start, end := LastQuantum(q, qset);
    FilledItem(order, qset, page, pos, end);
    var device := new Device(order, qset);
    var out, got := device.Write(pos, buf, page, true, q);
    before := |device.items|;
    var read, bytes := device.Read(pos + q, 0, true);
    after := |device.items|;
  }
}
