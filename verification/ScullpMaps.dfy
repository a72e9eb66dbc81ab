/**
 Mappings of a scullp device over whole runs (scullp/mmap.c with scullp_read, scullp_write, scullp_trim
 and scullp_open): any number of processes read, write, map, fork, fault, unmap and reopen the device in
 any order, and each call does to the device's list what ScullpDevice proves of it.  scullp_mmap looks
 at the order and counts the mapping in two steps, because it does not take the mutex.
 */
module ScullpMaps {
  import opened Common
  import opened ScullGeometry
  import opened ScullpDevice

  /** A live mapping: the geometry when it was counted, and the page handed out for each page number. */
  datatype Mapping = Mapping(order: nat, qset: nat, pages: map<nat, nat>)

  /** newOrder and newQset are the globals; checking are the processes between the two steps of scullp_mmap. */
  datatype State = State(dev: List, newOrder: nat, newQset: nat, maps: map<nat, Mapping>, checking: set<nat>)

  datatype Act =
    | Ioctl(order: nat, qset: nat)   // sets the globals scullp_order and scullp_qset
    | OpenWriteOnly                  // scullp_trim
    | Read(pos: nat)
    | Write(pos: nat, block: nat, got: Progress, stored: Option<nat>)
    | MmapCheck(pid: nat)
    | MmapCount(pid: nat, vma: nat)
    | VmaOpen(vma: nat, copy: nat)   // fork duplicates a mapping
    | VmaClose(vma: nat)
    | Fault(vma: nat, offset: nat)

  function Init(order: nat, qset: nat): State {
    State(NewList(order, qset), order, qset, map[], {})
  }

  /** A step whose call cannot happen in s leaves s as it is; a device with a qset of 0 cannot be read or written. */
  function Next(s: State, a: Act): State {
    match a
    case Ioctl(order, qset) => s.(newOrder := order, newQset := qset)
    case OpenWriteOnly => s.(dev := AfterTrim(s.dev, s.newOrder, s.newQset))
    case Read(pos) => if s.dev.qset == 0 then s else s.(dev := AfterRead(s.dev, pos))
    case Write(pos, block, got, stored) =>
      if s.dev.qset == 0 then s else s.(dev := AfterWrite(s.dev, pos, block, got, stored))
    case MmapCheck(pid) => if Order(s.dev) == 0 then s.(checking := s.checking + {pid}) else s
    case MmapCount(pid, vma) =>
      if pid in s.checking && vma !in s.maps then
        var m := Mapping(Order(s.dev), s.dev.qset, map[]);
        s.(checking := s.checking - {pid}, dev := AfterVmaOpen(s.dev), maps := s.maps[vma := m])
      else s
    case VmaOpen(vma, copy) =>
      if vma in s.maps && copy !in s.maps then
        s.(dev := AfterVmaOpen(s.dev), maps := s.maps[copy := s.maps[vma]])
      else s
    case VmaClose(vma) =>
      if vma in s.maps && s.dev.vmas > 0 then s.(dev := AfterVmaClose(s.dev), maps := s.maps - {vma}) else s
    case Fault(vma, offset) =>
      var page := PageAt(s.dev, offset);
      if vma in s.maps && page.Some? then
        var m := s.maps[vma];
        s.(maps := s.maps[vma := m.(pages := m.pages[offset / PAGE_SIZE := page.value])])
      else s
  }

  function Run(s: State, acts: seq<Act>): State
    decreases |acts|
  {
    if acts == [] then s else Run(Next(s, acts[0]), acts[1..])
  }

  // ----- Mappings pin the store -----

  /** Every page handed out is still the one that the device has for its page number. */
  predicate PagesStay(m: Mapping, l: List) {
    forall k :: k in m.pages ==> l.qset > 0 && SlotOf(l.items, k / l.qset, k % l.qset) == Some(m.pages[k])
  }

  /** The count is right, and every mapping still sees the geometry and the pages it was given. */
  ghost predicate Pinned(s: State) {
    && s.dev.vmas == |s.maps|
    && (forall v :: v in s.maps ==>
          s.maps[v].order == Order(s.dev) && s.maps[v].qset == s.dev.qset && PagesStay(s.maps[v], s.dev))
  }

  /** After a call on a mapped device: same geometry, no block has left its slot, no data is cut off. */
  ghost predicate Grows(l: List, r: List) {
    && Order(r) == Order(l) && r.qset == l.qset && r.size >= l.size
    && (forall i: nat, t: nat :: SlotOf(l.items, i, t).Some? ==> SlotOf(r.items, i, t) == SlotOf(l.items, i, t))
  }

  lemma GrowsChains(l: List, m: List, r: List)
    requires l == m == r || (Grows(l, m) && Grows(m, r))
    ensures Grows(l, r) && forall offset: nat :: PageAt(l, offset).Some? ==> PageAt(r, offset) == PageAt(l, offset)
  {
  }

  lemma ReachedKeepsSlots(items: seq<Item>, qset: nat, i: nat, s: nat, block: nat, got: Progress, j: nat, t: nat)
    requires SlotOf(items, j, t).Some?
    ensures SlotOf(Reached(items, qset, i, s, block, got), j, t) == SlotOf(items, j, t)
  {
  }

  lemma CallsGrow(s: State, a: Act)
    requires Pinned(s) && (s.maps == map[] ==> !a.OpenWriteOnly?)
    ensures Grows(s.dev, Next(s, a).dev)
  {
    match a
    case Write(pos, block, got, stored) =>
      if s.dev.qset == 0 {
        return;
      }
      var at := PlaceOf(pos, BlockSize(Order(s.dev)), s.dev.qset);
      forall j: nat, t: nat | SlotOf(s.dev.items, j, t).Some?
        ensures SlotOf(Next(s, a).dev.items, j, t) == SlotOf(s.dev.items, j, t)
      {
        ReachedKeepsSlots(s.dev.items, s.dev.qset, at.item, at.slot, block, got, j, t);
      }
    case OpenWriteOnly => MappedIsCounted(s.maps);
    case _ =>
  }

  lemma MappedIsCounted(maps: map<nat, Mapping>)
    ensures |maps| == 0 <==> maps == map[]
  {
  }

  lemma GrowsKeepsPages(l: List, r: List)
    requires Grows(l, r)
    ensures Order(r) == Order(l) && r.qset == l.qset
    ensures forall m: Mapping :: PagesStay(m, l) ==> PagesStay(m, r)
  {
  }

  lemma NoPagesYet(l: List)
    ensures PagesStay(Mapping(Order(l), l.qset, map[]), l)
  {
  }

  lemma FoundPageStays(m: Mapping, l: List, offset: nat)
    requires PagesStay(m, l) && PageAt(l, offset).Some?
    ensures PagesStay(m.(pages := m.pages[offset / PAGE_SIZE := PageAt(l, offset).value]), l)
  {
  }

  lemma CountOneLess(maps: map<nat, Mapping>, v: nat)
    ensures v in maps ==> |maps - {v}| == |maps| - 1
  {
    if v in maps {
      assert maps.Keys == (maps - {v}).Keys + {v};
      assert |maps.Keys| == |maps| && |(maps - {v}).Keys| == |maps - {v}|;
    }
  }

  lemma CountWith(maps: map<nat, Mapping>, v: nat, m: Mapping)
    ensures |maps[v := m]| == if v in maps then |maps| else |maps| + 1
  {
    assert maps[v := m].Keys == maps.Keys + {v};
    assert |maps.Keys| == |maps| && |maps[v := m].Keys| == |maps[v := m]|;
  }

  /** Only three steps change what is mapped. */
  lemma OthersKeepMaps(s: State, a: Act)
    requires !a.MmapCount? && !a.VmaOpen? && !a.VmaClose?
    ensures Next(s, a).dev.vmas == s.dev.vmas && |Next(s, a).maps| == |s.maps|
  {
    hide AfterRead, AfterWrite, PageAt;
    if a.Fault? && a.vma in s.maps && PageAt(s.dev, a.offset).Some? {
      CountWith(s.maps, a.vma, Next(s, a).maps[a.vma]);
    }
  }

  lemma StepKeepsCount(s: State, a: Act)
    requires s.dev.vmas == |s.maps|
    ensures Next(s, a).dev.vmas == |Next(s, a).maps|
  {
    hide AfterRead, AfterWrite, PageAt;
    match a
    case MmapCount(_, v) => CountWith(s.maps, v, Mapping(Order(s.dev), s.dev.qset, map[]));
    case VmaOpen(v, copy) =>
      if v in s.maps {
        CountWith(s.maps, copy, s.maps[v]);
      }
    case VmaClose(v) => CountOneLess(s.maps, v);
    case _ => OthersKeepMaps(s, a);
  }

  lemma StepKeepsPinned(s: State, a: Act)
    requires Pinned(s)
    ensures Pinned(Next(s, a))
  {
    hide Grows, PagesStay, PageAt, Reached, AfterRead, AfterWrite;
    StepKeepsCount(s, a);
    if s.maps != map[] || !a.OpenWriteOnly? {
      CallsGrow(s, a);
      GrowsKeepsPages(s.dev, Next(s, a).dev);
      match a
      case MmapCount(pid, vma) => NoPagesYet(s.dev);
      case Fault(vma, offset) =>
        if vma in s.maps && PageAt(s.dev, offset).Some? {
          FoundPageStays(s.maps[vma], s.dev, offset);
        }
      case _ =>
    }
  }

  lemma InitIsPinned(order: nat, qset: nat)
    ensures Pinned(Init(order, qset)) && SinglePages(Init(order, qset))
  {
  }

  /**
   Mappings pin the store: in every run, whatever is read, written, reset or opened for writing only,
   a page handed out through a live mapping stays in the slot of its page number, and the geometry
   stays what it was.
   */
  lemma {:induction false} MappingsPinTheStore(s: State, acts: seq<Act>)
    requires Pinned(s)
    ensures Pinned(Run(s, acts))
    decreases |acts|
  {
    if acts != [] {
      StepKeepsPinned(s, acts[0]);
      MappingsPinTheStore(Next(s, acts[0]), acts[1..]);
    }
  }

  /**
   From the first count of a mapping to its unmapping the geometry stays, no block leaves its slot, and
   an offset whose page a fault has found leads to the same page again.
   */
  lemma {:induction false} MappedDeviceKeepsItsPages(s: State, acts: seq<Act>, v: nat)
    requires Pinned(s) && v in s.maps && VmaClose(v) !in acts
    ensures var t := Run(s, acts);
      && v in t.maps && Grows(s.dev, t.dev)
      && forall offset: nat :: PageAt(s.dev, offset).Some? ==> PageAt(t.dev, offset) == PageAt(s.dev, offset)
    decreases |acts|
  {
    hide Pinned, Grows, PageAt;
    GrowsChains(s.dev, s.dev, s.dev);
    if acts != [] {
      var t := Next(s, acts[0]);
      StepKeepsPinned(s, acts[0]);
      CallsGrow(s, acts[0]);
      assert v in t.maps;
      MappedDeviceKeepsItsPages(t, acts[1..], v);
      GrowsChains(s.dev, t.dev, Run(t, acts[1..]).dev);
    }
  }

  // ----- What mapping is for -----

  lemma RunThree(s: State, a: Act, b: Act, c: Act)
    ensures Run(s, [a, b, c]) == Next(Next(Next(s, a), b), c)
  {
    var t, u := Next(s, a), Next(Next(s, a), b);
    assert [a, b, c][1..] == [b, c] && [b, c][1..] == [c] && [c][1..] == [];
    assert Run(s, [a, b, c]) == Run(t, [b, c]) == Run(u, [c]) == Run(Next(u, c), []);
  }

  /**
   A device of single pages can be mapped, and a page that has been written comes up behind its offset:
   the block that a write to pos has filled is the one a fault at pos maps.
   */
  lemma WrittenPageIsMapped(s: State, pos: nat, block: nat, count: nat, pid: nat, vma: nat)
    requires Order(s.dev) == 0 && s.dev.qset > 0 && vma !in s.maps && count > 0
    requires forall i :: 0 <= i < |s.dev.items| && s.dev.items[i].data.Some? ==>
      |s.dev.items[i].data.value| == s.dev.qset
    ensures var t := Next(s, Write(pos, block, AllThere, Some(count)));
      var u := Run(t, [MmapCheck(pid), MmapCount(pid, vma), Fault(vma, pos)]);
      var at := PlaceOf(pos, PAGE_SIZE, s.dev.qset); var before := SlotOf(s.dev.items, at.item, at.slot);
      && vma in u.maps && u.dev.vmas == t.dev.vmas + 1 && pos / PAGE_SIZE in u.maps[vma].pages
      && u.maps[vma].pages[pos / PAGE_SIZE] == if before.Some? then before.value else block
  {
    var qset := s.dev.qset;
    var at := PlaceOf(pos, PAGE_SIZE, qset);
    PlaceInRange(pos, PAGE_SIZE, qset);
    PlaceByQuanta(pos, PAGE_SIZE, qset);
    ReachedFills(s.dev.items, qset, at.item, at.slot, block);
    RunThree(Next(s, Write(pos, block, AllThere, Some(count))), MmapCheck(pid), MmapCount(pid, vma), Fault(vma, pos));
  }

  lemma ReachedFills(items: seq<Item>, qset: nat, i: nat, s: nat, block: nat)
    requires s < qset
    requires forall j :: 0 <= j < |items| && items[j].data.Some? ==> |items[j].data.value| == qset
    ensures var before := SlotOf(items, i, s);
      SlotOf(Reached(items, qset, i, s, block, AllThere), i, s) == Some(if before.Some? then before.value else block)
    ensures items != [] ==> Reached(items, qset, i, s, block, AllThere)[0].order == items[0].order
  {
  }

  /** A device that is mapped by a forked child as well stays mapped, with the same pages, when the parent unmaps it. */
  lemma ForkHoldsOn(s: State, vma: nat, copy: nat)
    requires Pinned(s) && vma in s.maps && copy !in s.maps
    ensures var t := Run(s, [VmaOpen(vma, copy), VmaClose(vma), OpenWriteOnly]);
      && t.dev == s.dev && t.maps == s.maps[copy := s.maps[vma]] - {vma} && t.maps[copy] == s.maps[vma]
  {
    assert s.dev.vmas > 0 by {
      MappedIsCounted(s.maps);
    }
    RunThree(s, VmaOpen(vma, copy), VmaClose(vma), OpenWriteOnly);
  }

  lemma {:induction false} ClosingAll(s: State) returns (acts: seq<Act>)
    requires Pinned(s)
    ensures Run(s, acts) == s.(maps := map[], dev := s.dev.(vmas := 0)) && forall a :: a in acts ==> a.VmaClose?
    decreases |s.maps|
  {
    acts := [];
    MappedIsCounted(s.maps);
    if s.maps != map[] {
      var v :| v in s.maps;
      StepKeepsPinned(s, VmaClose(v));
      CountOneLess(s.maps, v);
      var rest := ClosingAll(Next(s, VmaClose(v)));
      acts := [VmaClose(v)] + rest;
      assert acts[1..] == rest;
    }
  }

  /** Once everybody has unmapped it, a write-only open empties a device, which takes what the globals say by then. */
  lemma UnmappedIsEmptied(s: State, order: nat, qset: nat) returns (acts: seq<Act>)
    requires Pinned(s)
    ensures (forall a :: a in acts ==> a.VmaClose?) && Run(s, acts).maps == map[]
    ensures Next(Run(s, acts), OpenWriteOnly).dev == NewList(s.newOrder, s.newQset)
    ensures Next(Next(Run(s, acts), Ioctl(order, qset)), OpenWriteOnly).dev == Layout([Item(order, None)], qset, 0, 0)
    ensures s.maps != map[] ==> Next(s, OpenWriteOnly) == s
  {
    MappedIsCounted(s.maps);
    acts := ClosingAll(s);
  }

  /** In runs, too, a read at the end of data that fills the list appends an item. */
  lemma RunReadAppends(order: nat, qset: nat, block: nat) returns (pos: nat, end: nat)
    requires qset > 0
    ensures end == pos + BlockSize(order)
    ensures var t := Next(Init(order, qset), Write(pos, block, AllThere, Some(BlockSize(order))));
      |t.dev.items| == 1 && t.dev.size == end && |Next(t, Read(end)).dev.items| == 2
  {
    hide PlaceOf;
    pos, end := LastQuantum(BlockSize(order), qset);
    FilledItem(order, qset, block, pos, end);
  }

  // ----- Mapped devices have single pages -----

  /** What scullp_mmap wants: while there are mappings, blocks are single pages. */
  predicate SinglePages(s: State) {
    s.dev.vmas > 0 ==> Order(s.dev) == 0
  }

  ghost predicate AlwaysSinglePages(s: State, acts: seq<Act>)
    decreases |acts|
  {
    SinglePages(s) && (acts != [] ==> AlwaysSinglePages(Next(s, acts[0]), acts[1..]))
  }

  /** The act counts a mapping although the order is no longer what was looked at. */
  predicate StaleCount(s: State, a: Act) {
    a.MmapCount? && a.pid in s.checking && a.vma !in s.maps && Order(s.dev) != 0
  }

  ghost predicate CountsAreFresh(s: State, acts: seq<Act>)
    decreases |acts|
  {
    acts != [] ==> !StaleCount(s, acts[0]) && CountsAreFresh(Next(s, acts[0]), acts[1..])
  }

  /** A run keeps mapped devices at single pages exactly when no mapping is counted on a stale look at the order. */
  lemma {:induction false} SinglePagesIffFresh(s: State, acts: seq<Act>)
    requires Pinned(s) && SinglePages(s)
    ensures AlwaysSinglePages(s, acts) <==> CountsAreFresh(s, acts)
    decreases |acts|
  {
    if acts != [] {
      StepKeepsPinned(s, acts[0]);
      if !StaleCount(s, acts[0]) {
        StepKeepsSinglePages(s, acts[0]);
        SinglePagesIffFresh(Next(s, acts[0]), acts[1..]);
      }
    }
  }

  lemma StepKeepsSinglePages(s: State, a: Act)
    requires Pinned(s) && SinglePages(s)
    ensures SinglePages(Next(s, a)) <==> !StaleCount(s, a)
  {
    match a
    case VmaOpen(vma, copy) =>
      if vma in s.maps {
        assert s.maps.Keys != {};
      }
    case _ =>
  }

  /** So the guarantee holds when the two steps of scullp_mmap follow each other directly. */
  lemma AtomicMmapIsFresh(s: State, pid: nat, vma: nat)
    requires Pinned(s) && SinglePages(s) && pid !in s.checking
    ensures SinglePages(Run(s, [MmapCheck(pid), MmapCount(pid, vma)]))
  {
    var t := Next(s, MmapCheck(pid));
    StepKeepsPinned(s, MmapCheck(pid));
    StepKeepsSinglePages(s, MmapCheck(pid));
    StepKeepsSinglePages(t, MmapCount(pid, vma));
    var acts := [MmapCheck(pid), MmapCount(pid, vma)];
    assert acts[1..] == [MmapCount(pid, vma)] && acts[1..][1..] == [];
    assert Run(t, acts[1..]) == Next(t, MmapCount(pid, vma));
  }

  /** It fails as written: a write-only open between the two steps lets a device with blocks of any order be mapped. */
  lemma TrimBetweenTheSteps(order: nat, qset: nat)
    ensures var s := Run(Init(0, qset), [Ioctl(order, qset), MmapCheck(1), OpenWriteOnly, MmapCount(1, 7)]);
      s.dev.vmas == 1 && Order(s.dev) == order
  {
    var acts := [Ioctl(order, qset), MmapCheck(1), OpenWriteOnly, MmapCount(1, 7)];
    var looked := Next(Next(Init(0, qset), acts[0]), acts[1]);
    var trimmed := Next(looked, acts[2]);
    assert Order(trimmed.dev) == order && trimmed.checking == {1} && trimmed.maps == map[];
    assert acts[1..][1..] == acts[2..] && acts[2..][1..] == acts[3..] && acts[3..][1..] == [];
    assert Run(Init(0, qset), acts) == Run(looked, acts[2..]) == Run(trimmed, acts[3..]);
    assert Run(trimmed, acts[3..]) == Next(trimmed, acts[3]);
  }
}
