/** The bare scull device of scull/main.c: a linked list of pointer arrays of quanta. */
module ScullStore {
  import opened Common
  import opened ScullGeometry
  import opened ScullImage

  /** struct scull_qset */
  class Item {
    var data: array?<array?<Byte>>
    var next: Item?
  }

  /** kmalloc and kfree, with the blocks that have been handed out and not yet freed. */
  class BlockPools {
    ghost var items: set<Item>
    ghost var arrays: set<array<array?<Byte>>>
    ghost var quanta: set<array<Byte>>

    constructor ()
      ensures items == {} && arrays == {} && quanta == {}
    {
      items, arrays, quanta := {}, {}, {};
    }

    /** kmalloc may fail at any time, unless memory says that it does not. */
    method Granted(memory: bool) returns (granted: bool)
      ensures memory ==> granted
    {
      granted := *;
      granted := granted || memory;
    }

    /** A zeroed list item. */
    method NewItem(memory: bool) returns (p: Item?)
      modifies this`items
      ensures memory ==> p != null
      ensures p == null ==> items == old(items)
      ensures p != null ==> fresh(p) && p.data == null && p.next == null && items == old(items) + {p}
    {
      var granted := Granted(memory);
      if !granted {
        return null;
      }
      p := new Item;
      p.data, p.next := null, null;
      items := items + {p};
    }

    /** A zeroed pointer array. */
    method NewArray(qset: nat, memory: bool) returns (p: array?<array?<Byte>>)
      modifies this`arrays
      ensures memory ==> p != null
      ensures p == null ==> arrays == old(arrays)
      ensures p != null ==> fresh(p) && p.Length == qset && arrays == old(arrays) + {p}
      ensures p != null ==> forall s :: 0 <= s < qset ==> p[s] == null
    {
      var granted := Granted(memory);
      if !granted {
        return null;
      }
      p := new array?<Byte>[qset](_ => null);
      arrays := arrays + {p};
    }

    /** A quantum; its bytes are whatever was there. */
    method NewQuantum(quantum: nat, memory: bool) returns (p: array?<Byte>)
      modifies this`quanta
      ensures memory ==> p != null
      ensures p == null ==> quanta == old(quanta)
      ensures p != null ==> fresh(p) && p.Length == quantum && quanta == old(quanta) + {p}
    {
      var granted := Granted(memory);
      if !granted {
        return null;
      }
      p := new Byte[quantum];
      quanta := quanta + {p};
    }

    /** Freeing a block that is not live would be a double free. */
    method FreeItem(p: Item)
      requires p in items
      modifies this`items
      ensures items == old(items) - {p}
    {
      items := items - {p};
    }

    method FreeArray(p: array<array?<Byte>>)
      requires p in arrays
      modifies this`arrays
      ensures arrays == old(arrays) - {p}
    {
      arrays := arrays - {p};
    }

    /** kfree(NULL) does nothing. */
    method FreeQuantum(p: array?<Byte>)
      requires p != null ==> p in quanta
      modifies this`quanta
      ensures quanta == if p == null then old(quanta) else old(quanta) - {p}
    {
      if p != null {
        quanta := quanta - {p};
      }
    }
  }

  const SCULL_QUANTUM: nat := 4000
  const SCULL_QSET: nat := 1000

  datatype Parameter = QuantumSize | ArraySize

  /** The geometry commands of scull_ioctl; Set, Get and Exchange work through a user pointer. */
  datatype Command =
    | Reset
    | Set(p: Parameter)
    | Tell(p: Parameter, value: nat)
    | Get(p: Parameter)
    | Query(p: Parameter)
    | Exchange(p: Parameter)
    | Shift(p: Parameter, value: nat)

  predicate ByPointer(cmd: Command) {
    cmd.Set? || cmd.Get? || cmd.Exchange?
  }

  /** These want CAP_SYS_ADMIN. */
  predicate Privileged(cmd: Command) {
    cmd.Set? || cmd.Tell? || cmd.Exchange? || cmd.Shift?
  }

  /**
   The integer a caller's pointer leads to: whether access_ok admits the pointer, the value there,
   whether it can be read and written, and what __get_user leaves in its target when it cannot read.
   */
  datatype UserInt = UserInt(valid: bool, value: nat, readOk: bool, left: nat, writeOk: bool)

  /** What a privileged command that is not turned away leaves in its global. */
  function Assigned(cmd: Command, user: UserInt): nat
    requires Privileged(cmd)
  {
    if cmd.Tell? || cmd.Shift? then cmd.value else if user.readOk then user.value else user.left
  }

  /** The commands that are turned away before they touch anything, and the error. */
  function Refusal(cmd: Command, user: UserInt, capable: bool): Option<Errno> {
    if ByPointer(cmd) && !user.valid then Some(EFAULT)
    else if Privileged(cmd) && !capable then Some(EPERM)
    else None
  }

  /** The globals scull_quantum and scull_qset, which devices copy when they are emptied. */
  class Defaults {
    var quantum: nat
    var qset: nat

    constructor (quantum: nat, qset: nat)
      ensures this.quantum == quantum && this.qset == qset
    {
      this.quantum, this.qset := quantum, qset;
    }

    function Of(p: Parameter): nat
      reads this
    {
      if p.QuantumSize? then quantum else qset
    }

    /**
     The geometry part of scull_ioctl, which touches the globals only: no device is in its frame.  put
     is what it stores through the pointer.  Set and Exchange read straight into the global, so a
     read that fails changes it, and an Exchange that cannot store the old value has set the new one.
     */
    method Ioctl(cmd: Command, user: UserInt, capable: bool) returns (r: Result<nat>, put: Option<nat>)
      modifies this
      ensures var refused := Refusal(cmd, user, capable);
        if refused.Some? then r == Error(refused.value) && quantum == old(quantum) && qset == old(qset)
        else if ((cmd.Set? || cmd.Exchange?) && !user.readOk) || ((cmd.Get? || cmd.Exchange?) && !user.writeOk) then
          r == Error(EFAULT)
        else r == Ok(if cmd.Query? || cmd.Shift? then old(Of(cmd.p)) else 0)
      ensures put == if r.Ok? && (cmd.Get? || cmd.Exchange?) then Some(old(Of(cmd.p))) else None
      ensures Refusal(cmd, user, capable).None? && cmd.Reset? ==> quantum == SCULL_QUANTUM && qset == SCULL_QSET
      ensures Refusal(cmd, user, capable).None? && !cmd.Reset? ==> forall p ::
        Of(p) == if Privileged(cmd) && p == cmd.p then Assigned(cmd, user) else old(Of(p))
      ensures !capable && !cmd.Reset? ==> quantum == old(quantum) && qset == old(qset)
      ensures !capable && (cmd.Set? || cmd.Tell? || cmd.Exchange? || cmd.Shift?) ==> r.Error?
      ensures (cmd.Set? || cmd.Get? || cmd.Exchange?) && !user.valid ==>
        r == Error(EFAULT) && quantum == old(quantum) && qset == old(qset)
      ensures r == Error(EPERM) ==> !capable && quantum == old(quantum) && qset == old(qset)
    {
      put := None;
      if ByPointer(cmd) && !user.valid {
        return Error(EFAULT), None;
      }
      if Privileged(cmd) && !capable {
        return Error(EPERM), None;
      }
      r := Ok(0);
      match cmd {
        case Reset =>
          quantum, qset := SCULL_QUANTUM, SCULL_QSET;
        case Set(p) =>
          r := GetUser(p, user);
        case Tell(p, value) =>
          Put(p, value);
        case Get(p) =>
          r, put := PutUser(Of(p), user);
        case Query(p) =>
          r := Ok(Of(p));
        case Exchange(p) =>
          var tmp := Of(p);
          r := GetUser(p, user);
          if r.Ok? {
            r, put := PutUser(tmp, user);
          }
        case Shift(p, value) =>
          r := Ok(Of(p));
          Put(p, value);
      }
    }

    /** __get_user into one of the globals. */
    method GetUser(p: Parameter, user: UserInt) returns (r: Result<nat>)
      modifies this
      ensures r == if user.readOk then Ok(0) else Error(EFAULT)
      ensures Of(p) == (if user.readOk then user.value else user.left) && forall o :: o != p ==> Of(o) == old(Of(o))
    {
      Put(p, if user.readOk then user.value else user.left);
      r := if user.readOk then Ok(0) else Error(EFAULT);
    }

    /** __put_user */
    method PutUser(value: nat, user: UserInt) returns (r: Result<nat>, put: Option<nat>)
      ensures if user.writeOk then r == Ok(0) && put == Some(value) else r == Error(EFAULT) && put == None
    {
      if user.writeOk {
        return Ok(0), Some(value);
      }
      return Error(EFAULT), None;
    }

    method Put(p: Parameter, value: nat)
      modifies this
      ensures Of(p) == value && forall o :: o != p ==> Of(o) == old(Of(o))
    {
      if p.QuantumSize? {
        quantum := value;
      } else {
        qset := value;
      }
    }
  }

  class Device {
    const slab: BlockPools
    const defaults: Defaults
    var data: Item?
    var quantum: nat
    var qset: nat
    var size: nat

    ghost var list: seq<Item>
    ghost var arrays: map<nat, array<array?<Byte>>>
    ghost var quanta: map<(nat, nat), array<Byte>>
    ghost var image: Image
    ghost var writes: seq<Chunk>

    /** The items are linked in the order of list. */
    ghost predicate ListOk()
      reads this`data, this`list, list`next
    {
      && data == (if list == [] then null else list[0])
      && (forall i :: 0 <= i < |list| ==> list[i].next == if i + 1 < |list| then list[i + 1] else null)
      && (forall i, j :: 0 <= i < j < |list| ==> list[i] != list[j])
    }

    /** arrays names the pointer arrays: each has the device's own qset slots and belongs to one item. */
    ghost predicate ArraysOk()
      reads this`list, this`arrays, this`qset, list`data
    {
      && (forall i :: i in arrays ==> i < |list| && list[i].data == arrays[i] && arrays[i].Length == qset)
      && (forall i :: 0 <= i < |list| && i !in arrays ==> list[i].data == null)
      && Injective(arrays)
    }

    /** quanta names the quanta: each has the device's own quantum bytes and belongs to one slot. */
    ghost predicate QuantaOk()
      reads this`arrays, this`quanta, this`quantum, this`qset, arrays.Values
    {
      && (forall i :: i in arrays ==> arrays[i].Length == qset)
      && (forall k :: k in quanta ==>
            k.0 in arrays && k.1 < qset && arrays[k.0][k.1] == quanta[k] && quanta[k].Length == quantum)
      && (forall i, s: nat :: i in arrays && s < qset && (i, s) !in quanta ==> arrays[i][s] == null)
      && Injective(quanta)
    }

    /** The live blocks are those of the list: none is lost, and none in the list has been freed. */
    ghost predicate ItemsOwned()
      reads this`list, slab`items
    {
      slab.items == (set x | x in list)
    }

    ghost predicate ArraysOwned()
      reads this`arrays, slab`arrays
    {
      slab.arrays == arrays.Values
    }

    ghost predicate QuantaOwned()
      reads this`quanta, slab`quanta
    {
      slab.quanta == quanta.Values
    }

    /** The list and its blocks, whatever the geometry. */
    ghost predicate Intact()
      reads this`data, this`list, this`arrays, this`quanta, this`quantum, this`qset, slab, list, arrays.Values
    {
      && ListOk() && ArraysOk() && QuantaOk()
      && ItemsOwned() && ArraysOwned() && QuantaOwned()
    }

    ghost predicate Shape()
      reads this`data, this`list, this`arrays, this`quanta, this`quantum, this`qset, slab, list, arrays.Values
    {
      quantum > 0 && qset > 0 && Intact()
    }

    /** The list already reaches the last byte of the data. */
    ghost predicate Reaching()
      reads this`list, this`size, this`quantum, this`qset
    {
      size <= |list| * (quantum * qset)
    }

    /** image holds the bytes of the quanta. */
    ghost predicate Stored()
      reads this`quanta, this`image, quanta.Values
    {
      image.Keys == quanta.Keys && forall k :: k in quanta ==> image[k] == quanta[k][..]
    }

    ghost predicate Valid()
      reads this, slab, list, arrays.Values, quanta.Values
    {
      Shape() && Stored() && Reaching() && Remembers(writes, image, quantum, qset)
    }

    /** A device set up by scull_init_module. */
    constructor (slab: BlockPools, defaults: Defaults)
      requires slab.items == {} && slab.arrays == {} && slab.quanta == {}
      ensures Intact() && (Valid() <==> defaults.quantum > 0 && defaults.qset > 0)
      ensures this.slab == slab && this.defaults == defaults
      ensures size == 0 && image == map[] && writes == [] && quantum == defaults.quantum && qset == defaults.qset
    {
      this.slab, this.defaults := slab, defaults;
      data, size, quantum, qset := null, 0, defaults.quantum, defaults.qset;
      list, arrays, quanta, image, writes := [], map[], map[], map[], [];
    }

    /** The list and its items alone, without the quanta. */
    ghost predicate Linked()
      reads this, slab`items, list
    {
      ListOk() && ArraysOk() && ItemsOwned()
    }

    /** The item behind qs, newly allocated if there is none; also the first item when qs is null. */
    method Behind(qs: Item?, ghost i: nat, memory: bool) returns (p: Item?)
      requires Linked()
      requires if qs == null then i == 0 else 0 < i <= |list| && qs == list[i - 1]
      modifies this`data, this`list, slab`items, (if qs == null then {} else {qs})`next
      ensures Linked()
      ensures memory ==> p != null
      ensures p != null ==> i < |list| && p == list[i]
      ensures i < |old(list)| ==> p != null && list == old(list) && data == old(data) && slab.items == old(slab.items)
      ensures old(list) <= list && forall x :: x in list && x !in old(list) ==> fresh(x)
      ensures qs != null ==> qs.data == old(qs.data) && (i < |old(list)| ==> qs.next == old(qs.next))
    {
      p := if qs == null then data else qs.next;
      assert qs != null ==> list[i - 1].next == p;
      assert i < |list| ==> list[i] in list && p == list[i];
      assert i == |list| ==> p == null by {
        assert |list| == 0 ==> list == [];
      }
      if p == null {
        p := slab.NewItem(memory);
        if p != null {
          if qs == null {
            data := p;
          } else {
            qs.next := p;
          }
          list := list + [p];
        }
      }
    }

    /** Whatever has been written, the list reaches the last byte: this is why a read never has to append. */
    lemma ListReachesData()
      requires Valid() && size > 0
      ensures PlaceOf(size - 1, quantum, qset).item < |list|
    {
      WithinList(size - 1, |list|, quantum, qset);
    }

    /** scull_follow: walks to item n, appending items while the list is too short. */
    method Follow(n: nat, memory: bool) returns (qs: Item?)
      requires Linked()
      modifies this`data, this`list, slab`items, list`next
      ensures Linked()
      ensures memory ==> qs != null
      ensures qs != null ==> n < |list| && qs == list[n]
      ensures old(list) <= list && forall x :: x in list && x !in old(list) ==> fresh(x)
      ensures forall x :: x in old(list) ==> x.data == old(x.data)
      ensures n < |old(list)| ==> qs != null && list == old(list) && data == old(data) && slab.items == old(slab.items)
      ensures n < |old(list)| ==> forall x :: x in list ==> x.next == old(x.next)
    {
      qs := Behind(null, 0, memory);
      var i: nat := 0;
      while i < n && qs != null
        invariant Linked()
        invariant i <= n && (qs != null ==> i < |list| && qs == list[i])
        invariant memory ==> qs != null
        invariant old(list) <= list && forall x :: x in list && x !in old(list) ==> fresh(x)
        invariant forall x :: x in old(list) ==> x.data == old(x.data)
        invariant n < |old(list)| ==>
          qs != null && list == old(list) && data == old(data) && slab.items == old(slab.items)
        invariant n < |old(list)| ==> forall x :: x in list ==> x.next == old(x.next)
        decreases n - i
      {
        assert list[i] in list;
        qs := Behind(qs, i + 1, memory);
        i := i + 1;
      }
    }

    /** The first half of scull_write's allocation: the item's pointer array. */
    method NeedArray(qs: Item, ghost item: nat, memory: bool) returns (ok: bool)
      requires ArraysOk() && QuantaOk() && ArraysOwned()
      requires item < |list| && list[item] == qs
      requires forall i, j :: 0 <= i < j < |list| ==> list[i] != list[j]
      modifies qs`data, slab`arrays, this`arrays
      ensures ArraysOk() && QuantaOk() && ArraysOwned()
      ensures (memory ==> ok) && (ok ==> item in arrays)
      ensures slab.arrays == if ok then old(slab.arrays) + {arrays[item]} else old(slab.arrays)
      ensures ok ==> qs.data == arrays[item] && (arrays[item] in old(slab.arrays) || fresh(arrays[item]))
    {
      if qs.data == null {
        assert item !in arrays;
        var p := slab.NewArray(qset, memory);
        qs.data := p;
        if p != null {
          OneMore(arrays, item, p);
          arrays := arrays[item := p];
        }
      }
      ok := qs.data != null;
    }

    /** A new quantum enters its slot. */
    method Link(row: array<array?<Byte>>, ghost item: nat, slot: nat, block: array<Byte>)
      requires QuantaOk() && Injective(arrays)
      requires item in arrays && arrays[item] == row && slot < qset && (item, slot) !in quanta
      requires block !in quanta.Values && block.Length == quantum
      modifies row, this`quanta
      ensures QuantaOk()
      ensures quanta == old(quanta)[(item, slot) := block] && quanta.Values == old(quanta.Values) + {block}
      ensures row[slot] == block && forall k :: k in old(quanta) ==> quanta[k][..] == old(quanta[k][..])
    {
      assert forall i :: i in arrays && i != item ==> arrays[i] != row;
      row[slot] := block;
      OneMore(quanta, (item, slot), block);
      quanta := quanta[(item, slot) := block];
    }

    /** The same with its bytes, which are whatever the block holds. */
    method Adopt(row: array<array?<Byte>>, ghost item: nat, slot: nat, block: array<Byte>)
      requires QuantaOk() && Stored() && Injective(arrays)
      requires item in arrays && arrays[item] == row && slot < qset && (item, slot) !in quanta
      requires block !in quanta.Values && block.Length == quantum
      modifies row, this`quanta, this`image
      ensures QuantaOk() && Stored()
      ensures quanta == old(quanta)[(item, slot) := block] && quanta.Values == old(quanta.Values) + {block}
      ensures image == old(image)[(item, slot) := block[..]]
    {
      hide QuantaOk, Injective;
      Link(row, item, slot, block);
      image := image[(item, slot) := block[..]];
    }

    /** A quantum for an empty slot. */
    method FillSlot(row: array<array?<Byte>>, ghost item: nat, slot: nat, memory: bool) returns (block: array?<Byte>)
      requires QuantaOk() && Stored() && QuantaOwned() && Injective(arrays)
      requires item in arrays && arrays[item] == row && slot < qset && (item, slot) !in quanta
      modifies row, slab`quanta, this`quanta, this`image
      ensures QuantaOk() && Stored() && QuantaOwned()
      ensures memory ==> block != null
      ensures block != null ==> fresh(block) && quanta == old(quanta)[(item, slot) := block]
      ensures slab.quanta == if block == null then old(slab.quanta) else old(slab.quanta) + {block}
      ensures image == if block == null then old(image) else old(image)[(item, slot) := block[..]]
    {
      hide QuantaOk, Stored, Injective;
      block := slab.NewQuantum(quantum, memory);
      if block != null {
        Adopt(row, item, slot, block);
      }
    }

    /** The second half: the quantum. */
    method NeedQuantum(row: array<array?<Byte>>, ghost item: nat, slot: nat, memory: bool) returns (block: array?<Byte>)
      requires QuantaOk() && Stored() && QuantaOwned() && Injective(arrays)
      requires item in arrays && arrays[item] == row && slot < qset
      modifies row, slab`quanta, this`quanta, this`image
      ensures QuantaOk() && Stored() && QuantaOwned()
      ensures memory ==> block != null
      ensures block != null ==> (item, slot) in quanta && quanta[(item, slot)] == block
      ensures slab.quanta == if block == null then old(slab.quanta) else old(slab.quanta) + {block}
      ensures block != null ==> block in old(slab.quanta) || fresh(block)
      ensures (item, slot) in old(image) || block == null ==> image == old(image)
      ensures (item, slot) !in old(image) && block != null ==> image == old(image)[(item, slot) := block[..]]
    {
      hide QuantaOk, Stored, Injective;
      SlotOfQuantum(item, slot);
      block := row[slot];
      if block == null {
        block := FillSlot(row, item, slot, memory);
      }
    }

    /** A slot holds its quantum, or nothing if it has none. */
    lemma SlotOfQuantum(item: nat, slot: nat)
      requires QuantaOk() && Stored() && item in arrays && slot < qset
      ensures arrays[item].Length == qset && image.Keys == quanta.Keys
      ensures arrays[item][slot] == if (item, slot) in quanta then quanta[(item, slot)] else null
    {
    }

    /** copy_from_user of data to offset off of a quantum. */
    method Fill(block: array<Byte>, ghost key: (nat, nat), off: nat, data: seq<Byte>)
      requires QuantaOk() && Stored() && key in quanta && quanta[key] == block && off + |data| <= quantum
      modifies block, this`image
      ensures Stored()
      ensures image == old(image[key := Overlay(image[key], off, data)])
    {
      ghost var before := block[..];
      forall j | 0 <= j < |data| {
        block[off + j] := data[j];
      }
      assert block[..] == Overlay(before, off, data);
      assert forall l :: l in quanta && l != key ==> quanta[l] != block && quanta[l][..] == old(quanta[l][..]);
      image := image[key := block[..]];
    }

    /** In a list that is long enough, scull_follow changes nothing. */
    method Lookup(item: nat) returns (qs: Item)
      requires Shape() && Stored() && item < |list|
      modifies this`data, this`list, slab`items, list`next
      ensures Shape() && Stored()
      ensures list == old(list) && data == old(data) && slab.items == old(slab.items) && qs == list[item]
      ensures forall x :: x in list ==> x.data == old(x.data) && x.next == old(x.next)
    {
      qs := Follow(item, false);
    }

    /** The part of scull_read after scull_follow. */
    method Peek(dptr: Item, at: Place, n: nat, copyOk: bool) returns (r: Result<nat>, bytes: seq<Byte>)
      requires Shape() && Stored() && at.item < |list| && dptr == list[at.item] && InRange(at, quantum, qset)
      ensures WellSized(image, quantum, qset) && IsFound(image, at, n, quantum, r, bytes)
      ensures r.Error? <==> !copyOk && n > 0 && (at.item, at.slot) in image
    {
      r, bytes := Ok(0), [];
      if dptr.data == null || dptr.data[at.slot] == null {
        return;
      }
      var block := dptr.data[at.slot];
      assert quanta[(at.item, at.slot)] == block;
      var k := Min(n, quantum - at.off);
      if !copyOk && k > 0 {
        r := Error(EFAULT);
        return;
      }
      assert image[(at.item, at.slot)] == block[..];
      r, bytes := Ok(k), block[at.off..at.off + k];
    }

    /** scull_read: never changes the device, not even by growing the list. */
    method Read(pos: nat, count: nat, copyOk: bool) returns (r: Result<nat>, bytes: seq<Byte>, newPos: nat)
      requires Valid()
      modifies this`data, this`list, slab`items, slab.items`next
      ensures Valid()
      ensures list == old(list) && data == old(data) && slab.items == old(slab.items)
      ensures forall x :: x in list ==> x.data == old(x.data) && x.next == old(x.next)
      ensures ReadsRight(image, size, quantum, qset, pos, count, r, bytes)
      ensures r.Error? <==> !copyOk && count > 0 && pos < size && Cell(image, pos, quantum, qset).Some?
      ensures newPos == if r.Ok? then pos + r.value else pos
    {
      hide ListOk, ArraysOk, QuantaOk, IsFound, Remembers;
      var q, qs := quantum, qset;
      r, bytes, newPos := Ok(0), [], pos;
      if pos >= size {
        return;
      }
      var n := if pos + count > size then size - pos else count;
      var at := PlaceOf(pos, q, qs);
      PlaceInRange(pos, q, qs);
      WithinList(pos, |list|, q, qs);
      var dptr := Lookup(at.item);
      r, bytes := Peek(dptr, at, n, copyOk);
      FoundIsRight(image, size, q, qs, pos, count, n, r, bytes);
      HoleOrQuantum(image, pos, q, qs);
      newPos := if r.Ok? then pos + r.value else pos;
    }

    // The same allocations, seen from the whole device.

    method WithItem(item: nat, memory: bool) returns (qs: Item?)
      requires Shape() && Stored()
      modifies this`data, this`list, slab`items, list`next
      ensures Shape() && Stored()
      ensures memory ==> qs != null
      ensures qs != null ==> item < |list| && qs == list[item]
      ensures old(list) <= list && fresh(slab.items - old(slab.items))
    {
      qs := Follow(item, memory);
    }

    lemma ItemsDistinct()
      requires ListOk()
      ensures forall i, j :: 0 <= i < j < |list| ==> list[i] != list[j]
    {
    }

    method WithArray(item: nat, qs: Item, memory: bool) returns (ok: bool)
      requires Shape() && Stored() && item < |list| && list[item] == qs
      modifies qs`data, slab`arrays, this`arrays
      ensures Shape() && Stored()
      ensures (memory ==> ok) && (ok ==> item in arrays && qs.data == arrays[item])
      ensures slab.arrays == if ok then old(slab.arrays) + {arrays[item]} else old(slab.arrays)
      ensures ok ==> arrays[item] in old(slab.arrays) || fresh(arrays[item])
    {
      hide ListOk, ArraysOk, QuantaOk, Stored;
      ItemsDistinct();
      ok := NeedArray(qs, item, memory);
    }

    method WithQuantum(item: nat, slot: nat, row: array<array?<Byte>>, memory: bool) returns (block: array?<Byte>)
      requires Shape() && Stored() && slot < qset && item in arrays && arrays[item] == row
      modifies row, slab`quanta, this`quanta, this`image
      ensures Shape() && Stored()
      ensures memory ==> block != null
      ensures block != null ==> (item, slot) in quanta && quanta[(item, slot)] == block
      ensures slab.quanta == if block == null then old(slab.quanta) else old(slab.quanta) + {block}
      ensures block != null ==> block in old(slab.quanta) || fresh(block)
      ensures (item, slot) in old(image) || block == null ==> image == old(image)
      ensures (item, slot) !in old(image) && block != null ==> image == old(image)[(item, slot) := block[..]]
    {
      block := NeedQuantum(row, item, slot, memory);
    }

    method Overwrite(block: array<Byte>, ghost key: (nat, nat), off: nat, data: seq<Byte>)
      requires Shape() && Stored() && key in quanta && quanta[key] == block && off + |data| <= quantum
      modifies block, this`image
      ensures Shape() && Stored()
      ensures image == old(image[key := Overlay(image[key], off, data)])
    {
      hide Overlay;
      Fill(block, key, off, data);
    }

    method ReachArray(item: nat, memory: bool) returns (row: array?<array?<Byte>>)
      requires Shape() && Stored()
      modifies this`data, this`list, this`arrays, slab`items, slab`arrays, list
      ensures Shape() && Stored()
      ensures memory ==> row != null
      ensures old(list) <= list && fresh(slab.items - old(slab.items))
      ensures row != null ==> item < |list| && item in arrays && arrays[item] == row
      ensures slab.arrays == if row == null then old(slab.arrays) else old(slab.arrays) + {row}
      ensures row != null ==> row in old(slab.arrays) || fresh(row)
    {
      row := null;
      var qs := WithItem(item, memory);
      if qs != null {
        assert qs in list;
        var ok := WithArray(item, qs, memory);
        if ok {
          row := qs.data;
          assert row in arrays.Values;
        }
      }
    }

    lemma QuantumAt(item: nat, slot: nat)
      requires Shape() && Stored() && (item, slot) in quanta
      ensures var block := quanta[(item, slot)];
        block.Length == quantum && (item, slot) in image && image[(item, slot)] == block[..]
    {
    }

    /** The allocations of scull_write: the quantum at a place, with everything on the way to it. */
    method Reach(at: Place, memory: bool) returns (block: array?<Byte>)
      requires Shape() && Stored() && InRange(at, quantum, qset)
      modifies this`data, this`list, this`arrays, this`quanta, this`image, slab, list, arrays.Values
      ensures Shape() && Stored()
      ensures memory ==> block != null
      ensures old(list) <= list && fresh(slab.items - old(slab.items)) && fresh(slab.arrays - old(slab.arrays))
      ensures slab.quanta == if block == null then old(slab.quanta) else old(slab.quanta) + {block}
      ensures block != null ==> block in old(slab.quanta) || fresh(block)
      ensures block != null ==> at.item < |list| && (at.item, at.slot) in quanta && quanta[(at.item, at.slot)] == block
      ensures (at.item, at.slot) in old(image) || block == null ==> image == old(image)
      ensures (at.item, at.slot) !in old(image) && block != null ==>
        image == old(image)[(at.item, at.slot) := block[..]]
    {
      hide ListOk, ArraysOk, QuantaOk, Stored;
      block := null;
      var row := ReachArray(at.item, memory);
      if row != null {
        assert row in slab.arrays;
        block := WithQuantum(at.item, at.slot, row, memory);
      }
    }

    lemma LiveQuanta()
      requires Shape()
      ensures slab.quanta == quanta.Values
    {
    }

    /** Reach, then copy data into the quantum. */
    method Put(at: Place, data: seq<Byte>, memory: bool) returns (ok: bool, ghost block: seq<Byte>)
      requires Shape() && Stored() && InRange(at, quantum, qset) && at.off + |data| <= quantum
      modifies this`data, this`list, this`arrays, this`quanta, this`image, slab, list, arrays.Values, quanta.Values
      ensures Shape() && Stored()
      ensures memory ==> ok
      ensures !ok ==> image == old(image)
      ensures fresh(slab.items - old(slab.items)) && fresh(slab.arrays - old(slab.arrays))
      ensures fresh(slab.quanta - old(slab.quanta))
      ensures old(list) <= list && (ok ==> at.item < |list| && |block| == quantum)
      ensures ok && (at.item, at.slot) in old(image) ==> old(image)[(at.item, at.slot)] == block
      ensures ok ==> image == old(image)[(at.item, at.slot) := Overlay(block, at.off, data)]
    {
      hide Overlay, Shape, Stored;
      LiveQuanta();
      ghost var before, key, off := image, (at.item, at.slot), at.off;
      var quantumPtr := Reach(at, memory);
      ok, block := quantumPtr != null, [];
      if ok {
        ghost var mid := image;
        QuantumAt(at.item, at.slot);
        block := quantumPtr[..];
        Overwrite(quantumPtr, key, at.off, data);
        OneChange(before, mid, image, key, block, Overlay(block, off, data));
      }
    }

    /** Notes what has been stored. */
    ghost method Commit(chunk: Chunk)
      requires Shape() && Stored() && Reaching() && Remembers(writes + [chunk], image, quantum, qset)
      modifies this`writes
      ensures Valid() && writes == old(writes) + [chunk]
    {
      writes := writes + [chunk];
    }

    /** The end of scull_write: the file becomes as long as what has been written. */
    method Extent(newPos: nat)
      requires Valid() && newPos <= |list| * (quantum * qset)
      modifies this`size
      ensures Valid() && size == if old(size) < newPos then newPos else old(size)
    {
      if size < newPos {
        size := newPos;
      }
    }

    /**
     scull_write.  Failing allocations leave the stored bytes alone; otherwise the bytes up to the
     end of the quantum are stored, or those before a fault.
     */
    method Write(pos: nat, buf: seq<Byte>, memory: bool, okBytes: nat) returns (r: Result<nat>, newPos: nat)
      requires Valid()
      modifies this`data, this`list, this`arrays, this`quanta, this`image, this`size, this`writes
      modifies slab, slab.items, slab.arrays, slab.quanta
      ensures Valid()
      ensures fresh(slab.items - old(slab.items)) && fresh(slab.arrays - old(slab.arrays))
      ensures fresh(slab.quanta - old(slab.quanta))
      ensures WritesRight(old(image), image, old(size), size, quantum, qset, pos, buf, okBytes, r)
      ensures memory ==> r != Error(ENOMEM)
      ensures writes == old(writes) + (if r == Error(ENOMEM) then [] else
        [Chunk(pos, Taken(pos, buf, okBytes, quantum, qset))])
      ensures newPos == if r.Ok? then pos + r.value else pos
    {
      hide ListOk, ArraysOk, QuantaOk, Stored, Overlay, Cell, WritesRight, Remembers;
      var q, qs := quantum, qset;
      ghost var before := image;
      r, newPos := Error(ENOMEM), pos;
      var at := PlaceOf(pos, q, qs);
      PlaceInRange(pos, q, qs);
      var count := ToQuantumEnd(pos, |buf|, q, qs);
      var data := buf[..Min(count, okBytes)];
      var ok, block := Put(at, data, memory);
      GrownList(size, |old(list)|, |list|, pos, count, q, qs);
      if !ok {
        FailureIsRight(before, size, q, qs, pos, buf, okBytes);
        return;
      }
      OverlayIsRight(before, image, writes, size, q, qs, pos, buf, okBytes, block);
      Commit(Chunk(pos, data));
      if okBytes < count {
        r := Error(EFAULT);
        return;
      }
      r, newPos := Ok(count), pos + count;
      Extent(newPos);
    }

    // ----- scull_trim -----

    /** The keys of the quanta of items from i on, except those of item i below slot s. */
    static ghost function Left(quanta: map<(nat, nat), array<Byte>>, i: nat, s: nat): set<array<Byte>> {
      set k | k in quanta && (k.0 > i || (k.0 == i && k.1 >= s)) :: quanta[k]
    }

    /** One kfree of a slot takes exactly its quantum away. */
    static lemma LeftAfter(quanta: map<(nat, nat), array<Byte>>, i: nat, s: nat)
      requires Injective(quanta)
      ensures (i, s) in quanta ==> quanta[(i, s)] in Left(quanta, i, s)
      ensures Left(quanta, i, s + 1) ==
        if (i, s) in quanta then Left(quanta, i, s) - {quanta[(i, s)]} else Left(quanta, i, s)
    {
    }

    /** The quanta of one item are freed, each once. */
    method FreeQuanta(row: array<array?<Byte>>, ghost i: nat)
      requires QuantaOk() && i in arrays && arrays[i] == row
      requires slab.quanta == Left(quanta, i, 0)
      modifies slab`quanta
      ensures slab.quanta == Left(quanta, i + 1, 0)
    {
      var s: nat := 0;
      while s < qset
        invariant s <= qset && slab.quanta == Left(quanta, i, s)
      {
        LeftAfter(quanta, i, s);
        slab.FreeQuantum(row[s]);
        s := s + 1;
      }
    }

    static ghost function ArraysLeft(arrays: map<nat, array<array?<Byte>>>, i: nat): set<array<array?<Byte>>> {
      set j | j in arrays && j >= i :: arrays[j]
    }

    static lemma ArraysLeftAfter(arrays: map<nat, array<array?<Byte>>>, i: nat)
      requires Injective(arrays)
      ensures i in arrays ==> arrays[i] in ArraysLeft(arrays, i)
      ensures ArraysLeft(arrays, i + 1) ==
        if i in arrays then ArraysLeft(arrays, i) - {arrays[i]} else ArraysLeft(arrays, i)
    {
    }

    /** Item j is linked and holds its pointer array. */
    ghost predicate IntactAt(j: nat)
      requires j < |list|
      reads this`list, this`arrays, list
    {
      && list[j].next == (if j + 1 < |list| then list[j + 1] else null)
      && list[j].data == (if j in arrays then arrays[j] else null)
    }

    /** In the middle of scull_trim: the items from i on are untouched, and just their blocks are live. */
    ghost predicate TrimmedTo(i: nat)
      reads this`list, this`arrays, this`quanta, this`quantum, this`qset, slab, list, arrays.Values
    {
      && i <= |list|
      && (forall j :: i <= j < |list| ==> IntactAt(j))
      && (forall j, k :: 0 <= j < k < |list| ==> list[j] != list[k])
      && (forall j :: j in arrays ==> j < |list|)
      && Injective(arrays) && QuantaOk()
      && slab.items == (set x | x in list[i..])
      && slab.arrays == ArraysLeft(arrays, i)
      && slab.quanta == Left(quanta, i, 0)
    }

    /** One round of scull_trim's loop: the item's quanta, its pointer array and the item itself are freed. */
    method FreeItem(dptr: Item, ghost i: nat) returns (next: Item?)
      requires TrimmedTo(i) && i < |list| && dptr == list[i]
      modifies slab, dptr`data
      ensures TrimmedTo(i + 1)
      ensures next == if i + 1 < |list| then list[i + 1] else null
    {
      ArraysLeftAfter(arrays, i);
      assert IntactAt(i);
      assert i !in arrays ==> Left(quanta, i + 1, 0) == Left(quanta, i, 0);
      if dptr.data != null {
        FreeQuanta(dptr.data, i);
        slab.FreeArray(dptr.data);
        dptr.data := null;
      }
      next := dptr.next;
      assert list[i..] == [dptr] + list[i + 1..];
      slab.FreeItem(dptr);
      forall j | i + 1 <= j < |list|
        ensures IntactAt(j)
      {
        assert old(IntactAt(j)) && list[j] != list[i];
      }
    }

    /** What scull_trim leaves: an empty device with the present defaults, fit for use unless one of them is 0. */
    method Reset()
      requires slab.items == {} && slab.arrays == {} && slab.quanta == {}
      modifies this
      ensures Intact() && (Valid() <==> defaults.quantum > 0 && defaults.qset > 0)
      ensures size == 0 && image == map[] && writes == []
      ensures quantum == defaults.quantum && qset == defaults.qset
      ensures slab.items == {} && slab.arrays == {} && slab.quanta == {}
    {
      data, size, quantum, qset := null, 0, defaults.quantum, defaults.qset;
      list, arrays, quanta, image, writes := [], map[], map[], map[], [];
    }

    /**
     scull_trim: every item, pointer array and quantum is freed exactly once; only then does the geometry
     change.  It adopts globals of 0 as well; such a device divides by 0 in its next write, and can
     still be emptied again.
     */
    method Trim()
      requires Intact()
      modifies this, slab, slab.items`data
      ensures Intact() && (Valid() <==> defaults.quantum > 0 && defaults.qset > 0)
      ensures size == 0 && image == map[] && writes == []
      ensures quantum == defaults.quantum && qset == defaults.qset
      ensures slab.items == {} && slab.arrays == {} && slab.quanta == {}
    {
      var dptr := data;
      ghost var i: nat := 0;
      StartTrim();
      while dptr != null
        invariant TrimmedTo(i) && dptr == if i < |list| then list[i] else null
        invariant slab.items <= old(slab.items)
        decreases |list| - i
      {
        assert dptr in slab.items;
        dptr := FreeItem(dptr, i);
        i := i + 1;
      }
      EndTrim(i);
      Reset();
    }

    lemma StartTrim()
      requires Intact()
      ensures TrimmedTo(0) && data == if 0 < |list| then list[0] else null
    {
      assert list[0..] == list;
      assert ArraysLeft(arrays, 0) == arrays.Values;
      assert Left(quanta, 0, 0) == quanta.Values;
    }

    lemma EndTrim(i: nat)
      requires TrimmedTo(i) && i == |list|
      ensures slab.items == {} && slab.arrays == {} && slab.quanta == {}
    {
    }
  }
}
