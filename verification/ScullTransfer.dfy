/** Programs that move more than one quantum: they repeat read and write on the scull device until all is moved. */
module ScullTransfer {
  import opened Common
  import opened ScullGeometry
  import opened ScullImage
  import opened ScullStore

  /** One round of a writing loop; memory is available and the buffer can be read. */
  method StoreSome(dev: Device, ghost before: Image, pos: nat, w: seq<Byte>, done: nat) returns (done': nat)
    requires dev.Valid() && done < |w|
    requires Holds(dev.image, pos, w[..done], dev.quantum, dev.qset)
    requires SameOutside(before, dev.image, pos, done, dev.quantum, dev.qset)
    modifies dev`data, dev`list, dev`arrays, dev`quanta, dev`image, dev`size, dev`writes
    modifies dev.slab, dev.slab.items, dev.slab.arrays, dev.slab.quanta
    ensures dev.Valid() && done < done' <= |w|
    ensures fresh(dev.slab.items - old(dev.slab.items)) && fresh(dev.slab.arrays - old(dev.slab.arrays))
    ensures fresh(dev.slab.quanta - old(dev.slab.quanta))
    ensures Holds(dev.image, pos, w[..done'], dev.quantum, dev.qset)
    ensures SameOutside(before, dev.image, pos, done', dev.quantum, dev.qset)
    ensures dev.size == if old(dev.size) < pos + done' then pos + done' else old(dev.size)
    ensures Touched(pos + done', |w| - done', dev.quantum) == Touched(pos + done, |w| - done, dev.quantum) - 1
  {
    assert dev.quantum > 0 && dev.qset > 0;
    ghost var mid, size, q, n := dev.image, dev.size, dev.quantum, dev.qset;
    var at, rest := pos + done, w[done..];
    var left := |rest|;
    var r, newPos := dev.Write(at, rest, true, left);
    done' := done + if r.Ok? then r.value else 0;
    StoreRound(before, mid, dev.image, size, dev.size, q, n, pos, w, done, at, rest, left, r, done');
  }

  /** Writes all of w from pos on. */
  method StoreAll(dev: Device, pos: nat, w: seq<Byte>) returns (calls: nat)
    requires dev.Valid()
    modifies dev`data, dev`list, dev`arrays, dev`quanta, dev`image, dev`size, dev`writes
    modifies dev.slab, dev.slab.items, dev.slab.arrays, dev.slab.quanta
    ensures dev.Valid() && fresh(dev.slab.items - old(dev.slab.items))
    ensures Holds(dev.image, pos, w, dev.quantum, dev.qset)
    ensures SameOutside(old(dev.image), dev.image, pos, |w|, dev.quantum, dev.qset)
    ensures dev.size == if w != [] && old(dev.size) < pos + |w| then pos + |w| else old(dev.size)
    ensures calls == Touched(pos, |w|, dev.quantum)
  {
    var done: nat := 0;
    calls := 0;
    ghost var before, q, n := dev.image, dev.quantum, dev.qset;
    assert Holds(before, pos, w[..0], q, n) && SameOutside(before, before, pos, 0, q, n) && q > 0 && n > 0;
    hide *;
    while done < |w|
      invariant done <= |w| && dev.Valid()
      invariant fresh(dev.slab.items - old(dev.slab.items)) && fresh(dev.slab.arrays - old(dev.slab.arrays))
      invariant fresh(dev.slab.quanta - old(dev.slab.quanta))
      invariant Holds(dev.image, pos, w[..done], q, n) && SameOutside(before, dev.image, pos, done, q, n)
      invariant dev.size == if done > 0 && old(dev.size) < pos + done then pos + done else old(dev.size)
      invariant calls + Touched(pos + done, |w| - done, q) == Touched(pos, |w|, q)
    {
      done := StoreSome(dev, before, pos, w, done);
      calls := calls + 1;
    }
    assert w[..done] == w;
    NoneTouched(pos + done, q);
  }

  /** One round of a reading loop over data that is all there; bytes is what has been read before. */
  method LoadSome(dev: Device, pos: nat, ghost w: seq<Byte>, len: nat, bytes: seq<Byte>, done: nat)
    returns (bytes': seq<Byte>, done': nat)
    requires dev.Valid() && |w| == len && pos + len <= dev.size && Holds(dev.image, pos, w, dev.quantum, dev.qset)
    requires done < len && bytes == w[..done]
    modifies dev`data, dev`list, dev.slab`items, dev.slab.items`next
    ensures dev.Valid() && dev.slab.items == old(dev.slab.items)
    ensures done < done' <= len && bytes' == w[..done']
    ensures Touched(pos + done', len - done', dev.quantum) == Touched(pos + done, len - done, dev.quantum) - 1
  {
    var at, left := pos + done, len - done;
    var r, some, newPos := dev.Read(at, left, true);
    bytes', done' := bytes + some, done + |some|;
    LoadRound(dev.image, dev.size, dev.quantum, dev.qset, pos, w, done, at, left, r, some, done');
  }

  /** Reads as many bytes from pos on as w has, when w is what the device holds there. */
  method LoadAll(dev: Device, pos: nat, len: nat, ghost w: seq<Byte>) returns (bytes: seq<Byte>, calls: nat)
    requires dev.Valid() && |w| == len && pos + len <= dev.size && Holds(dev.image, pos, w, dev.quantum, dev.qset)
    modifies dev`data, dev`list, dev.slab`items, dev.slab.items`next
    ensures dev.Valid() && bytes == w && dev.slab.items == old(dev.slab.items)
    ensures calls == Touched(pos, len, dev.quantum)
  {
    ghost var q := dev.quantum;
    assert q > 0 && w[..0] == [];
    hide *;
    var done: nat := 0;
    bytes, calls := [], 0;
    while done < len
      invariant done <= len && bytes == w[..done]
      invariant dev.Valid() && dev.slab.items == old(dev.slab.items)
      invariant calls + Touched(pos + done, len - done, q) == Touched(pos, len, q)
    {
      bytes, done := LoadSome(dev, pos, w, len, bytes, done);
      calls := calls + 1;
    }
    assert w[..done] == w;
    NoneTouched(pos + done, q);
  }

  /** What is written comes back, and each direction takes one call for every quantum touched. */
  method RoundTrip(dev: Device, pos: nat, w: seq<Byte>) returns (bytes: seq<Byte>, stores: nat, loads: nat)
    requires dev.Valid() && w != []
    modifies dev`data, dev`list, dev`arrays, dev`quanta, dev`image, dev`size, dev`writes
    modifies dev.slab, dev.slab.items, dev.slab.arrays, dev.slab.quanta
    ensures dev.Valid() && bytes == w
    ensures stores == loads == Ceiling(pos, |w|, dev.quantum)
  {
    ghost var q := dev.quantum;
    assert q > 0;
    hide *;
    TouchedIsCeiling(pos, |w|, q);
    stores := StoreAll(dev, pos, w);
    bytes, loads := LoadAll(dev, pos, |w|, w);
  }

  /** What has been told is what a query answers and a get stores; the other global is not touched. */
  method TellAndAsk(defaults: Defaults, p: Parameter, value: nat, user: UserInt)
      returns (r: Result<nat>, put: Option<nat>)
    requires user.valid && user.writeOk
    modifies defaults
    ensures r == Ok(value) && put == Some(value)
    ensures forall o :: o != p ==> defaults.Of(o) == old(defaults.Of(o))
  {
    r, put := defaults.Ioctl(Tell(p, value), user, true);
    var got;
    got, put := defaults.Ioctl(Get(p), user, false);
    var none;
    r, none := defaults.Ioctl(Query(p), user, false);
  }

  /** Exchanging and shifting back restores the global; each time the other value comes out. */
  method ExchangeAndShiftBack(defaults: Defaults, p: Parameter, user: UserInt) returns (before: nat, after: nat)
    requires user.valid && user.readOk && user.writeOk
    modifies defaults
    ensures before == old(defaults.Of(p)) && after == user.value
    ensures forall o :: defaults.Of(o) == old(defaults.Of(o))
  {
    var r, put := defaults.Ioctl(Exchange(p), user, true);
    before := put.value;
    r, put := defaults.Ioctl(Shift(p, before), user, true);
    after := r.value;
  }

  /** Set by pointer does the same as tell, and reset undoes both. */
  method SetAndReset(defaults: Defaults, p: Parameter, user: UserInt) returns (got: nat, reset: nat)
    requires user.valid && user.readOk
    modifies defaults
    ensures got == user.value
    ensures reset == (if p.QuantumSize? then 4000 else 1000)
  {
    var r, put := defaults.Ioctl(Set(p), user, true);
    got := defaults.Of(p);
    r, put := defaults.Ioctl(Reset, user, false);
    r, put := defaults.Ioctl(Query(p), user, false);
    reset := r.value;
  }

  /**
   Changing the global geometry does not disturb what is stored: only emptying the device adopts it,
   and by then every block of the old geometry has been freed.
   */
  method GeometryChange(dev: Device, pos: nat, w: seq<Byte>, cmd: Command, user: UserInt, capable: bool)
      returns (bytes: seq<Byte>)
    requires dev.Valid() && w != []
    modifies dev, dev.defaults, dev.slab, dev.slab.items, dev.slab.arrays, dev.slab.quanta
    ensures bytes == w
    ensures dev.image == map[] && (dev.Valid() <==> dev.defaults.quantum > 0 && dev.defaults.qset > 0)
    ensures dev.quantum == dev.defaults.quantum && dev.qset == dev.defaults.qset
    ensures dev.slab.items == {} && dev.slab.arrays == {} && dev.slab.quanta == {}
  {
    var calls := StoreAll(dev, pos, w);
    var r, put := dev.defaults.Ioctl(cmd, user, capable);
    bytes, calls := LoadAll(dev, pos, |w|, w);
    dev.Trim();
  }
}
