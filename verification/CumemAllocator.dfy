/** The allocator itself: reserving, creating and mapping chunk by chunk with rollback, and giving
    memory back (csrc/cumem_allocator.cpp, the chunked branch).  `error` is the sticky global error
    code; `table` is what the callbacks keep per pointer.  */
module CumemAllocator {
  import opened CumemChunks
  import opened CumemState
  import opened CumemRuns
  import opened CumemDevice

  lemma {:induction false} InsertNext<T>(m: map<nat, T>, keys: seq<nat>, values: seq<T>, key: nat)
    requires |keys| < |values|
    ensures Insert(m, keys + [key], values[..|keys| + 1]) == Insert(m, keys, values[..|keys|])[key := values[|keys|]]
  {
    assert (keys + [key])[..|keys|] == keys && values[..|keys| + 1][..|keys|] == values[..|keys|];
  }

  /** The keys are new to the map and pairwise different. */
  ghost predicate AreNew<T>(m: map<nat, T>, keys: seq<nat>) {
    Distinct(keys) && Elements(keys) !! m.Keys
  }

  lemma {:induction false} NewNext<T>(m: map<nat, T>, keys: seq<nat>, values: seq<T>, key: nat)
    requires |keys| == |values| && AreNew(m, keys) && key !in Insert(m, keys, values)
    ensures AreNew(m, keys + [key])
  {
    InsertAt(m, keys, values);
  }

  lemma {:induction false} PrefixNext<T>(m: map<nat, T>, keys: seq<nat>, values: seq<T>, i: nat)
    requires i < |keys| == |values| && AreNew(m, keys[..i]) && keys[i] !in Insert(m, keys[..i], values[..i])
    ensures AreNew(m, keys[..i + 1])
    ensures Insert(m, keys[..i + 1], values[..i + 1]) == Insert(m, keys[..i], values[..i])[keys[i] := values[i]]
  {
    assert keys[..i + 1] == keys[..i] + [keys[i]];
    NewNext(m, keys[..i], values[..i], keys[i]);
    InsertNext(m, keys[..i], values, keys[i]);
  }

  /** The first `n` chunks have been mapped at new addresses. */
  ghost predicate AreMapped(before: map<nat, Mapping>, now: map<nat, Mapping>, base: nat, a: Allocation, n: nat)
    requires n <= |a.chunks| == |a.handles|
  {
    && AreNew(before, Addrs(base, a.chunks)[..n])
    && now == Insert(before, Addrs(base, a.chunks)[..n], Mappings(a)[..n])
    && Positive(a.chunks[..n])
  }

  lemma {:induction false} MappedNext(before: map<nat, Mapping>, base: nat, a: Allocation, i: nat)
    requires i < |a.chunks| == |a.handles| && a.chunks[i] > 0
    requires var now := Insert(before, Addrs(base, a.chunks)[..i], Mappings(a)[..i]);
             AreMapped(before, now, base, a, i) && Addr(base, a.chunks, i) !in now
    ensures var now := Insert(before, Addrs(base, a.chunks)[..i], Mappings(a)[..i]);
            AreMapped(before, now[Addr(base, a.chunks, i) := Mapping(a.chunks[i], a.handles[i])], base, a, i + 1)
  {
    PrefixNext(before, Addrs(base, a.chunks), Mappings(a), i);
  }

  lemma {:induction false} SumNext(chunks: seq<nat>, i: nat)
    requires i < |chunks|
    ensures Sum(chunks[..i + 1]) == Sum(chunks[..i]) + chunks[i]
  {
    assert chunks[..i + 1][..i] == chunks[..i];
  }

  /** Giving back an awake allocation is legal call by call. */
  lemma {:induction false} AwakeCanBeGivenBack(s: State, p: nat)
    requires Inv(s) && p in s.awake
    ensures var a := s.table[p];
            && |a.handles| == |a.chunks|
            && CanUnmapEach(s.gpu, p, a.chunks, |a.chunks|) && CanReleaseEach(s.gpu, a.handles, |a.handles|)
            && CanFreeAddress(Unbacked(s.gpu, p, a), p, a.size)
  {
    var a := s.table[p];
    assert AllocationOk(s, p);
    AwakeHandles(s, p);
    AddrsAreDistinct(p, a.chunks);
    assert a.handles[..|a.handles|] == a.handles && Addrs(p, a.chunks)[..|a.chunks|] == Addrs(p, a.chunks);
    forall i | 0 <= i < |a.chunks| ensures CanUnmap(s.gpu, Addrs(p, a.chunks)[i], a.chunks[i]) {
      AwakeMaps(s, p, i);
    }
    AsleepIsUnmapped(s, p);
  }

  lemma {:induction false} AsleepIsUnmapped(s: State, p: nat)
    requires Inv(s) && p in s.awake
    ensures CanFreeAddress(Unbacked(s.gpu, p, s.table[p]), p, s.table[p].size)
  {
    assert AllocationOk(s, p);
    var g := Unbacked(s.gpu, p, s.table[p]);
    assert Apply(s, Sleep(p)).gpu == g;
    forall x | x in g.maps ensures Disjoint(p, s.table[p].size, x, g.maps[x].size) {
      AsleepHoldsNothing(s, p, x);
    }
  }

  /** No range is mapped in the reservation of an allocation that sleeps. */
  lemma {:induction false} SleeperIsUnmapped(s: State, p: nat)
    requires Inv(s) && p in s.table && p !in s.awake
    ensures NoneMapped(s.gpu, p, s.table[p].chunks, |s.table[p].chunks|)
    ensures CanFreeAddress(s.gpu, p, s.table[p].size)
  {
    var chunks := s.table[p].chunks;
    assert AllocationOk(s, p);
    forall x | x in s.gpu.maps ensures Disjoint(p, s.table[p].size, x, s.gpu.maps[x].size) {
      var q, i := ChunkBehind(s, x);
      ChunksAreDisjoint(q, s.table[q].chunks, i, i);
    }
    forall i | 0 <= i < |chunks| ensures Addrs(p, chunks)[i] !in s.gpu.maps {
      ChunksAreDisjoint(p, chunks, i, i);
    }
  }

  /** All of the allocation's memory is in place, so every call that gives it back is legal. */
  ghost predicate InPlace(g: Gpu, p: nat, a: Allocation) {
    && CanUnmapEach(g, p, a.chunks, |a.chunks|) && CanReleaseEach(g, a.handles, |a.handles|)
    && CanFreeAddress(Unbacked(g, p, a), p, a.size)
  }

  /** The allocation has its address but nothing mapped there. */
  ghost predicate AddressOnly(g: Gpu, p: nat, a: Allocation) {
    a.chunks != [] && NoneMapped(g, p, a.chunks, |a.chunks|) && CanFreeAddress(g, p, a.size)
  }

  /** The chunks of an allocation are mapped inside its range. */
  lemma {:induction false} ChunksAreInside(g: Gpu, base: nat, a: Allocation)
    requires |a.handles| == |a.chunks| && Positive(a.chunks) && Sum(a.chunks) <= a.size
    ensures Backed(g, base, a).maps.Keys == g.maps.Keys + Elements(Addrs(base, a.chunks))
    ensures Elements(Addrs(base, a.chunks)) <= MappedInside(Backed(g, base, a), base, a.size)
  {
    var addrs := Addrs(base, a.chunks);
    AddrsAreDistinct(base, a.chunks);
    InsertAt(g.maps, addrs, Mappings(a));
    forall m | m in addrs ensures m in MappedInside(Backed(g, base, a), base, a.size) {
      var i :| 0 <= i < |addrs| && addrs[i] == m;
      ChunksAreDisjoint(base, a.chunks, i, i);
    }
  }

  /** Nothing is mapped where the chunks are to go. */
  ghost predicate IsFree(g: Gpu, base: nat, chunks: seq<nat>) {
    Unmapped(g, base, Sum(chunks)) && NoneMapped(g, base, chunks, |chunks|)
  }

  /** A new chunk is apart from what was mapped and from the chunks mapped before it. */
  lemma {:induction false} NextIsApart(g: Gpu, base: nat, a: Allocation, n: nat, x: nat)
    requires n < |a.chunks| == |a.handles| && Positive(a.chunks) && Unmapped(g, base, Sum(a.chunks))
    requires x in PartlyBacked(g, base, a, n).maps
    ensures Disjoint(Addr(base, a.chunks, n), a.chunks[n], x, PartlyBacked(g, base, a, n).maps[x].size)
  {
    var addrs := Addrs(base, a.chunks)[..n];
    AddrsAreDistinct(base, a.chunks);
    InsertAt(g.maps, addrs, Mappings(a)[..n]);
    if x in addrs {
      var i :| 0 <= i < n && addrs[i] == x;
      ChunksAreDisjoint(base, a.chunks, i, n);
    } else {
      ChunksAreDisjoint(base, a.chunks, n, n);
    }
  }

  /** With the chunks before it mapped, the next one can be. */
  lemma {:induction false} NextCanBeMapped(g: Gpu, base: nat, a: Allocation, n: nat)
    requires n < |a.chunks| == |a.handles| && Positive(a.chunks) && IsFree(g, base, a.chunks)
    requires AreNew(g.live, a.handles)
    ensures CanMap(PartlyBacked(g, base, a, n), Addr(base, a.chunks, n), a.chunks[n], a.handles[n])
  {
    InsertAt(g.live, a.handles, a.chunks);
    var g', addr := PartlyBacked(g, base, a, n), Addr(base, a.chunks, n);
    forall x | x in g'.maps ensures Disjoint(addr, a.chunks[n], x, g'.maps[x].size) {
      NextIsApart(g, base, a, n, x);
    }
    AddrsAreDistinct(base, a.chunks);
    InsertAt(g.maps, Addrs(base, a.chunks)[..n], Mappings(a)[..n]);
    assert Addrs(base, a.chunks)[n] == addr;
  }

  /** All handles are created and the first `n` chunks are mapped. */
  function PartlyBacked(g: Gpu, base: nat, a: Allocation, n: nat): Gpu
    requires n <= |a.chunks| == |a.handles|
  {
    g.(live := Insert(g.live, a.handles, a.chunks),
       maps := Insert(g.maps, Addrs(base, a.chunks)[..n], Mappings(a)[..n]))
  }

  /** The chunks cover the whole range, so access to it can be given. */
  lemma {:induction false} BackedIsMapped(g: Gpu, base: nat, a: Allocation)
    requires |a.handles| == |a.chunks| && Positive(a.chunks) && Sum(a.chunks) == a.size
    ensures CanSetAccess(Backed(g, base, a), base, a.size)
  {
    var addrs, chunks := Addrs(base, a.chunks), a.chunks;
    AddrsAreDistinct(base, chunks);
    InsertAt(g.maps, addrs, Mappings(a));
    forall x | base <= x < base + a.size ensures IsMapped(Backed(g, base, a), x) {
      assert chunks[..|chunks|] == chunks;
      var i := ChunkOf(base, chunks, x, |chunks|);
      assert addrs[i] in Backed(g, base, a).maps;
    }
  }

  datatype CreateOutcome = Created | CreateFailed | MapFailed | AccessFailed

  /** Why malloc returned a null pointer. */
  datatype Why = QueryFailed | NoAddress | NoCallback | NotMapped(outcome: CreateOutcome)

  datatype MallocResult = Ptr(p: nat) | NullPtr(why: Why) | DivisionByZero

  /** A fresh reservation holds no mapped range. */
  lemma {:induction false} NewReservationIsUnmapped(s: State, base: nat, size: nat)
    requires Inv(s) && CanReserve(s.gpu, base, size)
    ensures CanFreeAddress(s.gpu.(reserved := s.gpu.reserved[base := size]), base, size)
  {
    InvIsSafe(s);
    forall x | x in s.gpu.maps ensures Disjoint(base, size, x, s.gpu.maps[x].size) {
      assert InsideReservation(s.gpu, x);
    }
  }

  /** In a fresh reservation the chunks can be mapped and the address can be freed. */
  lemma {:induction false} ReservationIsReady(s: State, base: nat, size: nat, chunk: nat)
    requires Inv(s) && CanReserve(s.gpu, base, size) && 0 < chunk < TWO_64 && size < TWO_64
    ensures CanFreeAddress(Reserving(s.gpu, base, size), base, size)
    ensures Positive(Chunks(size, chunk))
    ensures Chunks(size, chunk) != [] ==> IsFree(Reserving(s.gpu, base, size), base, Chunks(size, chunk))
  {
    NewReservationIsUnmapped(s, base, size);
    ChunksFit(size, chunk);
    forall i | 0 <= i < |Chunks(size, chunk)| ensures Chunks(size, chunk)[i] > 0 {
      ChunkStarts(size, chunk, i);
    }
    if Chunks(size, chunk) != [] {
      NewReservationIsFree(s, base, Chunks(size, chunk));
    }
  }

  /** Wherever a new address is reserved, nothing is mapped there. */
  ghost predicate NewIsUnmapped(g: Gpu, size: nat) {
    forall address :: CanReserve(g, address, size) ==> Unmapped(g, address, size)
  }

  /** The allocation's memory and address are given back. */
  function GivenBack(g: Gpu, base: nat, a: Allocation): Gpu {
    Unbacked(g, base, a).(reserved := g.reserved - {base})
  }

  /** That is so once an awake allocation is given back. */
  lemma {:induction false} NewIsUnmappedWithout(s: State, p: nat)
    requires Inv(s) && p in s.awake && p in s.table
    ensures NewIsUnmapped(GivenBack(s.gpu, p, s.table[p]), s.table[p].size)
  {
    LullKeepsInv(s, p);
    DropKeepsInv(Lull(s, p), p);
    var s', size := Drop(Lull(s, p), p), s.table[p].size;
    forall address | CanReserve(s'.gpu, address, size) ensures Unmapped(s'.gpu, address, size) {
      NewReservationIsUnmapped(s', address, size);
    }
  }

  lemma {:induction false} NewReservationIsFree(s: State, base: nat, chunks: seq<nat>)
    requires Inv(s) && CanReserve(s.gpu, base, Sum(chunks)) && Positive(chunks)
    ensures IsFree(Reserving(s.gpu, base, Sum(chunks)), base, chunks)
  {
    NewReservationIsUnmapped(s, base, Sum(chunks));
    forall i | 0 <= i < |chunks| ensures Addrs(base, chunks)[i] !in s.gpu.maps {
      var x := Addrs(base, chunks)[i];
      ChunksAreDisjoint(base, chunks, i, i);
      if x in s.gpu.maps {
        var q, j := ChunkBehind(s, x);
        ChunksAreDisjoint(q, s.table[q].chunks, j, j);
      }
    }
  }

  function Reserving(g: Gpu, base: nat, size: nat): Gpu {
    g.(reserved := g.reserved[base := size])
  }

  /** Reserving, registering and backing an allocation is a malloc step. */
  lemma {:induction false} MallocIsStep(s: State, base: nat, a: Allocation)
    requires CanReserve(s.gpu, base, a.size) && |a.handles| == |a.chunks| && AreNew(s.gpu.live, a.handles)
    requires Positive(a.chunks) && Sum(a.chunks) == a.size
    ensures Enabled(s, Malloc(base, a.chunks, a.handles))
    ensures Apply(s, Malloc(base, a.chunks, a.handles)) ==
            State(Backed(Reserving(s.gpu, base, a.size), base, a), s.table[base := a], s.awake + {base})
  {
    var s' := Reserve(s, base, a);
    assert s'.table[base := a] == s.table[base := a];
  }

  /** `Lost`: the address could not be reserved again; `Moved`: it was reserved elsewhere. */
  datatype ReleaseOutcome = Released | Failed | Lost | Moved

  class Allocator {
    const device: Device
    var error: int
    var table: map<nat, Allocation>
    /** The allocations that are mapped. */
    ghost var awake: set<nat>

    constructor (device: Device)
      requires device.gpu == EMPTY.gpu && device.access == {}
      ensures this.device == device && error == 0 && Current() == EMPTY && device.AllAccessible()
    {
      this.device := device;
      error, table, awake := 0, map[], {};
    }

    ghost function Current(): State
      reads this, device
    {
      State(device.gpu, table, awake)
    }

    /** Remembers an error; success leaves an older error in place. */
    method Check(status: int)
      modifies this`error
      ensures error == if status != 0 then status else old(error)
    {
      if status != 0 {
        error := status;
      }
    }

    /** Gives back the handles created so far. */
    method RollBackHandles(handles: seq<nat>, ghost live: map<nat, nat>, ghost chunks: seq<nat>)
      requires |handles| == |chunks| && AreNew(live, handles)
      requires device.gpu.live == Insert(live, handles, chunks)
      modifies device`gpu, device`faults
      ensures device.gpu.maps == old(device.gpu).maps && device.gpu.reserved == old(device.gpu).reserved
      ensures device.faults >= old(device.faults) && (handles == [] ==> device.faults == old(device.faults))
      ensures device.faults == old(device.faults) ==> device.gpu.live == live
    {
      assert handles[..|handles|] == handles;
      InsertAt(live, handles, chunks);
      InsertThenRemove(live, handles, chunks);
      var _ := device.ReleaseEach(handles, |handles|);
    }

    /** Creates one handle per chunk into `cells`; on an error releases those created before. */
    method CreateHandles(cells: array<nat>, chunks: seq<nat>) returns (ok: bool, ghost created: nat)
      requires cells.Length == |chunks|
      modifies this`error, device`gpu, device`faults, device`denials, cells
      // it succeeds unless the driver denies something
      ensures device.denials >= old(device.denials)
      ensures old(error) == 0 && Positive(chunks) && device.denials == old(device.denials) ==> ok
      ensures device.gpu.maps == old(device.gpu).maps && device.gpu.reserved == old(device.gpu).reserved
      ensures device.faults >= old(device.faults)
      ensures ok ==> error == old(error) && device.faults == old(device.faults)
      ensures ok ==>
                device.gpu.live == Insert(old(device.gpu).live, cells[..], chunks)
                && AreNew(old(device.gpu).live, cells[..])
      // a failure from a clean start leaves nothing behind
      ensures !ok ==> error != 0
      // cells that were not filled keep what they held
      ensures created <= cells.Length && (ok ==> created == cells.Length)
      ensures forall i :: created <= i < cells.Length ==> cells[i] == old(cells[i])
      ensures !ok && old(error) == 0 && device.faults == old(device.faults) ==> device.gpu.live == old(device.gpu).live
      // an error from before the call is taken for a failure of the first chunk: if the driver created
      // a handle for it, that one stays live
      ensures old(error) != 0 && chunks != [] ==> !ok && created <= 1 && device.faults == old(device.faults)
      ensures old(error) != 0 && chunks != [] ==> (device.gpu.live == old(device.gpu).live <==> created == 0)
      ensures old(error) != 0 && chunks != [] && created == 1 ==>
                && cells[0] !in old(device.gpu).live
                && device.gpu.live == old(device.gpu).live[cells[0] := chunks[0]]
    {
      ghost var live := device.gpu.live;
      ghost var handles: seq<nat> := [];
      created := 0;
      for i := 0 to |chunks|
        invariant |handles| == i == created && cells[..i] == handles
        invariant forall j :: i <= j < cells.Length ==> cells[j] == old(cells[j])
        invariant device.gpu.live == Insert(live, handles, chunks[..i]) && AreNew(live, handles)
        invariant device.gpu.maps == old(device.gpu).maps && device.gpu.reserved == old(device.gpu).reserved
        invariant error == old(error) && (i > 0 ==> error == 0)
        invariant device.faults == old(device.faults) && device.denials == old(device.denials)
      {
        var status, handle := device.MemCreate(chunks[i]);
        if status != 0 {
          Check(status);
          RollBackHandles(cells[..i], live, chunks[..i]);
          return false, created;
        }
        cells[i], created := handle, created + 1;
        if error != 0 {
          return false, created;
        }
        NewNext(live, handles, chunks[..i], handle);
        InsertNext(live, handles, chunks, handle);
        handles := handles + [handle];
      }
      assert cells[..|chunks|] == cells[..] && chunks[..|chunks|] == chunks;
      ok := true;
    }

    /** Unmaps the chunks mapped so far and gives back all handles. */
    method RollBackMaps(base: nat, a: Allocation, n: nat, ghost g: Gpu)
      requires n <= |a.chunks| == |a.handles|
      requires AreNew(g.live, a.handles) && AreNew(g.maps, Addrs(base, a.chunks)[..n])
      requires device.gpu.live == Insert(g.live, a.handles, a.chunks)
      requires device.gpu.maps == Insert(g.maps, Addrs(base, a.chunks)[..n], Mappings(a)[..n])
      modifies device`gpu, device`access, device`faults
      ensures device.gpu.reserved == old(device.gpu).reserved
      ensures device.faults >= old(device.faults)
      ensures device.faults == old(device.faults) ==> device.gpu.live == g.live && device.gpu.maps == g.maps
      ensures old(device.access) <= g.maps.Keys ==> device.access == old(device.access)
    {
      ghost var addrs, maps := Addrs(base, a.chunks), Mappings(a);
      InsertAt(g.maps, addrs[..n], maps[..n]);
      InsertThenRemove(g.maps, addrs[..n], maps[..n]);
      forall i | 0 <= i < n ensures CanUnmap(device.gpu, addrs[i], a.chunks[i]) {
        assert addrs[i] == addrs[..n][i] && maps[i] == maps[..n][i];
      }
      var _ := device.UnmapEach(base, a.chunks, n);
      RollBackHandles(a.handles, g.live, a.chunks);
    }

    /** Maps the chunks one after the other from `base` on, up to the first error. */
    method MapEach(base: nat, a: Allocation) returns (n: nat)
      requires |a.chunks| == |a.handles| && (error == 0 || a.chunks == [])
      modifies this`error, device`gpu, device`denials
      ensures n <= |a.chunks|
      // it stops only at a call that is not legal or that the driver denies
      ensures n < |a.chunks| && device.denials == old(device.denials) ==>
                !CanMap(device.gpu, Addr(base, a.chunks, n), a.chunks[n], a.handles[n])
      ensures device.denials >= old(device.denials)
      ensures error == if n < |a.chunks| then error else old(error)
      ensures n < |a.chunks| ==> error != 0 && old(error) == 0
      ensures device.gpu.live == old(device.gpu).live && device.gpu.reserved == old(device.gpu).reserved
      ensures AreMapped(old(device.gpu).maps, device.gpu.maps, base, a, n)
    {
      ghost var before := device.gpu.maps;
      var offset := 0;
      for i := 0 to |a.chunks|
        invariant offset == Sum(a.chunks[..i])
        invariant error == old(error) && device.denials == old(device.denials)
        invariant device.gpu.live == old(device.gpu).live && device.gpu.reserved == old(device.gpu).reserved
        invariant AreMapped(before, device.gpu.maps, base, a, i)
      {
        var status := device.MemMap(base + offset, a.chunks[i], a.handles[i]);
        Check(status);
        if error != 0 {
          return i;
        }
        MappedNext(before, base, a, i);
        SumNext(a.chunks, i);
        offset := offset + a.chunks[i];
      }
      n := |a.chunks|;
    }

    /** Maps all chunks; on an error undoes everything. */
    method MapChunks(base: nat, a: Allocation, ghost g: Gpu) returns (ok: bool)
      requires |a.chunks| == |a.handles| && (error == 0 || a.chunks == [])
      requires AreNew(g.live, a.handles) && device.gpu == g.(live := Insert(g.live, a.handles, a.chunks))
      modifies this`error, device
      ensures device.faults >= old(device.faults) && device.gpu.reserved == g.reserved
      ensures ok ==> error == old(error)
      ensures !ok ==> error != 0 && old(error) == 0
      ensures ok ==> device.gpu == Backed(g, base, a) && device.faults == old(device.faults)
      ensures ok || old(device.access) <= g.maps.Keys ==> device.access == old(device.access)
      ensures ok ==> Positive(a.chunks) && AreNew(g.maps, Addrs(base, a.chunks))
      ensures !ok && device.faults == old(device.faults) ==> device.gpu == g
      ensures device.denials >= old(device.denials)
      ensures Positive(a.chunks) && IsFree(g, base, a.chunks) && device.denials == old(device.denials) ==> ok
    {
      var n := MapEach(base, a);
      if n < |a.chunks| {
        if Positive(a.chunks) && IsFree(g, base, a.chunks) {
          NextCanBeMapped(g, base, a, n);
          assert device.gpu == PartlyBacked(g, base, a, n);
        }
        RollBackMaps(base, a, n, g);
        return false;
      }
      assert Addrs(base, a.chunks)[..n] == Addrs(base, a.chunks) && Mappings(a)[..n] == Mappings(a)
             && a.chunks[..n] == a.chunks;
      ok := true;
    }

    /** All chunks or none: a failure to create or map a chunk leaves the device as it was.  A failure
        to set the access rights is not rolled back: it leaves the chunks mapped but inaccessible. */
    method CreateAndMap(base: nat, size: nat, cells: array<nat>, chunks: seq<nat>)
      returns (outcome: CreateOutcome, ghost created: nat)
      requires cells.Length == |chunks|
      modifies this`error, device, cells
      ensures device.faults >= old(device.faults) && device.gpu.reserved == old(device.gpu).reserved
      ensures outcome == Created <==> error == 0
      ensures outcome == Created ==> old(error) == 0
      ensures outcome in {Created, AccessFailed} ==>
                && device.gpu == Backed(old(device.gpu), base, Allocation(size, chunks, cells[..]))
                && AreNew(old(device.gpu).live, cells[..]) && AreNew(old(device.gpu).maps, Addrs(base, chunks))
                && Positive(chunks) && device.faults == old(device.faults)
      ensures outcome in {CreateFailed, MapFailed} && old(error) == 0 && device.faults == old(device.faults) ==>
                device.gpu == old(device.gpu)
      ensures created <= cells.Length && forall i :: created <= i < cells.Length ==> cells[i] == old(cells[i])
      // it succeeds unless the driver denies something, if the range is free and the chunks fill it
      ensures device.denials >= old(device.denials)
      ensures old(error) == 0 && Positive(chunks) && Sum(chunks) == size && IsFree(old(device.gpu), base, chunks)
              && device.denials == old(device.denials) ==>
                outcome == Created
      // the whole range is mapped and accessible afterwards, or no access changed
      ensures outcome == Created ==>
                && CanSetAccess(device.gpu, base, size)
                && device.access == old(device.access) + MappedInside(device.gpu, base, size)
      ensures outcome == Created && Sum(chunks) <= size ==> Elements(Addrs(base, chunks)) <= device.access
      ensures outcome == Created && Sum(chunks) <= size && old(device.AllAccessible()) ==> device.AllAccessible()
      ensures outcome != Created && (old(error) == 0 || chunks != [])
              && old(device.access) <= old(device.gpu).maps.Keys ==>
                device.access == old(device.access)
      // entered with an old error it stops after the first chunk and keeps that chunk's handle, if there is one
      ensures old(error) != 0 && chunks != [] ==>
                && outcome == CreateFailed && created <= 1 && device.gpu.maps == old(device.gpu).maps
                && (device.gpu.live == old(device.gpu).live <==> created == 0)
      ensures old(error) != 0 && chunks != [] && created == 1 ==>
                && cells[0] !in old(device.gpu).live
                && device.gpu.live == old(device.gpu).live[cells[0] := chunks[0]]
    {
      ghost var g := device.gpu;
      var ok;
      ok, created := CreateHandles(cells, chunks);
      if !ok {
        return CreateFailed, created;
      }
      var a := Allocation(size, chunks, cells[..]);
      ok := MapChunks(base, a, g);
      if !ok {
        return MapFailed, created;
      }
      if Sum(chunks) == size {
        BackedIsMapped(g, base, a);
      }
      var status := device.MemSetAccess(base, size);
      Check(status);
      if Sum(chunks) <= size {
        ChunksAreInside(g, base, a);
      }
      outcome := if error != 0 then AccessFailed else Created;
    }

    /** Unmaps and releases every chunk, then frees the address and reserves it again, which makes
        the driver give the pages back. */
    method UnmapAndRelease(base: nat, size: nat, a: Allocation) returns (outcome: ReleaseOutcome)
      modifies this`error, device
      ensures device.faults >= old(device.faults)
      ensures error == old(error) || outcome != Released
      ensures outcome != Released ==> error != 0
      ensures outcome != Failed ==>
                && device.gpu.live == old(device.gpu).live - Elements(a.handles)
                && device.gpu.maps == old(device.gpu).maps - Elements(Addrs(base, a.chunks))
                && base in old(device.gpu).reserved && old(device.gpu).reserved[base] == size
      ensures outcome == Released ==> device.gpu.reserved == old(device.gpu).reserved
      ensures outcome == Failed ==> device.gpu.reserved == old(device.gpu).reserved
      ensures outcome in {Lost, Moved} ==> base !in device.gpu.reserved
      ensures outcome == Lost ==> device.gpu.reserved == old(device.gpu).reserved - {base}
      // an address that was reserved elsewhere is given back
      ensures outcome == Moved && device.faults == old(device.faults)
              && NewIsUnmapped(GivenBack(old(device.gpu), base, a), size) ==>
                device.gpu.reserved == old(device.gpu).reserved - {base}
      // whatever goes wrong, what is unmapped loses its access and nothing else does
      ensures old(device.AllAccessible()) ==> device.AllAccessible()
      // refused only for a reason
      ensures CanUnmapEach(old(device.gpu), base, a.chunks, |a.chunks|)
              && CanReleaseEach(old(device.gpu), a.handles, |a.handles|)
              && device.faults == old(device.faults) ==>
                && device.gpu.live == old(device.gpu).live - Elements(a.handles)
                && device.gpu.maps == old(device.gpu).maps - Elements(Addrs(base, a.chunks))
                && (CanFreeAddress(Unbacked(old(device.gpu), base, a), base, size) <==> outcome != Failed)
      // nothing mapped: that is an error, but the handle values are released all the same
      ensures a.chunks != [] && NoneMapped(old(device.gpu), base, a.chunks, |a.chunks|) ==>
                && outcome == Failed && device.gpu.maps == old(device.gpu).maps
                && (device.faults == old(device.faults) ==>
                      device.gpu.live == old(device.gpu).live - Elements(a.handles))
    {
      assert Addrs(base, a.chunks)[..|a.chunks|] == Addrs(base, a.chunks) && a.handles[..|a.handles|] == a.handles;
      var first := device.UnmapEach(base, a.chunks, |a.chunks|);
      var status := device.ReleaseEach(a.handles, |a.handles|);
      if first == 0 {
        first := status;
      }
      if first == 0 {
        assert device.gpu == Unbacked(old(device.gpu), base, a);
        first := device.AddressFree(base, size);
        if first == 0 {
          var address;
          first, address := device.AddressReserve(size);
          if first != 0 {
            Check(first);
            return Lost;
          }
          if address != base {
            var _ := device.AddressFree(address, size);
            error := 1;
            return Moved;
          }
          assert device.gpu.reserved == old(device.gpu).reserved;
        }
      }
      Check(first);
      outcome := if first == 0 then Released else Failed;
    }

    /** Puts the allocation at `p` to sleep.  Any error, an old one included, is raised and cleared. */
    method PythonUnmapAndRelease(p: nat) returns (raised: bool, outcome: ReleaseOutcome)
      requires p in table
      modifies this`error, this`awake, device
      ensures error == 0
      ensures raised <==> old(error) != 0 || outcome != Released
      ensures outcome == Released ==> Current() == Lull(old(Current()), p)
      ensures outcome != Released ==> awake == old(awake)
      ensures old(device.AllAccessible()) ==> device.AllAccessible()
      ensures !raised && p in old(awake) ==>
                Enabled(old(Current()), Sleep(p)) && Current() == Apply(old(Current()), Sleep(p))
      // an awake allocation gives its memory back; all that can go wrong is losing the address
      ensures Inv(old(Current())) && p in old(awake) && device.faults == old(device.faults) ==>
                && outcome != Failed
                && device.gpu.live == Lull(old(Current()), p).gpu.live
                && device.gpu.maps == Lull(old(Current()), p).gpu.maps
                && (outcome != Released ==> device.gpu.reserved == old(device.gpu).reserved - {p})
    {
      ghost var s := Current();
      if Inv(s) && p in awake {
        AwakeCanBeGivenBack(s, p);
        NewIsUnmappedWithout(s, p);
      }
      outcome := UnmapAndRelease(p, table[p].size, table[p]);
      if outcome == Released {
        awake := awake - {p};
      }
      raised := error != 0;
      error := 0;
    }

    /** Wakes the allocation at `p`: its handle cells are filled anew. */
    method PythonCreateAndMap(p: nat) returns (raised: bool, outcome: CreateOutcome, ghost created: nat)
      requires p in table && |table[p].handles| == |table[p].chunks|
      modifies this, device
      ensures p in table && error == 0 && table == old(table)[p := old(table[p]).(handles := table[p].handles)]
      ensures |table[p].handles| == |table[p].chunks|
      // handle cells that were not filled keep the values from before the sleep
      ensures created <= |table[p].handles|
      ensures forall i :: created <= i < |table[p].handles| ==> table[p].handles[i] == old(table[p]).handles[i]
      ensures raised <==> outcome != Created
      ensures !raised && p !in old(awake) ==>
                && Enabled(old(Current()), Wake(p, table[p].handles))
                && Current() == Apply(old(Current()), Wake(p, table[p].handles))
      ensures raised ==> awake == old(awake) && device.gpu.reserved == old(device.gpu).reserved
      // from a clean start a sleeping allocation wakes unless the driver denies something
      ensures Inv(old(Current())) && p !in old(awake) && old(error) == 0 && device.denials == old(device.denials) ==>
                !raised
      // awake again, every chunk is accessible; a failure never gives access to anything
      ensures !raised && Sum(table[p].chunks) <= table[p].size ==> Elements(Addrs(p, table[p].chunks)) <= device.access
      ensures !raised && Sum(table[p].chunks) <= table[p].size && old(device.AllAccessible()) ==> device.AllAccessible()
      ensures raised && (old(error) == 0 || table[p].chunks != []) && old(device.AllAccessible()) ==>
                device.access == old(device.access)
      // all or nothing, unless only the access rights failed
      ensures raised && old(error) == 0 && outcome != AccessFailed && device.faults == old(device.faults) ==>
                device.gpu == old(device.gpu)
      ensures outcome == AccessFailed ==> device.gpu == Backed(old(device.gpu), p, table[p])
      // an old error makes the wake-up fail and leaks the first chunk's handle, if there is one
      ensures old(error) != 0 && old(table[p]).chunks != [] ==>
                && outcome == CreateFailed && created <= 1 && device.gpu.maps == old(device.gpu).maps
                && (device.gpu.live == old(device.gpu).live <==> created == 0)
      ensures old(error) != 0 && old(table[p]).chunks != [] && created == 1 ==>
                && table[p].handles != [] && table[p].handles[0] !in old(device.gpu).live
                && device.gpu.live == old(device.gpu).live[table[p].handles[0] := old(table[p]).chunks[0]]
    {
      var a := table[p];
      if Inv(Current()) && p !in awake {
        SleeperIsUnmapped(Current(), p);
        assert AllocationOk(Current(), p);
      }
      var cells := new nat[|a.handles|](i requires 0 <= i < |a.handles| => a.handles[i]);
      outcome, created := CreateAndMap(p, a.size, cells, a.chunks);
      table := table[p := a.(handles := cells[..])];
      if error == 0 {
        awake := awake + {p};
      }
      raised := error != 0;
      error := 0;
    }

    /** The part of malloc after the address is reserved: register the allocation, map it, and free
        the address again if that failed.  The registration is not undone. */
    method MapNew(base: nat, size: nat, chunks: seq<nat>) returns (outcome: CreateOutcome)
      requires error == 0 && base in device.gpu.reserved && device.gpu.reserved[base] == size > 0
      modifies this, device
      ensures outcome == Created <==> error == 0
      ensures base in table && |table[base].handles| == |chunks|
      ensures table == old(table)[base := Allocation(size, chunks, table[base].handles)]
      ensures outcome == Created ==>
                && device.gpu == Backed(old(device.gpu), base, table[base]) && awake == old(awake) + {base}
                && AreNew(old(device.gpu).live, table[base].handles) && Positive(chunks)
      ensures outcome == Created && Sum(chunks) <= size ==>
                && Elements(Addrs(base, chunks)) <= device.access
                && (old(device.AllAccessible()) ==> device.AllAccessible())
      ensures outcome == Created && CanFreeAddress(old(device.gpu), base, size) ==> chunks != []
      ensures device.denials >= old(device.denials)
      ensures Positive(chunks) && Sum(chunks) == size && IsFree(old(device.gpu), base, chunks)
              && device.denials == old(device.denials) ==>
                outcome == Created
      ensures outcome != Created ==> awake == old(awake)
      ensures outcome != Created && old(device.AllAccessible()) ==> device.access == old(device.access)
      ensures outcome in {CreateFailed, MapFailed} && CanFreeAddress(old(device.gpu), base, size)
              && device.faults == old(device.faults) ==>
                device.gpu == old(device.gpu).(reserved := old(device.gpu).reserved - {base})
      ensures outcome == AccessFailed && chunks != [] ==>
                && device.gpu == Backed(old(device.gpu), base, table[base])
                && AreNew(old(device.gpu).live, table[base].handles) && base in device.gpu.maps
    {
      var cells := new nat[|chunks|](_ => 0);
      table := table[base := Allocation(size, chunks, cells[..])];
      ghost var created;
      outcome, created := CreateAndMap(base, size, cells, chunks);
      table := table[base := Allocation(size, chunks, cells[..])];
      if error != 0 {
        if outcome == AccessFailed && chunks != [] {
          StillMapped(old(device.gpu), base, table[base]);
        }
        var status := device.AddressFree(base, size);
        Check(status);
      } else {
        assert Backed(old(device.gpu), base, Allocation(size, [], [])) == old(device.gpu);
        assert CanSetAccess(device.gpu, base, size) ==> IsMapped(device.gpu, base);
        awake := awake + {base};
      }
    }

    /** The start of malloc: query the granularity, round the size up and reserve an address. */
    method ReserveAligned(size: nat) returns (ok: bool, why: Why, granularity: nat, aligned: nat, base: nat)
      modifies this`error, device`gpu, device`denials
      ensures device.denials >= old(device.denials) && (ok ==> device.denials == old(device.denials))
      ensures old(error) == 0 && device.denials == old(device.denials) ==>
                0 < granularity < TWO_64 && (ok <==> AlignUp(size, granularity) > 0)
      ensures ok ==> error == 0 == old(error) && 0 < granularity < TWO_64 && aligned == AlignUp(size, granularity)
      ensures ok ==> CanReserve(old(device.gpu), base, aligned)
      ensures ok ==> device.gpu == old(device.gpu).(reserved := old(device.gpu).reserved[base := aligned])
      ensures !ok ==> error != 0 && device.gpu == old(device.gpu) && why in {QueryFailed, NoAddress}
      ensures old(error) != 0 ==> !ok && why == QueryFailed
    {
      ok, why, aligned, base := false, QueryFailed, 0, 0;
      var status;
      status, granularity := device.AllocationGranularity();
      Check(status);
      if error != 0 {
        return;
      }
      aligned := AlignUp(size, granularity);
      status, base := device.AddressReserve(aligned);
      Check(status);
      ok, why := error == 0, NoAddress;
    }

    method MyMalloc(size: nat, setting: ChunkSetting, callbackOk: bool)
      returns (r: MallocResult, ghost granularity: nat, ghost base: nat)
      modifies this, device
      // an old error makes every malloc fail
      ensures old(error) != 0 ==> r == NullPtr(QueryFailed)
      ensures r in {NullPtr(QueryFailed), NullPtr(NoAddress)} ==> Current() == old(Current()) && error != 0
      // success is a malloc step: a chunk count that wraps maps nothing, and then giving access fails
      ensures r.Ptr? ==> 0 < granularity < TWO_64 && r.p in table && error == 0
      ensures r.Ptr? ==> var chunk := AlignUp(ConfiguredChunk(setting), granularity);
                chunk > 0 && table[r.p].size == AlignUp(size, granularity)
                && table[r.p].chunks == Chunks(table[r.p].size, chunk)
      ensures r.Ptr? && Sum(table[r.p].chunks) == table[r.p].size ==>
                var step := Malloc(r.p, table[r.p].chunks, table[r.p].handles);
                Enabled(old(Current()), step) && Current() == Apply(old(Current()), step)
      ensures r.Ptr? && Inv(old(Current())) ==> Sum(table[r.p].chunks) == table[r.p].size
      // from a clean start, if the driver denies nothing, it succeeds exactly when no rounding comes to zero or wraps
      ensures Inv(old(Current())) && old(error) == 0 && callbackOk && device.denials == old(device.denials) ==>
                && 0 < granularity < TWO_64
                && var aligned, chunk := AlignUp(size, granularity), AlignUp(ConfiguredChunk(setting), granularity);
                   r.Ptr? <==> aligned > 0 && chunk > 0 && aligned + chunk - 1 < TWO_64
      // every chunk behind the pointer is accessible; a failure never gives access to anything
      ensures r.Ptr? ==>
                && Elements(Addrs(r.p, table[r.p].chunks)) <= device.access
                && (old(device.AllAccessible()) ==> device.AllAccessible())
      ensures !r.Ptr? && old(device.AllAccessible()) ==> device.access == old(device.access)
      // once the address is reserved, rounding the chunk size to zero is a division by zero
      ensures r !in {NullPtr(QueryFailed), NullPtr(NoAddress)} ==>
                && 0 < granularity < TWO_64
                && (r == DivisionByZero <==> ConfiguredChunk(setting) + granularity - 1 >= TWO_64)
      // a missing or failing callback leaks the reservation and nothing else
      ensures r == NullPtr(NoCallback) ==> !callbackOk
      ensures !callbackOk ==> r == DivisionByZero || (r.NullPtr? && !r.why.NotMapped?)
      ensures r == NullPtr(NoCallback) ==>
                && error == 0 && granularity > 0 && base !in old(device.gpu).reserved
                && Current() == old(Current()).(gpu := Reserving(old(device.gpu), base, AlignUp(size, granularity)))
      // once the callback has run, failing leaves a stale table entry for a new address
      ensures r.NullPtr? && r.why.NotMapped? ==>
                && error != 0 && base !in old(device.gpu).reserved && awake == old(awake)
                && base in table && table == old(table)[base := table[base]]
                && granularity > 0 && table[base].size == AlignUp(size, granularity)
                && |table[base].handles| == |table[base].chunks|
      // a chunk that could not be created or mapped leaves the device as it was
      ensures r in {NullPtr(NotMapped(CreateFailed)), NullPtr(NotMapped(MapFailed))} && Inv(old(Current()))
              && device.faults == old(device.faults) ==>
                device.gpu == old(device.gpu)
      // failing access rights leak everything: the address, every handle and every mapping
      ensures r == NullPtr(NotMapped(AccessFailed)) && table[base].chunks != [] ==>
                && device.gpu == Backed(Reserving(old(device.gpu), base, table[base].size), base, table[base])
                && AreNew(old(device.gpu).live, table[base].handles) && base in device.gpu.maps
    {
      ghost var s := Current();
      var ok, why, g, aligned, address := ReserveAligned(size);
      granularity, base := g, address;
      if !ok {
        return NullPtr(why), granularity, base;
      }
      var chunk := AlignUp(ConfiguredChunk(setting), g);
      AlignUpIsExact(ConfiguredChunk(setting), g);
      if chunk == 0 {
        return DivisionByZero, granularity, base;
      }
      var chunks := FillChunks(aligned, chunk);
      if !callbackOk {
        return NullPtr(NoCallback), granularity, base;
      }
      ChunksFit(aligned, chunk);
      if Inv(s) {
        ReservationIsReady(s, address, aligned, chunk);
      }
      var outcome := MapNew(address, aligned, chunks[..]);
      if outcome != Created {
        assert s.gpu.reserved[address := aligned] - {address} == s.gpu.reserved;
        return NullPtr(NotMapped(outcome)), granularity, base;
      }
      if Sum(table[address].chunks) == table[address].size {
        MallocIsStep(s, address, table[address]);
      }
      r := Ptr(address);
    }

    /** What free does once it knows the allocation. */
    method GiveBack(p: nat, size: nat, a: Allocation)
      modifies this`error, device
      ensures old(device.AllAccessible()) ==> device.AllAccessible()
      // an allocation whose memory can be given back
      ensures InPlace(old(device.gpu), p, a) && device.faults == old(device.faults) ==>
                && device.gpu.live == old(device.gpu).live - Elements(a.handles)
                && device.gpu.maps == old(device.gpu).maps - Elements(Addrs(p, a.chunks))
                && (p in device.gpu.reserved <==> size != a.size)
                && (size != a.size ==> error != 0 && device.gpu.reserved == old(device.gpu).reserved)
      ensures error == 0 ==>
                device.gpu == Unbacked(old(device.gpu), p, a).(reserved := old(device.gpu).reserved - {p})
      // one with nothing mapped
      ensures AddressOnly(old(device.gpu), p, a) && device.faults == old(device.faults) ==>
                && error != 0 && device.gpu.maps == old(device.gpu).maps
                && device.gpu.live == old(device.gpu).live - Elements(a.handles)
                && device.gpu.reserved ==
                   if size == a.size then old(device.gpu).reserved - {p} else old(device.gpu).reserved
    {
      var outcome := UnmapAndRelease(p, size, a);
      var status := device.AddressFree(p, size);
      Check(status);
    }

    /** Frees the allocation at `p` with the size the caller passes; an unknown pointer is ignored.
        An allocation in place gives back all memory, and the address exactly when that size is the
        reserved one. */
    method MyFree(p: nat, size: nat)
      modifies this, device
      ensures p !in old(table) ==> Current() == old(Current()) && error == old(error)
      ensures p in old(table) ==> table == old(table) - {p} && awake == old(awake) - {p}
      ensures old(device.AllAccessible()) ==> device.AllAccessible()
      ensures p in old(table) && InPlace(old(device.gpu), p, old(table)[p]) && device.faults == old(device.faults) ==>
                && device.gpu.live == Lull(old(Current()), p).gpu.live
                && device.gpu.maps == Lull(old(Current()), p).gpu.maps
                && (p in device.gpu.reserved <==> size != old(table)[p].size)
                && (size != old(table)[p].size ==> error != 0 && device.gpu.reserved == old(device.gpu).reserved)
      ensures p in old(table) && p in old(awake) && error == 0 ==>
                Enabled(old(Current()), Free(p)) && Current() == Apply(old(Current()), Free(p))
      // one with nothing mapped gives back its address in the same case, and the handle values it had
      // when it was awake are released, whoever has them now
      ensures p in old(table) && AddressOnly(old(device.gpu), p, old(table)[p])
              && device.faults == old(device.faults) ==>
                error != 0 && device.gpu == SleeperFreed(old(Current()), p, size == old(table)[p].size)
    {
      if p !in table {
        return;
      }
      var a := table[p];
      table, awake := table - {p}, awake - {p};
      GiveBack(p, size, a);
    }
  }

  /** In every reachable state an awake allocation is in place, and a sleeping one has its address only. */
  lemma {:induction false} AwakeOrAddressOnly(s: State, p: nat)
    requires Inv(s) && p in s.table && s.table[p].chunks != []
    ensures if p in s.awake then InPlace(s.gpu, p, s.table[p]) else AddressOnly(s.gpu, p, s.table[p])
  {
    if p in s.awake {
      AwakeCanBeGivenBack(s, p);
    } else {
      SleeperIsUnmapped(s, p);
    }
  }

  /** With access to every mapped range, an address of an allocation can be used exactly while it is awake. */
  lemma {:induction false} AccessibleExactlyAwake(s: State, access: set<nat>, p: nat, x: nat)
    requires Inv(s) && access == s.gpu.maps.Keys && p in s.table && p <= x < p + s.table[p].size
    ensures p in s.awake <==> exists m :: m in access && m <= x < m + s.gpu.maps[m].size
  {
    var chunks := s.table[p].chunks;
    assert AllocationOk(s, p) && chunks[..|chunks|] == chunks;
    if p in s.awake {
      var i := ChunkOf(p, chunks, x, |chunks|);
      AwakeMaps(s, p, i);
    } else {
      SleeperIsUnmapped(s, p);
    }
  }

  /** What freeing a sleeping allocation makes of the device, with or without giving back the address. */
  function SleeperFreed(s: State, p: nat, address: bool): Gpu
    requires p in s.table
  {
    s.gpu.(live := s.gpu.live - Elements(s.table[p].handles),
           reserved := if address then s.gpu.reserved - {p} else s.gpu.reserved)
  }

  /** Device memory stays in order exactly when no remembered handle value is in use by another allocation. */
  lemma {:induction false} SleeperFreedIsSafe(s: State, p: nat, address: bool)
    requires Inv(s) && p in s.table && p !in s.awake
    ensures Safe(SleeperFreed(s, p, address)) <==> Elements(s.table[p].handles) !! s.gpu.live.Keys
  {
    var g' := SleeperFreed(s, p, address);
    InvIsSafe(s);
    forall x | x in s.gpu.maps ensures InsideReservation(g', x) {
      InsideAnother(s, p, x);
    }
    SafeWithout(s.gpu, Elements(s.table[p].handles), g'.reserved);
  }

  /** Releasing handles leaves device memory in order exactly when none of them is live. */
  lemma {:induction false} SafeWithout(g: Gpu, hs: set<nat>, reserved: map<nat, nat>)
    requires Safe(g) && forall x :: x in g.maps ==> InsideReservation(g.(reserved := reserved), x)
    ensures Safe(g.(live := g.live - hs, reserved := reserved)) <==> hs !! g.live.Keys
  {
    var g' := g.(live := g.live - hs, reserved := reserved);
    if h :| h in hs && h in g.live {
      var x :| x in g.maps && g.maps[x].handle == h;
      assert x in g'.maps && g'.maps[x].handle !in g'.live;
    } else {
      assert g'.live == g.live;
      assert forall x :: x in g.maps ==> InsideReservation(g', x);
    }
  }

  /** A mapped range lies in the reservation of another allocation than one that sleeps. */
  lemma {:induction false} InsideAnother(s: State, p: nat, x: nat)
    requires Inv(s) && p in s.table && p !in s.awake && x in s.gpu.maps
    ensures exists r :: r in s.gpu.reserved - {p} && r <= x && x + s.gpu.maps[x].size <= r + s.gpu.reserved[r]
  {
    var q, i := ChunkBehind(s, x);
    ChunksAreDisjoint(q, s.table[q].chunks, i, i);
    assert q in s.gpu.reserved - {p};
  }

  /** The size a caller asked for is the reserved size exactly when it is a multiple of the granularity. */
  lemma {:induction false} ReservedIsAskedFor(size: nat, granularity: nat)
    requires 0 < granularity < TWO_64 && size + granularity - 1 < TWO_64
    ensures AlignUp(size, granularity) == size <==> size % granularity == 0
  {
    AlignUpIsExact(size, granularity);
    var up, q := AlignUp(size, granularity), size / granularity;
    if size % granularity == 0 && up != size {
      assert up == granularity * (up / granularity) && size == granularity * q;
      DivUnique(up, granularity, q, up - size);
    }
  }

  /** A mapped allocation's address cannot be freed. */
  lemma {:induction false} StillMapped(g: Gpu, base: nat, a: Allocation)
    requires |a.handles| == |a.chunks| && a.chunks != [] && Positive(a.chunks) && a.size > 0
    ensures base in Backed(g, base, a).maps && !CanFreeAddress(Backed(g, base, a), base, a.size)
  {
    AddrsAreDistinct(base, a.chunks);
    InsertAt(g.maps, Addrs(base, a.chunks), Mappings(a));
    assert Addrs(base, a.chunks)[0] == base;
  }
}
