/** The driver calls the allocator makes.  A call that is not legal in the current state fails and
    changes nothing; a legal call may fail as well, at the driver's whim.  Addresses and handles are
    the driver's choice.  */
module CumemDevice {
  import opened CumemState
  import CumemChunks

  predicate Unmapped(g: Gpu, addr: nat, size: nat) {
    forall x :: x in g.maps ==> Disjoint(addr, size, x, g.maps[x].size)
  }

  predicate CanReserve(g: Gpu, addr: nat, size: nat) {
    size > 0 && addr !in g.reserved && forall b :: b in g.reserved ==> Disjoint(addr, size, b, g.reserved[b])
  }

  predicate CanFreeAddress(g: Gpu, addr: nat, size: nat) {
    addr in g.reserved && g.reserved[addr] == size && Unmapped(g, addr, size)
  }

  predicate CanMap(g: Gpu, addr: nat, size: nat, h: nat) {
    size > 0 && h in g.live && g.live[h] == size && addr !in g.maps && Unmapped(g, addr, size)
  }

  predicate CanUnmap(g: Gpu, addr: nat, size: nat) {
    addr in g.maps && g.maps[addr].size == size
  }

  predicate IsMapped(g: Gpu, x: nat) {
    exists m :: m in g.maps && m <= x < m + g.maps[m].size
  }

  /** The mapped ranges that lie in `[addr, addr + size)`. */
  function MappedInside(g: Gpu, addr: nat, size: nat): set<nat> {
    set m | m in g.maps && addr <= m && m + g.maps[m].size <= addr + size
  }

  /** Access can be given to addresses only that are mapped. */
  predicate CanSetAccess(g: Gpu, addr: nat, size: nat) {
    forall x :: addr <= x < addr + size ==> IsMapped(g, x)
  }

  /** The chunks `[0, n)` placed at `base` can be unmapped one after the other. */
  ghost predicate CanUnmapEach(g: Gpu, base: nat, chunks: seq<nat>, n: nat)
    requires n <= |chunks|
  {
    Distinct(Addrs(base, chunks)[..n]) && forall i :: 0 <= i < n ==> CanUnmap(g, Addrs(base, chunks)[i], chunks[i])
  }

  ghost predicate CanReleaseEach(g: Gpu, handles: seq<nat>, n: nat)
    requires n <= |handles|
  {
    Distinct(handles[..n]) && forall i :: 0 <= i < n ==> handles[i] in g.live
  }

  ghost predicate NoneMapped(g: Gpu, base: nat, chunks: seq<nat>, n: nat)
    requires n <= |chunks|
  {
    forall i :: 0 <= i < n ==> Addrs(base, chunks)[i] !in g.maps
  }

  class Device {
    var gpu: Gpu
    /** The mapped ranges that kernels may read and write, by their addresses. */
    var access: set<nat>
    /** Legal calls to give memory back that failed nevertheless. */
    ghost var faults: nat
    /** Legal calls to get memory or access that failed nevertheless. */
    ghost var denials: nat

    constructor ()
      ensures gpu == Gpu(map[], map[], map[]) && access == {} && faults == 0 && denials == 0
    {
      gpu := Gpu(map[], map[], map[]);
      access, faults, denials := {}, 0, 0;
    }

    /** Every mapped range is accessible, and nothing else is. */
    ghost predicate AllAccessible()
      reads this
    {
      access == gpu.maps.Keys
    }

    method AllocationGranularity() returns (status: int, granularity: nat)
      modifies this`denials
      ensures status == 0 ==> 0 < granularity < CumemChunks.TWO_64
      ensures denials == old(denials) + if status != 0 then 1 else 0
    {
      status, granularity := *, *;
      if status == 0 && !(0 < granularity < CumemChunks.TWO_64) {
        status := 1;
      }
      if status != 0 {
        denials := denials + 1;
      }
    }

    method AddressReserve(size: nat) returns (status: int, addr: nat)
      modifies this`gpu, this`denials
      ensures denials == old(denials) + if status != 0 && size > 0 then 1 else 0
      ensures status == 0 ==>
                CanReserve(old(gpu), addr, size) && gpu == old(gpu).(reserved := old(gpu).reserved[addr := size])
      ensures status != 0 ==> gpu == old(gpu)
    {
      status, addr := *, *;
      if status == 0 && !CanReserve(gpu, addr, size) {
        status := 1;
      }
      if status == 0 {
        gpu := gpu.(reserved := gpu.reserved[addr := size]);
      } else if size > 0 {
        denials := denials + 1;
      }
    }

    method AddressFree(addr: nat, size: nat) returns (status: int)
      modifies this`gpu, this`faults
      ensures status == 0 ==>
                CanFreeAddress(old(gpu), addr, size) && gpu == old(gpu).(reserved := old(gpu).reserved - {addr})
      ensures status != 0 ==> gpu == old(gpu)
      ensures faults == old(faults) + if status != 0 && CanFreeAddress(old(gpu), addr, size) then 1 else 0
    {
      status := *;
      if !CanFreeAddress(gpu, addr, size) {
        status := 1;
      } else if status == 0 {
        gpu := gpu.(reserved := gpu.reserved - {addr});
      } else {
        faults := faults + 1;
      }
    }

    method MemCreate(size: nat) returns (status: int, handle: nat)
      modifies this`gpu, this`denials
      ensures denials == old(denials) + if status != 0 && size > 0 then 1 else 0
      ensures status == 0 ==> handle !in old(gpu).live && gpu == old(gpu).(live := old(gpu).live[handle := size])
      ensures status != 0 ==> gpu == old(gpu)
    {
      status, handle := *, *;
      if status == 0 && handle in gpu.live {
        status := 1;
      }
      if status == 0 {
        gpu := gpu.(live := gpu.live[handle := size]);
      } else if size > 0 {
        denials := denials + 1;
      }
    }

    method MemMap(addr: nat, size: nat, handle: nat) returns (status: int)
      modifies this`gpu, this`denials
      ensures denials == old(denials) + if status != 0 && CanMap(old(gpu), addr, size, handle) then 1 else 0
      ensures status == 0 ==>
                CanMap(old(gpu), addr, size, handle)
                && gpu == old(gpu).(maps := old(gpu).maps[addr := Mapping(size, handle)])
      ensures status != 0 ==> gpu == old(gpu)
    {
      status := *;
      if !CanMap(gpu, addr, size, handle) {
        status := 1;
      } else if status == 0 {
        gpu := gpu.(maps := gpu.maps[addr := Mapping(size, handle)]);
      } else {
        denials := denials + 1;
      }
    }

    /** Takes away the access along with the mapping. */
    method MemUnmap(addr: nat, size: nat) returns (status: int)
      modifies this`gpu, this`access, this`faults
      ensures access == if status == 0 then old(access) - {addr} else old(access)
      ensures status == 0 ==> CanUnmap(old(gpu), addr, size) && gpu == old(gpu).(maps := old(gpu).maps - {addr})
      ensures status != 0 ==> gpu == old(gpu)
      ensures faults == old(faults) + if status != 0 && CanUnmap(old(gpu), addr, size) then 1 else 0
    {
      status := *;
      if !CanUnmap(gpu, addr, size) {
        status := 1;
      } else if status == 0 {
        gpu := gpu.(maps := gpu.maps - {addr});
        access := access - {addr};
      } else {
        faults := faults + 1;
      }
    }

    method MemRelease(handle: nat) returns (status: int)
      modifies this`gpu, this`faults
      ensures status == 0 ==> handle in old(gpu).live && gpu == old(gpu).(live := old(gpu).live - {handle})
      ensures status != 0 ==> gpu == old(gpu)
      ensures faults == old(faults) + if status != 0 && handle in old(gpu).live then 1 else 0
    {
      status := *;
      if handle !in gpu.live {
        status := 1;
      } else if status == 0 {
        gpu := gpu.(live := gpu.live - {handle});
      } else {
        faults := faults + 1;
      }
    }

    method MemSetAccess(addr: nat, size: nat) returns (status: int)
      modifies this`access, this`denials
      ensures denials == old(denials) + if status != 0 && CanSetAccess(gpu, addr, size) then 1 else 0
      ensures status == 0 ==> CanSetAccess(gpu, addr, size)
      ensures access == if status == 0 then old(access) + MappedInside(gpu, addr, size) else old(access)
    {
      status := *;
      if !CanSetAccess(gpu, addr, size) {
        status := 1;
      } else if status == 0 {
        access := access + MappedInside(gpu, addr, size);
      } else {
        denials := denials + 1;
      }
    }

    /** Unmaps the first `n` chunks in order and goes on after a failure; `first` is the first error. */
    method UnmapEach(base: nat, chunks: seq<nat>, n: nat) returns (first: int)
      requires n <= |chunks|
      modifies this`gpu, this`access, this`faults
      ensures gpu.live == old(gpu).live && gpu.reserved == old(gpu).reserved && faults >= old(faults)
      ensures first == 0 ==> gpu.maps == old(gpu).maps - Elements(Addrs(base, chunks)[..n])
      // access goes exactly where the mapping goes, failures or not
      ensures old(gpu).maps.Keys - Elements(Addrs(base, chunks)[..n]) <= gpu.maps.Keys <= old(gpu).maps.Keys
      ensures access == old(access) - (old(gpu).maps.Keys - gpu.maps.Keys)
      ensures CanUnmapEach(old(gpu), base, chunks, n) && faults == old(faults) ==> first == 0
      // chunks that are not mapped are errors and change nothing
      ensures NoneMapped(old(gpu), base, chunks, n) ==> gpu == old(gpu) && (n > 0 ==> first != 0)
    {
      first := 0;
      var offset := 0;
      ghost var addrs := Addrs(base, chunks);
      for i := 0 to n
        invariant offset == CumemChunks.Sum(chunks[..i])
        invariant gpu.live == old(gpu).live && gpu.reserved == old(gpu).reserved && faults >= old(faults)
        invariant first == 0 ==> gpu.maps == old(gpu).maps - Elements(addrs[..i])
        invariant old(gpu).maps.Keys - Elements(addrs[..i]) <= gpu.maps.Keys <= old(gpu).maps.Keys
        invariant access == old(access) - (old(gpu).maps.Keys - gpu.maps.Keys)
        invariant CanUnmapEach(old(gpu), base, chunks, n) && faults == old(faults) ==> first == 0
        invariant NoneMapped(old(gpu), base, chunks, n) ==> gpu == old(gpu) && (i > 0 ==> first != 0)
      {
        assert addrs[i] == base + offset && addrs[..i + 1] == addrs[..i] + [addrs[i]];
        assert chunks[..i + 1][..i] == chunks[..i];
        assert forall j :: 0 <= j <= i ==> addrs[j] == addrs[..n][j];
        var status := MemUnmap(base + offset, chunks[i]);
        if status != 0 && first == 0 {
          first := status;
        }
        offset := offset + chunks[i];
      }
    }

    /** Releases the first `n` handles in order and goes on after a failure. */
    method ReleaseEach(handles: seq<nat>, n: nat) returns (first: int)
      requires n <= |handles|
      modifies this`gpu, this`faults
      ensures gpu.maps == old(gpu).maps && gpu.reserved == old(gpu).reserved && faults >= old(faults)
      ensures first == 0 ==> gpu.live == old(gpu).live - Elements(handles[..n])
      ensures CanReleaseEach(old(gpu), handles, n) && faults == old(faults) ==> first == 0
      // every one of them that is live is released, unless the driver refuses a legal call
      ensures faults == old(faults) ==> gpu.live == old(gpu).live - Elements(handles[..n])
      ensures n == 0 ==> faults == old(faults)
    {
      first := 0;
      for i := 0 to n
        invariant gpu.maps == old(gpu).maps && gpu.reserved == old(gpu).reserved && faults >= old(faults)
        invariant first == 0 ==> gpu.live == old(gpu).live - Elements(handles[..i])
        invariant CanReleaseEach(old(gpu), handles, n) && faults == old(faults) ==> first == 0
        invariant faults == old(faults) ==> gpu.live == old(gpu).live - Elements(handles[..i])
        invariant i == 0 ==> faults == old(faults)
      {
        assert handles[..i + 1] == handles[..i] + [handles[i]];
        assert forall j :: 0 <= j <= i ==> handles[j] == handles[..n][j];
        var status := MemRelease(handles[i]);
        if status != 0 && first == 0 {
          first := status;
        }
      }
    }
  }
}
