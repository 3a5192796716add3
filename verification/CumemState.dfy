/** What the driver knows about device memory, and the state machine of an allocator that can put
    allocations to sleep: malloc, free, sleep and wake as steps over one abstract state
    (csrc/cumem_allocator.cpp, the chunked branch).  */
module CumemState {
  import opened CumemChunks

  datatype Mapping = Mapping(size: nat, handle: nat)

  /** Address reservations with their sizes, live physical handles with their sizes, and mapped ranges. */
  datatype Gpu = Gpu(reserved: map<nat, nat>, live: map<nat, nat>, maps: map<nat, Mapping>)

  /** What the allocator passes to its callback for one pointer: size, chunk sizes and handle cells. */
  datatype Allocation = Allocation(size: nat, chunks: seq<nat>, handles: seq<nat>)

  datatype State = State(gpu: Gpu, table: map<nat, Allocation>, awake: set<nat>)

  predicate Disjoint(a: nat, n: nat, b: nat, m: nat) {
    a + n <= b || b + m <= a
  }

  ghost predicate Positive(chunks: seq<nat>) {
    forall i :: 0 <= i < |chunks| ==> chunks[i] > 0
  }

  ghost predicate Distinct(hs: seq<nat>) {
    forall i, j :: 0 <= i < j < |hs| ==> hs[i] != hs[j]
  }

  function Elements(hs: seq<nat>): set<nat> {
    set h | h in hs
  }

  /** Where chunk `i` is mapped. */
  function Addr(base: nat, chunks: seq<nat>, i: nat): nat
    requires i <= |chunks|
  {
    base + Sum(chunks[..i])
  }

  /** The addresses of all chunks, in order. */
  function Addrs(base: nat, chunks: seq<nat>): seq<nat> {
    seq(|chunks|, i requires 0 <= i < |chunks| => Addr(base, chunks, i))
  }

  function Mappings(a: Allocation): seq<Mapping>
    requires |a.handles| == |a.chunks|
  {
    seq(|a.chunks|, i requires 0 <= i < |a.chunks| => Mapping(a.chunks[i], a.handles[i]))
  }

  function Insert<T>(m: map<nat, T>, keys: seq<nat>, values: seq<T>): map<nat, T>
    requires |keys| == |values|
  {
    if keys == [] then m
    else
      var n := |keys| - 1;
      Insert(m, keys[..n], values[..n])[keys[n] := values[n]]
  }

  /** Physical memory behind the chunks of an allocation at `base`. */
  function Backed(g: Gpu, base: nat, a: Allocation): Gpu
    requires |a.handles| == |a.chunks|
  {
    g.(live := Insert(g.live, a.handles, a.chunks), maps := Insert(g.maps, Addrs(base, a.chunks), Mappings(a)))
  }

  function Unbacked(g: Gpu, base: nat, a: Allocation): Gpu {
    g.(live := g.live - Elements(a.handles), maps := g.maps - Elements(Addrs(base, a.chunks)))
  }

  // ----- Chunks tile their allocation -----

  lemma {:induction false} SumMonotone(chunks: seq<nat>, i: nat, j: nat)
    requires i <= j <= |chunks|
    ensures Sum(chunks[..i]) <= Sum(chunks[..j])
    ensures i < j ==> Sum(chunks[..i]) + chunks[i] <= Sum(chunks[..j])
    decreases j
  {
    if i < j {
      assert chunks[..j][..j - 1] == chunks[..j - 1];
      SumMonotone(chunks, i, j - 1);
    }
  }

  /** Different chunks of an allocation occupy disjoint ranges inside it. */
  lemma {:induction false} ChunksAreDisjoint(base: nat, chunks: seq<nat>, i: nat, j: nat)
    requires i < |chunks| && j < |chunks| && Positive(chunks)
    ensures Addr(base, chunks, i) + chunks[i] <= base + Sum(chunks)
    ensures i != j ==> Disjoint(Addr(base, chunks, i), chunks[i], Addr(base, chunks, j), chunks[j])
    ensures i != j ==> Addr(base, chunks, i) != Addr(base, chunks, j)
  {
    assert chunks[..|chunks|] == chunks;
    SumMonotone(chunks, i, |chunks|);
    if i < j {
      SumMonotone(chunks, i, j);
    } else if j < i {
      SumMonotone(chunks, j, i);
    }
  }

  /** Every address of an allocation lies in one of its chunks. */
  lemma {:induction false} ChunkOf(base: nat, chunks: seq<nat>, x: nat, n: nat) returns (i: nat)
    requires n <= |chunks| && base <= x < Addr(base, chunks, n)
    ensures i < n && Addr(base, chunks, i) <= x < Addr(base, chunks, i) + chunks[i]
    decreases n
  {
    assert chunks[..n] == chunks[..n - 1] + [chunks[n - 1]];
    if x < Addr(base, chunks, n - 1) {
      i := ChunkOf(base, chunks, x, n - 1);
    } else {
      i := n - 1;
    }
  }

  lemma {:induction false} AddrsAreDistinct(base: nat, chunks: seq<nat>)
    requires Positive(chunks)
    ensures Distinct(Addrs(base, chunks))
  {
    forall i, j | 0 <= i < j < |chunks| ensures Addr(base, chunks, i) != Addr(base, chunks, j) {
      ChunksAreDisjoint(base, chunks, i, j);
    }
  }

  // ----- Pointwise reading of the recursive update -----

  lemma {:induction false} InsertAt<T>(m: map<nat, T>, keys: seq<nat>, values: seq<T>)
    requires |keys| == |values| && Distinct(keys)
    ensures Insert(m, keys, values).Keys == m.Keys + Elements(keys)
    ensures forall i :: 0 <= i < |keys| ==> Insert(m, keys, values)[keys[i]] == values[i]
    ensures forall k :: k in m && k !in keys ==> Insert(m, keys, values)[k] == m[k]
  {
    if keys != [] {
      var n := |keys| - 1;
      InsertAt(m, keys[..n], values[..n]);
      assert keys == keys[..n] + [keys[n]];
    }
  }

  lemma {:induction false} InsertThenRemove<T>(m: map<nat, T>, keys: seq<nat>, values: seq<T>)
    requires |keys| == |values| && Elements(keys) !! m.Keys
    ensures Insert(m, keys, values) - Elements(keys) == m
  {
    if keys != [] {
      var n := |keys| - 1;
      assert keys == keys[..n] + [keys[n]];
      assert Elements(keys) == Elements(keys[..n]) + {keys[n]};
      InsertThenRemove(m, keys[..n], values[..n]);
      assert Insert(m, keys, values) - Elements(keys) ==
               (Insert(m, keys[..n], values[..n]) - Elements(keys[..n])) - {keys[n]};
    }
  }
}
