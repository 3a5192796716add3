/** Every run of malloc, free, sleep and wake keeps device memory in order: mapped ranges are
    disjoint and inside live reservations, every live handle is mapped exactly once, and the live
    physical memory is exactly that of the awake allocations.  */
module CumemRuns {
  import opened CumemChunks
  import opened CumemState

  // ----- Sums over maps -----

  ghost function SumValues(m: map<nat, nat>): nat {
    if m == map[] then 0
    else
      var k :| k in m;
      m[k] + SumValues(m - {k})
  }

  lemma {:induction false} SumWithout(m: map<nat, nat>, k: nat)
    requires k in m
    ensures SumValues(m) == m[k] + SumValues(m - {k})
    decreases |m|
  {
    var j :| j in m && SumValues(m) == m[j] + SumValues(m - {j});
    if j != k {
      SumWithout(m - {j}, k);
      SumWithout(m - {k}, j);
      assert m - {j} - {k} == m - {k} - {j};
    }
  }

  lemma {:induction false} SumWith(m: map<nat, nat>, k: nat, v: nat)
    requires k !in m
    ensures SumValues(m[k := v]) == SumValues(m) + v
  {
    SumWithout(m[k := v], k);
    assert m[k := v] - {k} == m;
  }

  lemma {:induction false} SumInserted(m: map<nat, nat>, keys: seq<nat>, values: seq<nat>)
    requires |keys| == |values| && Distinct(keys) && Elements(keys) !! m.Keys
    ensures SumValues(Insert(m, keys, values)) == SumValues(m) + Sum(values)
  {
    if keys != [] {
      var n := |keys| - 1;
      assert keys == keys[..n] + [keys[n]];
      SumInserted(m, keys[..n], values[..n]);
      InsertAt(m, keys[..n], values[..n]);
      SumWith(Insert(m, keys[..n], values[..n]), keys[n], values[n]);
    }
  }

  lemma {:induction false} SumRemoved(m: map<nat, nat>, keys: seq<nat>, values: seq<nat>)
    requires |keys| == |values| && Distinct(keys)
    requires forall i :: 0 <= i < |keys| ==> keys[i] in m && m[keys[i]] == values[i]
    ensures SumValues(m) == SumValues(m - Elements(keys)) + Sum(values)
  {
    if keys == [] {
      assert m - Elements(keys) == m;
    } else {
      var n := |keys| - 1;
      assert keys == keys[..n] + [keys[n]];
      SumRemoved(m, keys[..n], values[..n]);
      SumWithout(m - Elements(keys[..n]), keys[n]);
      assert m - Elements(keys[..n]) - {keys[n]} == m - Elements(keys);
    }
  }

  // ----- The invariant -----

  ghost predicate AllocationOk(s: State, p: nat)
    requires p in s.table
  {
    var a := s.table[p];
    p in s.gpu.reserved && s.gpu.reserved[p] == a.size == Sum(a.chunks) && Positive(a.chunks)
    && |a.handles| == |a.chunks|
  }

  ghost predicate ReservationsApart(reserved: map<nat, nat>) {
    forall a, b :: a in reserved && b in reserved && a != b ==> Disjoint(a, reserved[a], b, reserved[b])
  }

  ghost predicate TableOk(s: State) {
    && s.awake <= s.table.Keys
    && ReservationsApart(s.gpu.reserved)
    && forall p :: p in s.table ==> AllocationOk(s, p)
  }

  type Table = map<nat, Allocation>

  function AwakeTable(s: State): Table {
    map p | p in s.awake && p in s.table :: s.table[p]
  }

  ghost predicate IsChunk(t: Table, p: nat, i: nat) {
    p in t && i < |t[p].chunks| == |t[p].handles|
  }

  ghost function AddrOf(t: Table, p: nat, i: nat): nat
    requires IsChunk(t, p, i)
  {
    Addr(p, t[p].chunks, i)
  }

  ghost function HandleOf(t: Table, p: nat, i: nat): nat
    requires IsChunk(t, p, i)
  {
    t[p].handles[i]
  }

  ghost function SizeOf(t: Table, p: nat, i: nat): nat
    requires IsChunk(t, p, i)
  {
    t[p].chunks[i]
  }

  ghost predicate HasAddr(t: Table, x: nat) {
    exists p: nat, i: nat :: IsChunk(t, p, i) && AddrOf(t, p, i) == x
  }

  ghost predicate HasHandle(t: Table, h: nat) {
    exists p: nat, i: nat :: IsChunk(t, p, i) && HandleOf(t, p, i) == h
  }

  /** The mapped ranges are the chunks of the awake allocations. */
  ghost predicate MapsOk(t: Table, maps: map<nat, Mapping>) {
    && (forall p: nat, i: nat :: IsChunk(t, p, i) ==>
          AddrOf(t, p, i) in maps && maps[AddrOf(t, p, i)] == Mapping(SizeOf(t, p, i), HandleOf(t, p, i)))
    && (forall x :: x in maps ==> HasAddr(t, x))
  }

  /** The live handles are those of the awake chunks. */
  ghost predicate HandlesOk(t: Table, live: map<nat, nat>) {
    && (forall p: nat, i: nat :: IsChunk(t, p, i) ==>
         HandleOf(t, p, i) in live && live[HandleOf(t, p, i)] == SizeOf(t, p, i))
    && (forall h :: h in live ==> HasHandle(t, h))
  }

  /** Each handle backs one chunk. */
  ghost predicate HandlesApart(t: Table) {
    forall p: nat, i: nat, q: nat, j: nat ::
      IsChunk(t, p, i) && IsChunk(t, q, j) && HandleOf(t, p, i) == HandleOf(t, q, j) ==> p == q && i == j
  }

  function Sizes(t: Table): map<nat, nat> {
    map p | p in t :: Sum(t[p].chunks)
  }

  ghost predicate Inv(s: State) {
    var t := AwakeTable(s);
    TableOk(s) && MapsOk(t, s.gpu.maps) && HandlesOk(t, s.gpu.live) && HandlesApart(t)
    && SumValues(s.gpu.live) == SumValues(Sizes(t))
  }

  // ----- The four elementary changes -----

  /** A new reservation enters the table; nothing is mapped yet. */
  function Reserve(s: State, p: nat, a: Allocation): State {
    s.(gpu := s.gpu.(reserved := s.gpu.reserved[p := a.size]), table := s.table[p := a])
  }

  function Rouse(s: State, p: nat, hs: seq<nat>): State
    requires p in s.table && |hs| == |s.table[p].chunks|
  {
    var a := s.table[p].(handles := hs);
    State(Backed(s.gpu, p, a), s.table[p := a], s.awake + {p})
  }

  function Lull(s: State, p: nat): State
    requires p in s.table
  {
    s.(gpu := Unbacked(s.gpu, p, s.table[p]), awake := s.awake - {p})
  }

  function Drop(s: State, p: nat): State {
    s.(gpu := s.gpu.(reserved := s.gpu.reserved - {p}), table := s.table - {p})
  }

  lemma {:induction false} ChunksApart(s: State, p: nat, i: nat, q: nat, j: nat)
    requires TableOk(s) && p in s.table && q in s.table && p != q
    requires i < |s.table[p].chunks| && j < |s.table[q].chunks|
    ensures Disjoint(Addr(p, s.table[p].chunks, i), s.table[p].chunks[i],
                     Addr(q, s.table[q].chunks, j), s.table[q].chunks[j])
    ensures Addr(p, s.table[p].chunks, i) != Addr(q, s.table[q].chunks, j)
  {
    assert AllocationOk(s, p) && AllocationOk(s, q);
    ChunksAreDisjoint(p, s.table[p].chunks, i, i);
    ChunksAreDisjoint(q, s.table[q].chunks, j, j);
  }

  lemma {:induction false} ReserveTable(s: State, p: nat, a: Allocation)
    requires TableOk(s) && p !in s.gpu.reserved && Positive(a.chunks) && |a.handles| == |a.chunks|
             && a.size == Sum(a.chunks)
    requires forall b :: b in s.gpu.reserved ==> Disjoint(p, a.size, b, s.gpu.reserved[b])
    ensures TableOk(Reserve(s, p, a)) && p !in s.table
  {
    var s' := Reserve(s, p, a);
    forall q | q in s.table ensures q != p && AllocationOk(s', q) {
      assert AllocationOk(s, q);
    }
  }

  lemma {:induction false} ReserveKeepsInv(s: State, p: nat, a: Allocation)
    requires Inv(s) && p !in s.gpu.reserved && Positive(a.chunks) && |a.handles| == |a.chunks|
             && a.size == Sum(a.chunks)
    requires forall b :: b in s.gpu.reserved ==> Disjoint(p, a.size, b, s.gpu.reserved[b])
    ensures Inv(Reserve(s, p, a)) && p !in s.awake
  {
    ReserveTable(s, p, a);
    assert AwakeTable(Reserve(s, p, a)) == AwakeTable(s);
  }

  lemma {:induction false} DropKeepsInv(s: State, p: nat)
    requires Inv(s) && p !in s.awake
    ensures Inv(Drop(s, p))
  {
    var s' := Drop(s, p);
    forall q | q in s'.table ensures AllocationOk(s', q) {
      assert AllocationOk(s, q);
    }
    assert AwakeTable(s') == AwakeTable(s);
  }

  // ----- Adding a chunked allocation to the awake ones, and taking it away -----

  /** No chunk of another allocation starts where one of the chunks placed at `p` does. */
  ghost predicate AddrsApart(t: Table, p: nat, chunks: seq<nat>) {
    forall q: nat, j: nat, i: nat ::
      IsChunk(t, q, j) && q != p && i < |chunks| ==> AddrOf(t, q, j) != Addr(p, chunks, i)
  }

  lemma {:induction false} MapsWith(t: Table, maps: map<nat, Mapping>, p: nat, a: Allocation)
    requires MapsOk(t, maps) && p !in t && |a.handles| == |a.chunks| && Positive(a.chunks) && AddrsApart(t, p, a.chunks)
    ensures MapsOk(t[p := a], Insert(maps, Addrs(p, a.chunks), Mappings(a)))
  {
    var t', maps' := t[p := a], Insert(maps, Addrs(p, a.chunks), Mappings(a));
    AddrsAreDistinct(p, a.chunks);
    InsertAt(maps, Addrs(p, a.chunks), Mappings(a));
    forall q: nat, j: nat | IsChunk(t', q, j)
      ensures AddrOf(t', q, j) in maps' && maps'[AddrOf(t', q, j)] == Mapping(SizeOf(t', q, j), HandleOf(t', q, j))
    {
      if q == p {
        assert Addrs(p, a.chunks)[j] == AddrOf(t', q, j);
      } else {
        assert IsChunk(t, q, j) && AddrOf(t, q, j) == AddrOf(t', q, j);
      }
    }
    forall x | x in maps' ensures HasAddr(t', x) {
      AddrsWith(t, p, a, x);
    }
  }

  lemma {:induction false} AddrsWith(t: Table, p: nat, a: Allocation, x: nat)
    requires p !in t && |a.handles| == |a.chunks| && (HasAddr(t, x) || x in Addrs(p, a.chunks))
    ensures HasAddr(t[p := a], x)
  {
    var t' := t[p := a];
    if HasAddr(t, x) {
      var q: nat, j: nat :| IsChunk(t, q, j) && AddrOf(t, q, j) == x;
      assert IsChunk(t', q, j) && AddrOf(t', q, j) == x;
    } else {
      var i :| 0 <= i < |a.chunks| && x == Addrs(p, a.chunks)[i];
      assert IsChunk(t', p, i) && AddrOf(t', p, i) == x;
    }
  }

  lemma {:induction false} MapsWithout(t: Table, maps: map<nat, Mapping>, p: nat)
    requires MapsOk(t, maps) && p in t && |t[p].handles| == |t[p].chunks| && AddrsApart(t, p, t[p].chunks)
    ensures MapsOk(t - {p}, maps - Elements(Addrs(p, t[p].chunks)))
  {
    var t', addrs := t - {p}, Addrs(p, t[p].chunks);
    var maps' := maps - Elements(addrs);
    forall q: nat, j: nat | IsChunk(t', q, j)
      ensures AddrOf(t', q, j) in maps' && maps'[AddrOf(t', q, j)] == Mapping(SizeOf(t', q, j), HandleOf(t', q, j))
    {
      assert IsChunk(t, q, j) && AddrOf(t, q, j) == AddrOf(t', q, j);
    }
    forall x | x in maps' ensures HasAddr(t', x) {
      assert HasAddr(t, x);
      var q: nat, j: nat :| IsChunk(t, q, j) && AddrOf(t, q, j) == x;
      forall i | 0 <= i < |addrs| ensures Addr(p, t[p].chunks, i) != x {
        assert addrs[i] in addrs;
      }
      assert IsChunk(t', q, j) && AddrOf(t', q, j) == x;
    }
  }

  lemma {:induction false} HandlesWith(t: Table, live: map<nat, nat>, p: nat, a: Allocation)
    requires HandlesOk(t, live) && HandlesApart(t) && p !in t
    requires |a.handles| == |a.chunks| && Distinct(a.handles) && Elements(a.handles) !! live.Keys
    ensures HandlesOk(t[p := a], Insert(live, a.handles, a.chunks)) && HandlesApart(t[p := a])
  {
    var t', live' := t[p := a], Insert(live, a.handles, a.chunks);
    InsertAt(live, a.handles, a.chunks);
    forall q: nat, j: nat | IsChunk(t', q, j)
      ensures HandleOf(t', q, j) in live' && live'[HandleOf(t', q, j)] == SizeOf(t', q, j)
      ensures q != p ==> HandleOf(t', q, j) in live
    {
      if q != p {
        assert IsChunk(t, q, j) && HandleOf(t, q, j) == HandleOf(t', q, j);
      }
    }
    forall h | h in live' ensures HasHandle(t', h) {
      if h in live {
        assert HasHandle(t, h);
        var q: nat, j: nat :| IsChunk(t, q, j) && HandleOf(t, q, j) == h;
        assert IsChunk(t', q, j) && HandleOf(t', q, j) == h;
      } else {
        var i :| 0 <= i < |a.handles| && h == a.handles[i];
        assert IsChunk(t', p, i) && HandleOf(t', p, i) == h;
      }
    }
    forall q: nat, j: nat, q': nat, j': nat |
      IsChunk(t', q, j) && IsChunk(t', q', j') && HandleOf(t', q, j) == HandleOf(t', q', j')
      ensures q == q' && j == j'
    {
      if q != p && q' != p {
        assert IsChunk(t, q, j) && IsChunk(t, q', j');
      }
    }
  }

  lemma {:induction false} HandlesWithout(t: Table, live: map<nat, nat>, p: nat)
    requires HandlesOk(t, live) && HandlesApart(t) && p in t && |t[p].handles| == |t[p].chunks|
    ensures HandlesOk(t - {p}, live - Elements(t[p].handles)) && HandlesApart(t - {p})
  {
    var t', live' := t - {p}, live - Elements(t[p].handles);
    forall q: nat, j: nat | IsChunk(t', q, j)
      ensures IsChunk(t, q, j) && HandleOf(t', q, j) in live' && live'[HandleOf(t', q, j)] == SizeOf(t', q, j)
    {
      assert IsChunk(t, q, j) && HandleOf(t, q, j) == HandleOf(t', q, j);
      forall i: nat | i < |t[p].handles| ensures t[p].handles[i] != HandleOf(t, q, j) {
        assert IsChunk(t, p, i) && HandleOf(t, p, i) == t[p].handles[i];
      }
    }
    forall h | h in live' ensures HasHandle(t', h) {
      assert HasHandle(t, h);
      var q: nat, j: nat :| IsChunk(t, q, j) && HandleOf(t, q, j) == h;
      assert forall i :: 0 <= i < |t[p].handles| ==> t[p].handles[i] != h;
      assert IsChunk(t', q, j) && HandleOf(t', q, j) == h;
    }
  }

  // ----- Rouse and Lull keep the invariant -----

  lemma {:induction false} AwakeAddrsApart(s: State, p: nat)
    requires TableOk(s) && p in s.table
    ensures AddrsApart(AwakeTable(s), p, s.table[p].chunks)
  {
    var t := AwakeTable(s);
    forall q: nat, j: nat, i: nat | IsChunk(t, q, j) && q != p && i < |s.table[p].chunks|
      ensures AddrOf(t, q, j) != Addr(p, s.table[p].chunks, i)
    {
      ChunksApart(s, p, i, q, j);
    }
  }

  ghost predicate FreshHandles(s: State, hs: seq<nat>) {
    Distinct(hs) && Elements(hs) !! s.gpu.live.Keys
  }

  lemma {:induction false} RouseTable(s: State, p: nat, hs: seq<nat>)
    requires TableOk(s) && p in s.table && |hs| == |s.table[p].chunks|
    ensures TableOk(Rouse(s, p, hs))
    ensures AwakeTable(Rouse(s, p, hs)) == AwakeTable(s)[p := s.table[p].(handles := hs)]
  {
    var s' := Rouse(s, p, hs);
    forall q | q in s'.table ensures AllocationOk(s', q) {
      assert AllocationOk(s, q);
    }
  }

  lemma {:induction false} RouseSum(t: Table, live: map<nat, nat>, p: nat, a: Allocation)
    requires p !in t && |a.handles| == |a.chunks| && Distinct(a.handles) && Elements(a.handles) !! live.Keys
    requires SumValues(live) == SumValues(Sizes(t))
    ensures SumValues(Insert(live, a.handles, a.chunks)) == SumValues(Sizes(t[p := a]))
  {
    SumInserted(live, a.handles, a.chunks);
    assert Sizes(t[p := a]) == Sizes(t)[p := Sum(a.chunks)];
    SumWith(Sizes(t), p, Sum(a.chunks));
  }

  lemma {:induction false} RouseKeepsInv(s: State, p: nat, hs: seq<nat>)
    requires Inv(s) && p in s.table && p !in s.awake
    requires |hs| == |s.table[p].chunks| && FreshHandles(s, hs)
    ensures Inv(Rouse(s, p, hs))
  {
    var t: Table := AwakeTable(s);
    var a := s.table[p].(handles := hs);
    assert AllocationOk(s, p);
    RouseTable(s, p, hs);
    AwakeAddrsApart(s, p);
    MapsWith(t, s.gpu.maps, p, a);
    HandlesWith(t, s.gpu.live, p, a);
    RouseSum(t, s.gpu.live, p, a);
  }

  /** The handles of an awake allocation are live and pairwise different. */
  lemma {:induction false} AwakeHandles(s: State, p: nat)
    requires Inv(s) && p in s.awake
    ensures |s.table[p].handles| == |s.table[p].chunks| && Distinct(s.table[p].handles)
    ensures forall i :: 0 <= i < |s.table[p].handles| ==>
              s.table[p].handles[i] in s.gpu.live && s.gpu.live[s.table[p].handles[i]] == s.table[p].chunks[i]
  {
    var t, a := AwakeTable(s), s.table[p];
    assert AllocationOk(s, p);
    forall i: nat, j: nat | i < j < |a.handles| ensures a.handles[i] != a.handles[j] {
      assert IsChunk(t, p, i) && IsChunk(t, p, j);
      assert HandleOf(t, p, i) == a.handles[i] && HandleOf(t, p, j) == a.handles[j];
    }
    forall i: nat | i < |a.handles| ensures a.handles[i] in s.gpu.live && s.gpu.live[a.handles[i]] == a.chunks[i] {
      assert IsChunk(t, p, i) && HandleOf(t, p, i) == a.handles[i] && SizeOf(t, p, i) == a.chunks[i];
    }
  }

  lemma {:induction false} LullTable(s: State, p: nat)
    requires TableOk(s) && p in s.awake
    ensures TableOk(Lull(s, p)) && AwakeTable(Lull(s, p)) == AwakeTable(s) - {p}
  {
    var s' := Lull(s, p);
    forall q | q in s'.table ensures AllocationOk(s', q) {
      assert AllocationOk(s, q);
    }
  }

  lemma {:induction false} LullSum(t: Table, live: map<nat, nat>, p: nat)
    requires p in t && |t[p].handles| == |t[p].chunks| && Distinct(t[p].handles)
    requires forall i :: 0 <= i < |t[p].handles| ==> t[p].handles[i] in live && live[t[p].handles[i]] == t[p].chunks[i]
    requires SumValues(live) == SumValues(Sizes(t))
    ensures SumValues(live - Elements(t[p].handles)) == SumValues(Sizes(t - {p}))
  {
    SumRemoved(live, t[p].handles, t[p].chunks);
    assert Sizes(t - {p}) == Sizes(t) - {p};
    SumWithout(Sizes(t), p);
  }

  lemma {:induction false} LullKeepsInv(s: State, p: nat)
    requires Inv(s) && p in s.awake
    ensures Inv(Lull(s, p))
  {
    var t: Table := AwakeTable(s);
    AwakeHandles(s, p);
    LullTable(s, p);
    AwakeAddrsApart(s, p);
    MapsWithout(t, s.gpu.maps, p);
    HandlesWithout(t, s.gpu.live, p);
    LullSum(t, s.gpu.live, p);
  }

  // ----- Steps and runs -----

  /** What the driver chooses (addresses and handles) is part of the step. */
  datatype Step =
    | Malloc(ptr: nat, chunks: seq<nat>, handles: seq<nat>)
    | Free(ptr: nat)
    | Sleep(ptr: nat)
    | Wake(ptr: nat, handles: seq<nat>)

  ghost predicate Enabled(s: State, step: Step) {
    match step
    case Malloc(p, chunks, hs) =>
      && Positive(chunks) && |hs| == |chunks| && FreshHandles(s, hs)
      && p !in s.gpu.reserved
      && forall b :: b in s.gpu.reserved ==> Disjoint(p, Sum(chunks), b, s.gpu.reserved[b])
    case Wake(p, hs) => p in s.table && p !in s.awake && |hs| == |s.table[p].chunks| && FreshHandles(s, hs)
    case _ => step.ptr in s.awake && step.ptr in s.table
  }

  ghost function Apply(s: State, step: Step): State
    requires Enabled(s, step)
  {
    match step
    case Malloc(p, chunks, hs) => Rouse(Reserve(s, p, Allocation(Sum(chunks), chunks, hs)), p, hs)
    case Free(p) => Drop(Lull(s, p), p)
    case Sleep(p) => Lull(s, p)
    case Wake(p, hs) => Rouse(s, p, hs)
  }

  lemma {:induction false} StepKeepsInv(s: State, step: Step)
    requires Inv(s) && Enabled(s, step)
    ensures Inv(Apply(s, step))
  {
    match step
    case Malloc(p, chunks, hs) =>
      ReserveKeepsInv(s, p, Allocation(Sum(chunks), chunks, hs));
      RouseKeepsInv(Reserve(s, p, Allocation(Sum(chunks), chunks, hs)), p, hs);
    case Free(p) =>
      LullKeepsInv(s, p);
      DropKeepsInv(Lull(s, p), p);
    case Sleep(p) => LullKeepsInv(s, p);
    case Wake(p, hs) => RouseKeepsInv(s, p, hs);
  }

  ghost predicate CanRun(s: State, steps: seq<Step>)
    decreases |steps|
  {
    steps == [] || (Enabled(s, steps[0]) && CanRun(Apply(s, steps[0]), steps[1..]))
  }

  ghost function Final(s: State, steps: seq<Step>): State
    requires CanRun(s, steps)
    decreases |steps|
  {
    if steps == [] then s else Final(Apply(s, steps[0]), steps[1..])
  }

  const EMPTY := State(Gpu(map[], map[], map[]), map[], {})

  /** Device memory is in order. */
  ghost predicate Safe(g: Gpu) {
    // mapped ranges do not overlap
    && (forall x, y :: x in g.maps && y in g.maps && x != y ==> Disjoint(x, g.maps[x].size, y, g.maps[y].size))
    // and lie inside live reservations
    && (forall x :: x in g.maps ==> InsideReservation(g, x))
    // every mapping is backed by a live handle of its size, and every live handle is mapped exactly once
    && (forall x :: x in g.maps ==> g.maps[x].handle in g.live && g.live[g.maps[x].handle] == g.maps[x].size)
    && (forall h :: h in g.live ==> exists x :: x in g.maps && g.maps[x].handle == h)
    && (forall x, y :: x in g.maps && y in g.maps && g.maps[x].handle == g.maps[y].handle ==> x == y)
  }

  ghost predicate InsideReservation(g: Gpu, x: nat)
    requires x in g.maps
  {
    exists r :: r in g.reserved && r <= x && x + g.maps[x].size <= r + g.reserved[r]
  }

  /** The chunk that is mapped at `x`. */
  lemma {:induction false} ChunkBehind(s: State, x: nat) returns (p: nat, i: nat)
    requires Inv(s) && x in s.gpu.maps
    ensures IsChunk(AwakeTable(s), p, i) && p in s.table && p in s.awake && AllocationOk(s, p)
    ensures i < |s.table[p].chunks| == |s.table[p].handles| && x == Addr(p, s.table[p].chunks, i)
    ensures s.gpu.maps[x] == Mapping(s.table[p].chunks[i], s.table[p].handles[i])
  {
    var t := AwakeTable(s);
    assert HasAddr(t, x);
    p, i :| IsChunk(t, p, i) && AddrOf(t, p, i) == x;
    assert AllocationOk(s, p);
  }

  lemma {:induction false} MappedIsApart(s: State, x: nat, y: nat)
    requires Inv(s) && x in s.gpu.maps && y in s.gpu.maps && x != y
    ensures Disjoint(x, s.gpu.maps[x].size, y, s.gpu.maps[y].size)
    ensures s.gpu.maps[x].handle != s.gpu.maps[y].handle
  {
    var p, i := ChunkBehind(s, x);
    var q, j := ChunkBehind(s, y);
    var t := AwakeTable(s);
    assert HandleOf(t, p, i) == s.gpu.maps[x].handle && HandleOf(t, q, j) == s.gpu.maps[y].handle;
    if p == q {
      ChunksAreDisjoint(p, s.table[p].chunks, i, j);
    } else {
      ChunksApart(s, p, i, q, j);
    }
  }

  lemma {:induction false} InvIsSafe(s: State)
    requires Inv(s)
    ensures Safe(s.gpu)
  {
    var g, t := s.gpu, AwakeTable(s);
    forall x, y | x in g.maps && y in g.maps && x != y
      ensures Disjoint(x, g.maps[x].size, y, g.maps[y].size) && g.maps[x].handle != g.maps[y].handle
    {
      MappedIsApart(s, x, y);
    }
    forall x | x in g.maps
      ensures InsideReservation(g, x) && g.maps[x].handle in g.live && g.live[g.maps[x].handle] == g.maps[x].size
    {
      var p, i := ChunkBehind(s, x);
      ChunksAreDisjoint(p, s.table[p].chunks, i, i);
      assert p in g.reserved && HandleOf(t, p, i) == g.maps[x].handle;
    }
    forall h | h in g.live ensures exists x :: x in g.maps && g.maps[x].handle == h {
      assert HasHandle(t, h);
      var p: nat, i: nat :| IsChunk(t, p, i) && HandleOf(t, p, i) == h;
      assert AddrOf(t, p, i) in g.maps && g.maps[AddrOf(t, p, i)].handle == h;
    }
  }

  lemma {:induction false} RunKeepsInv(s: State, steps: seq<Step>)
    requires Inv(s) && CanRun(s, steps)
    ensures Inv(Final(s, steps))
    decreases |steps|
  {
    if steps != [] {
      StepKeepsInv(s, steps[0]);
      RunKeepsInv(Apply(s, steps[0]), steps[1..]);
    }
  }

  lemma {:induction false} EmptyIsOk()
    ensures Inv(EMPTY)
  {
    assert AwakeTable(EMPTY) == map[];
    assert Sizes(AwakeTable(EMPTY)) == map[];
  }

  /** Over every run from the empty state: device memory is in order, and the live physical memory
      is the total size of the awake allocations. */
  lemma {:induction false} RunsAreSafe(steps: seq<Step>)
    requires CanRun(EMPTY, steps)
    ensures Safe(Final(EMPTY, steps).gpu)
    ensures SumValues(Final(EMPTY, steps).gpu.live) == SumValues(AlignedSizes(Final(EMPTY, steps)))
    ensures Final(EMPTY, steps).awake == {} ==> SumValues(Final(EMPTY, steps).gpu.live) == 0
  {
    EmptyIsOk();
    RunKeepsInv(EMPTY, steps);
    var s := Final(EMPTY, steps);
    InvIsSafe(s);
    forall p | p in s.awake && p in s.table ensures s.table[p].size == Sum(s.table[p].chunks) {
      assert AllocationOk(s, p);
    }
    assert AlignedSizes(s) == Sizes(AwakeTable(s));
  }

  /** The sizes that the awake allocations reserve. */
  function AlignedSizes(s: State): map<nat, nat> {
    map p | p in s.awake && p in s.table :: s.table[p].size
  }

  /** The driver may give a new allocation a handle value that a sleeping one still remembers. */
  lemma {:induction false} SleeperCanShareHandle(s: State, p: nat, i: nat, q: nat, size: nat)
    requires Inv(s) && p in s.table && p !in s.awake && i < |s.table[p].handles|
    requires s.table[p].handles[i] !in s.gpu.live && size > 0
    requires q !in s.gpu.reserved && forall b :: b in s.gpu.reserved ==> Disjoint(q, size, b, s.gpu.reserved[b])
    ensures var h := s.table[p].handles[i];
            && Enabled(s, Malloc(q, [size], [h]))
            && var s' := Apply(s, Malloc(q, [size], [h]));
               && p in s'.table && p !in s'.awake && h in s'.table[p].handles
               && q in s'.table && q in s'.awake && s'.table[q].handles == [h] && h in s'.gpu.live
  {
    var h := s.table[p].handles[i];
    assert AllocationOk(s, p);
    assert [size][..0] == [] && Sum([size]) == size;
    InsertAt(s.gpu.live, [h], [size]);
    assert h in Elements([h]);
  }

  // ----- Sleep and wake -----

  /** Asleep, an allocation holds no live handle and no mapped range meets its addresses, while its
      reservation stays. */
  lemma {:induction false} AsleepHoldsNothing(s: State, p: nat, x: nat)
    requires Inv(s) && p in s.awake
    ensures var s' := Apply(s, Sleep(p));
            && s'.gpu.reserved == s.gpu.reserved
            && Elements(s.table[p].handles) !! s'.gpu.live.Keys
            && (x in s'.gpu.maps ==> Disjoint(x, s'.gpu.maps[x].size, p, s'.gpu.reserved[p]))
  {
    var s' := Apply(s, Sleep(p));
    LullKeepsInv(s, p);
    assert AllocationOk(s', p);
    if x in s'.gpu.maps {
      var q, i := ChunkBehind(s', x);
      ChunksAreDisjoint(q, s'.table[q].chunks, i, i);
    }
  }

  /** The mapped ranges of an awake allocation, chunk by chunk. */
  lemma {:induction false} AwakeMaps(s: State, p: nat, i: nat)
    requires Inv(s) && p in s.awake && i < |s.table[p].chunks|
    ensures Addr(p, s.table[p].chunks, i) in s.gpu.maps
            && s.gpu.maps[Addr(p, s.table[p].chunks, i)].size == s.table[p].chunks[i]
    ensures Positive(s.table[p].chunks)
  {
    assert AllocationOk(s, p);
    assert IsChunk(AwakeTable(s), p, i) && AddrOf(AwakeTable(s), p, i) == Addr(p, s.table[p].chunks, i);
  }

  /** `maps'` has the ranges of `maps`, and the same handles outside `addrs`. */
  ghost predicate SameRanges(maps: map<nat, Mapping>, maps': map<nat, Mapping>, addrs: seq<nat>) {
    && maps'.Keys == maps.Keys
    && (forall x :: x in maps ==> maps'[x].size == maps[x].size)
    && (forall x :: x in maps && x !in addrs ==> maps'[x] == maps[x])
  }

  lemma {:induction false} RemoveThenInsert(maps: map<nat, Mapping>, addrs: seq<nat>, fill: seq<Mapping>)
    requires |addrs| == |fill| && Distinct(addrs)
    requires forall i :: 0 <= i < |addrs| ==> addrs[i] in maps && maps[addrs[i]].size == fill[i].size
    ensures SameRanges(maps, Insert(maps - Elements(addrs), addrs, fill), addrs)
  {
    InsertAt(maps - Elements(addrs), addrs, fill);
  }

  lemma {:induction false} RestoresRanges(s: State, p: nat, a: Allocation)
    requires Inv(s) && p in s.awake && a.chunks == s.table[p].chunks && |a.handles| == |a.chunks|
    ensures var addrs := Addrs(p, a.chunks);
            SameRanges(s.gpu.maps, Insert(s.gpu.maps - Elements(addrs), addrs, Mappings(a)), addrs)
  {
    var addrs := Addrs(p, a.chunks);
    assert AllocationOk(s, p);
    AddrsAreDistinct(p, a.chunks);
    forall i | 0 <= i < |addrs| ensures addrs[i] in s.gpu.maps && s.gpu.maps[addrs[i]].size == Mappings(a)[i].size {
      AwakeMaps(s, p, i);
    }
    RemoveThenInsert(s.gpu.maps, addrs, Mappings(a));
  }

  /** What sleep and then wake do to the state. */
  lemma {:induction false} SleepWakeState(s: State, p: nat, hs: seq<nat>)
    requires p in s.awake && p in s.table && |hs| == |s.table[p].chunks| && Enabled(Lull(s, p), Wake(p, hs))
    ensures var a, s'' := s.table[p].(handles := hs), Apply(Lull(s, p), Wake(p, hs));
            && s''.gpu.reserved == s.gpu.reserved && s''.awake == s.awake && s''.table == s.table[p := a]
            && s''.gpu.maps == Insert(s.gpu.maps - Elements(Addrs(p, a.chunks)), Addrs(p, a.chunks), Mappings(a))
  {
  }

  /** Sleep and then wake restores the same mapped ranges at the same addresses; only the handles
      behind the allocation's own chunks are new. */
  lemma {:induction false} SleepThenWake(s: State, p: nat, hs: seq<nat>)
    requires Inv(s) && p in s.awake && Enabled(Apply(s, Sleep(p)), Wake(p, hs))
    ensures var s'' := Apply(Apply(s, Sleep(p)), Wake(p, hs));
            && s''.gpu.reserved == s.gpu.reserved && s''.awake == s.awake
            && s''.table == s.table[p := s.table[p].(handles := hs)]
            && SameRanges(s.gpu.maps, s''.gpu.maps, Addrs(p, s.table[p].chunks))
  {
    SleepWakeState(s, p, hs);
    RestoresRanges(s, p, s.table[p].(handles := hs));
  }
}
