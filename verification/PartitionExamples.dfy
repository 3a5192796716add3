/** Small graphs that show what the theorems of PartitionRun are about and where the pass fails. */
module PartitionExamples {
  import opened GraphPartition
  import opened Options
  import opened PartitionRun

  // ----- A graph with a mutation and a freed buffer -----

  /** `b` is made from the input `a`, mutated in place under the name `m`, and freed by the node that
      reads it last; `a` is freed at once. */
  function Sample(a: Name, b: Name, m: Name, c: Name): seq<Node> {
    [Node(0, {b}, {a}, {}, {a}), Node(1, {m}, {b}, {}, {}), Node(2, {c}, {m}, {}, {b})]
  }

  ghost function SampleGraph(a: Name, b: Name, m: Name, c: Name): Graph
    requires m != b
  {
    GraphData({a}, {}, {c}, map[m := Buffer(true, true)], map[m := b], {a, b, m, c})
  }

  lemma {:induction false} SampleProduced(a: Name, b: Name, m: Name, c: Name)
    ensures var ns := Sample(a, b, m, c);
            && Produced(ns[..0]) == {} && Produced(ns[..1]) == {b} && Produced(ns[..2]) == {b, m}
            && Produced(ns) == {b, m, c}
  {
    var ns := Sample(a, b, m, c);
    assert ns[..1] == [ns[0]] && ns[..2] == [ns[0], ns[1]];
    assert ns[0] in ns && ns[1] in ns && ns[2] in ns;
    assert ns[0] in ns[..1] && ns[0] in ns[..2] && ns[1] in ns[..2];
  }

  lemma {:induction false} SampleMentions(a: Name, b: Name, m: Name, c: Name, i: nat)
    requires a != b && a != m && a != c && b != m && b != c && m != c && 1 <= i < 3
    ensures Operands(SampleGraph(a, b, m, c), Sample(a, b, m, c)[i]) == {b}
    ensures a !in Mentions(SampleGraph(a, b, m, c), Sample(a, b, m, c)[i])
  {
    var g, n := SampleGraph(a, b, m, c), Sample(a, b, m, c)[i];
    var x := if i == 1 then b else m;
    assert x in n.readNames + n.writeNames - n.outputs && Real(g, x) == b;
  }

  lemma {:induction false} SampleStart(a: Name, b: Name, m: Name, c: Name)
    requires a != b && a != m && a != c && b != m && b != c && m != c
    ensures NodeOkAt(SampleGraph(a, b, m, c), Sample(a, b, m, c), 0)
  {
    var ns := Sample(a, b, m, c);
    SampleProduced(a, b, m, c);
    forall n | n in ns[1..] ensures a !in Mentions(SampleGraph(a, b, m, c), n) {
      SampleMentions(a, b, m, c, if n == ns[1] then 1 else 2);
    }
  }

  lemma {:induction false} SampleMiddle(a: Name, b: Name, m: Name, c: Name)
    requires a != b && a != m && a != c && b != m && b != c && m != c
    ensures NodeOkAt(SampleGraph(a, b, m, c), Sample(a, b, m, c), 1)
  {
    SampleProduced(a, b, m, c);
    SampleMentions(a, b, m, c, 1);
  }

  lemma {:induction false} SampleEnd(a: Name, b: Name, m: Name, c: Name)
    requires a != b && a != m && a != c && b != m && b != c && m != c
    ensures NodeOkAt(SampleGraph(a, b, m, c), Sample(a, b, m, c), 2)
  {
    SampleProduced(a, b, m, c);
    assert Sample(a, b, m, c)[3..] == [];
  }

  /** There are well-formed graphs, with a mutation alias and with storage that is freed. */
  lemma {:induction false} SampleIsWellFormed(a: Name, b: Name, m: Name, c: Name)
    requires a != b && a != m && a != c && b != m && b != c && m != c
    ensures WellFormed(SampleGraph(a, b, m, c), Sample(a, b, m, c))
  {
    SampleProduced(a, b, m, c);
    SampleStart(a, b, m, c);
    SampleMiddle(a, b, m, c);
    SampleEnd(a, b, m, c);
  }

  lemma {:induction false} NamesOfOne(n: Node)
    ensures Produced([n]) == n.outputs && Freed([n]) == n.lastUsage
    ensures Touched([n]) == n.readNames + n.writeNames
  {
    assert [n][0] == n && n in [n];
  }

  /** A partition that only reads the mutation output takes the mutated buffer as its one input. */
  lemma {:induction false} SampleInputs(a: Name, b: Name, m: Name, c: Name, unmet: set<Name>, skip: bool)
    requires a != b && a != m && a != c && b != m && b != c && m != c
    ensures SignatureOf(SampleGraph(a, b, m, c), [Node(2, {c}, {m}, {}, {})], unmet, skip).inputs == {b}
  {
    var g, n := SampleGraph(a, b, m, c), Node(2, {c}, {m}, {}, {});
    NamesOfOne(n);
    MutatedBufferIsInput(g, [n], unmet, skip, m);
  }

  // ----- A buffer without storage, freed by another partition -----

  /** The second node is the last to use `v`. */
  function Storageless(a: Name, v: Name, c: Name): seq<Node> {
    [Node(0, {v}, {a}, {}, {}), Node(1, {c}, {a, v}, {}, {v})]
  }

  ghost function StoragelessGraph(a: Name, v: Name, c: Name): Graph {
    GraphData({a}, {}, {c}, map[v := Buffer(true, false)], map[], {a, v, c})
  }

  lemma {:induction false} StoragelessIsWellFormed(a: Name, v: Name, c: Name)
    requires a != v && a != c && v != c
    ensures WellFormed(StoragelessGraph(a, v, c), Storageless(a, v, c))
  {
    var g, ns := StoragelessGraph(a, v, c), Storageless(a, v, c);
    assert ns[0] in ns && ns[1] in ns && ns[..1] == [ns[0]] && ns[..0] == [] && ns[2..] == [];
    assert ns[0] in ns[..1];
    assert Produced(ns[..1]) == {v} && Produced(ns) == {v, c} && Produced(ns[..0]) == {};
    assert NodeOkAt(g, ns, 0);
    assert NodeOkAt(g, ns, 1);
  }

  /** Run as one partition the graph goes through; with its two nodes in different partitions, the second
      takes the buffer without storage as an input and the run fails. */
  lemma {:induction false} StoragelessRunFails<V>(a: Name, v: Name, c: Name, k: Kernel<V>, start: Store<V>)
    requires a != v && a != c && v != c && start.Keys == {a}
    ensures var g, ns := StoragelessGraph(a, v, c), Storageless(a, v, c);
            var ps := [[ns[0]], [ns[1]]];
            && WellFormed(g, ns)
            && RunNodes(g, k, map[], ns, start).Some?
            && RunPartitions(g, k, map[], [ns], Signatures(g, [ns], [false]), start).Some?
            && RunPartitions(g, k, map[], ps, Signatures(g, ps, [false, false]), start).None?
  {
    var g, ns := StoragelessGraph(a, v, c), Storageless(a, v, c);
    var ps := [[ns[0]], [ns[1]]];
    StoragelessIsWellFormed(a, v, c);
    FlattenOne(ns);
    FlattenTwo(ns[0], ns[1]);
    assert ns == [ns[0], ns[1]];
    assert v in Produced(ns) by {
      assert ns[0] in ns;
    }
    assert TakesStorage(g, [ns][0]);
    PartitionedRunIsCorrect(g, k, map[], [ns], [false], start);
    assert ps[1][0] in ps[1] && v in FreedFromElsewhere(g, ps[1]) && IsNoneLayout(g, v);
    assert !TakesStorage(g, ps[1]);
    PartitionedRunIsCorrect(g, k, map[], ps, [false, false], start);
  }

  lemma {:induction false} FlattenOne(p: Partition)
    ensures Flatten([p]) == p
  {
    assert [p][1..] == [];
  }

  lemma {:induction false} FlattenTwo(m: Node, n: Node)
    ensures Flatten([[m], [n]]) == [m, n]
  {
    FlattenOne([n]);
    assert [[m], [n]][1..] == [[n]];
  }

  // ----- A graph output that is a mutation alias -----

  /** `b` is made from `a` and mutated under the name `m`, which is the graph output. */
  function Aliased(a: Name, b: Name, m: Name): seq<Node> {
    [Node(0, {b}, {a}, {}, {}), Node(1, {m}, {b}, {}, {})]
  }

  ghost function AliasedGraph(a: Name, b: Name, m: Name): Graph
    requires m != b
  {
    GraphData({a}, {}, {m}, map[m := Buffer(true, true)], map[m := b], {a, b, m})
  }

  lemma {:induction false} AliasedIsWellFormed(a: Name, b: Name, m: Name)
    requires a != b && a != m && b != m
    ensures WellFormed(AliasedGraph(a, b, m), Aliased(a, b, m))
  {
    var g, ns := AliasedGraph(a, b, m), Aliased(a, b, m);
    assert ns[0] in ns && ns[1] in ns && ns[..1] == [ns[0]] && ns[..0] == [] && ns[2..] == [];
    assert ns[0] in ns[..1];
    assert Produced(ns[..1]) == {b} && Produced(ns) == {b, m} && Produced(ns[..0]) == {};
    assert b in ns[1].readNames + ns[1].writeNames - ns[1].outputs && Real(g, b) == b;
    assert b in Operands(g, ns[1]);
    assert NodeOkAt(g, ns, 0);
    assert NodeOkAt(g, ns, 1);
  }

  /** The alias is produced by a partition and still unmet when the pass ends. */
  lemma {:induction false} AliasIsLeftOver(a: Name, b: Name, m: Name)
    requires a != b && a != m && b != m
    ensures var g, ns := AliasedGraph(a, b, m), Aliased(a, b, m);
            WellFormed(g, ns) && m in Produced(ns) && m in Unmet(g, [[ns[0]], [ns[1]]])
  {
    var g, ns := AliasedGraph(a, b, m), Aliased(a, b, m);
    AliasedIsWellFormed(a, b, m);
    FlattenTwo(ns[0], ns[1]);
    assert ns == [ns[0], ns[1]] && [] + ns == ns && ns[1] in ns;
    LeftoverUnmet(g, [], [[ns[0]], [ns[1]]], m);
  }
}
