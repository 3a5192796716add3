/** Running a partitioned graph.  Each partition sees only what its signature lets in,
    frees storage at its last use and exports only what its signature hands out.  The main
    theorem says that this agrees with one run of all nodes over a single store that never
    frees anything.  */
module PartitionRun {
  import opened GraphPartition
  import opened Options

  type Store<V> = map<Name, V>

  /** What a node stores under a storage name, given the values of its operands. */
  type Kernel<!V> = (Node, Name, Store<V>) -> V

  // ----- What a node reads and stores -----

  function Operands(g: Graph, n: Node): set<Name> {
    set x | x in n.readNames + n.writeNames - n.outputs && !IsNoneLayout(g, x) :: Real(g, x)
  }

  function NodeStores(g: Graph, n: Node): set<Name> {
    set x | x in n.outputs && !IsNoneLayout(g, x) :: Real(g, x)
  }

  function Stores(g: Graph, p: Partition): set<Name> {
    set n, y | n in p && y in NodeStores(g, n) :: y
  }

  /** Every storage name a node depends on, stores or frees. */
  function Mentions(g: Graph, n: Node): set<Name> {
    Operands(g, n) + NodeStores(g, n) + n.lastUsage * g.nameToNode
  }

  // ----- Well-formed graphs -----

  function Available(g: Graph, done: seq<Node>): set<Name> {
    g.inputs + Produced(done)
  }

  /** `n` runs after the nodes `done` and before the nodes `rest`. */
  ghost predicate NodeOk(g: Graph, done: seq<Node>, n: Node, rest: seq<Node>) {
    // every name is produced once
    && n.outputs !! Available(g, done) + g.constants
    // and before its use
    && (forall x :: x in n.readNames + n.writeNames - n.outputs && !IsNoneLayout(g, x) ==>
          x in Available(g, done) + g.constants)
    // a node that mutates a buffer also depends on that buffer
    && (forall a :: a in n.outputs && a in g.realName ==> Real(g, a) in Operands(g, n))
    // a buffer is freed under its real name, exists when it is freed, and is needed by no later node
    // and no graph output
    && (forall y :: y in n.lastUsage && y in g.nameToNode ==>
          && y in Available(g, done) + n.outputs
          && y !in g.realName
          && (forall m :: m in rest ==> y !in Mentions(g, m))
          && (forall o :: o in g.outputs ==> Real(g, o) != y))
  }

  ghost predicate NodeOkAt(g: Graph, nodes: seq<Node>, i: nat)
    requires i < |nodes|
  {
    NodeOk(g, nodes[..i], nodes[i], nodes[i + 1..])
  }

  ghost predicate WellFormed(g: Graph, nodes: seq<Node>) {
    && g.nameToNode == Available(g, nodes)
    && g.constants !! g.nameToNode
    && (forall x :: x in g.inputs ==> !LacksLayout(g, x))
    && (forall a :: a in g.realName ==>
          && a !in g.inputs + g.constants
          && Real(g, a) !in g.constants
          && !LacksLayout(g, Real(g, a)) && (LacksLayout(g, a) ==> g.buffers[a].mutationOutput))
    && (forall i :: 0 <= i < |nodes| ==> NodeOkAt(g, nodes, i))
  }

  function Flatten(ps: seq<Partition>): seq<Node> {
    if ps == [] then [] else ps[0] + Flatten(ps[1..])
  }

  // ----- Execution -----

  function View<V>(g: Graph, consts: Store<V>, n: Node, s: Store<V>): Store<V> {
    map y | y in Operands(g, n) && y in consts.Keys + s.Keys :: if y in consts then consts[y] else s[y]
  }

  /** Runs one node; fails when an operand is missing. */
  function RunNode<V>(g: Graph, k: Kernel<V>, consts: Store<V>, n: Node, s: Store<V>): Option<Store<V>> {
    if Operands(g, n) <= consts.Keys + s.Keys then
      Some(s + map y | y in NodeStores(g, n) :: k(n, y, View(g, consts, n, s)))
    else None
  }

  /** All nodes over one store; nothing is ever freed. */
  function RunNodes<V>(g: Graph, k: Kernel<V>, consts: Store<V>, ns: seq<Node>, s: Store<V>): Option<Store<V>> {
    if ns == [] then Some(s)
    else
      var s' := RunNode(g, k, consts, ns[0], s);
      if s'.None? then None else RunNodes(g, k, consts, ns[1..], s'.value)
  }

  /** The body of a partition: storage is dropped after its last use. */
  function RunBody<V>(g: Graph, k: Kernel<V>, consts: Store<V>, ns: seq<Node>, s: Store<V>): Option<Store<V>> {
    if ns == [] then Some(s)
    else
      var s' := RunNode(g, k, consts, ns[0], s);
      if s'.None? then None else RunBody(g, k, consts, ns[1..], s'.value - ns[0].lastUsage)
  }

  function Restrict<V>(s: Store<V>, names: set<Name>): Store<V> {
    map y | y in names && y in s :: s[y]
  }

  /** Calls one partition: its inputs are moved in, its constants are visible, and its outputs are
      moved out.  Fails when an input, an operand or an output is missing. */
  function RunPartition<V>(g: Graph, k: Kernel<V>, consts: Store<V>, p: Partition, sig: Signature, outer: Store<V>)
    : Option<Store<V>>
  {
    if !(sig.inputs <= outer.Keys) then None
    else
      var body := RunBody(g, k, Restrict(consts, sig.constants), p, Restrict(outer, sig.inputs));
      if body.None? || !(sig.outputs <= body.value.Keys) then None
      else Some((outer - sig.inputs) + Restrict(body.value, sig.outputs))
  }

  function RunPartitions<V>(g: Graph, k: Kernel<V>, consts: Store<V>, ps: seq<Partition>, sigs: seq<Signature>,
                            outer: Store<V>): Option<Store<V>>
    requires |sigs| == |ps|
  {
    if ps == [] then Some(outer)
    else
      var outer' := RunPartition(g, k, consts, ps[0], sigs[0], outer);
      if outer'.None? then None else RunPartitions(g, k, consts, ps[1..], sigs[1..], outer'.value)
  }

  // ----- Facts about well-formed graphs -----

  /** The names a partition frees although it did not produce them. */
  function FreedFromElsewhere(g: Graph, p: Partition): set<Name> {
    set y | y in Freed(p) - Produced(p) && y in g.nameToNode
  }

  /** Every buffer that the partition frees from elsewhere has storage. */
  ghost predicate TakesStorage(g: Graph, p: Partition) {
    forall y :: y in FreedFromElsewhere(g, p) ==> !IsNoneLayout(g, y)
  }

  lemma {:induction false} OkAt(g: Graph, done: seq<Node>, n: Node, rest: seq<Node>)
    requires WellFormed(g, done + [n] + rest)
    ensures NodeOk(g, done, n, rest)
  {
    var ns := done + [n] + rest;
    assert NodeOkAt(g, ns, |done|);
    assert ns[..|done|] == done && ns[|done|] == n && ns[|done| + 1..] == rest;
  }

  /** Names produced by later nodes are new. */
  lemma {:induction false} LaterIsNew(g: Graph, done: seq<Node>, rest: seq<Node>)
    requires WellFormed(g, done + rest)
    ensures Available(g, done) !! Produced(rest)
    decreases |rest|
  {
    if rest != [] {
      assert done + rest == done + [rest[0]] + rest[1..];
      OkAt(g, done, rest[0], rest[1..]);
      LaterIsNew(g, done + [rest[0]], rest[1..]);
      assert rest == [rest[0]] + rest[1..];
      assert Produced(rest) == rest[0].outputs + Produced(rest[1..]);
      assert Available(g, done) <= Available(g, done + [rest[0]]);
    }
  }

  /** What is freed early is mentioned by no later node. */
  lemma {:induction false} FreedIsDead(g: Graph, done: seq<Node>, rest: seq<Node>, n: Node, y: Name)
    requires WellFormed(g, done + rest)
    requires y in Freed(done) && y in g.nameToNode && n in rest
    ensures y !in Mentions(g, n)
  {
    var init, last := done[..|done| - 1], done[|done| - 1];
    assert done == init + [last];
    assert done + rest == init + [last] + rest == init + ([last] + rest);
    if y in last.lastUsage {
      OkAt(g, init, last, rest);
    } else {
      FreedIsDead(g, init, [last] + rest, n, y);
    }
  }

  /** What is freed owns no graph output. */
  lemma {:induction false} FreedIsNoOutput(g: Graph, p: Partition, nodes: seq<Node>, y: Name, o: Name)
    requires WellFormed(g, nodes) && forall n :: n in p ==> n in nodes
    requires y in Freed(p) && y in g.nameToNode && o in g.outputs
    ensures Real(g, o) != y
  {
    var n :| n in p && y in n.lastUsage;
    var i :| 0 <= i < |nodes| && nodes[i] == n;
    assert NodeOkAt(g, nodes, i);
  }

  /** A mutation depends on an older name of the storage it mutates. */
  lemma {:induction false} MutatesOlder(g: Graph, done: seq<Node>, n: Node, rest: seq<Node>, a: Name) returns (x: Name)
    requires WellFormed(g, done + [n] + rest)
    requires a in n.outputs && a in g.realName
    ensures x in n.readNames + n.writeNames - n.outputs && !IsNoneLayout(g, x)
    ensures x in Available(g, done) && Real(g, x) == Real(g, a)
  {
    OkAt(g, done, n, rest);
    assert Real(g, a) in Operands(g, n);
    x :| x in n.readNames + n.writeNames - n.outputs && !IsNoneLayout(g, x) && Real(g, x) == Real(g, a);
  }

  /** The storage behind an available name is available. */
  lemma {:induction false} RealIsAvailable(g: Graph, done: seq<Node>, rest: seq<Node>, x: Name)
    requires WellFormed(g, done + rest)
    requires x in Available(g, done)
    ensures Real(g, x) in Available(g, done)
  {
    if x in g.realName {
      var init, n := done[..|done| - 1], done[|done| - 1];
      assert done == init + [n];
      assert done + rest == init + [n] + rest == init + ([n] + rest);
      var x' := x;
      if x in n.outputs {
        x' := MutatesOlder(g, init, n, rest, x);
      }
      RealIsAvailable(g, init, [n] + rest, x');
    }
  }

  /** An older name that a node of `p` depends on becomes an input of `p`. */
  lemma {:induction false} OlderOperandIsInput(g: Graph, done: seq<Node>, p: Partition, rest: seq<Node>, n: Node,
                                               x: Name)
    requires WellFormed(g, done + p + rest)
    requires n in p && x in n.readNames + n.writeNames && !IsNoneLayout(g, x) && x in Available(g, done)
    ensures Real(g, x) in InputNames(g, p) && Real(g, x) in g.nameToNode
  {
    assert done + p + rest == done + (p + rest);
    LaterIsNew(g, done, p + rest);
    RealIsAvailable(g, done, p + rest, x);
    assert x in Touched(p);
  }

  lemma {:induction false} TouchedIsOlder(g: Graph, done: seq<Node>, p: Partition, rest: seq<Node>, x: Name)
    requires WellFormed(g, done + p + rest)
    requires x in Touched(p) - Produced(p) && !IsNoneLayout(g, x)
    ensures x in Available(g, done) + g.constants
    ensures exists n :: n in p && Real(g, x) in Operands(g, n)
  {
    var n :| n in p && x in n.readNames + n.writeNames;
    var i :| 0 <= i < |p| && p[i] == n;
    assert p == p[..i] + [n] + p[i + 1..];
    assert done + p + rest == (done + p[..i]) + [n] + (p[i + 1..] + rest);
    OkAt(g, done + p[..i], n, p[i + 1..] + rest);
    assert Real(g, x) in Operands(g, n);
  }

  lemma {:induction false} FreedIsOlder(g: Graph, done: seq<Node>, p: Partition, rest: seq<Node>, y: Name)
    requires WellFormed(g, done + p + rest)
    requires y in Freed(p) - Produced(p) && y in g.nameToNode
    ensures y in Available(g, done) && y !in g.realName
  {
    var n :| n in p && y in n.lastUsage;
    var i :| 0 <= i < |p| && p[i] == n;
    assert p == p[..i] + [n] + p[i + 1..];
    assert done + p + rest == (done + p[..i]) + [n] + (p[i + 1..] + rest);
    OkAt(g, done + p[..i], n, p[i + 1..] + rest);
  }

  /** A partition's inputs are real names or constants that exist before it runs, some node of the
      partition mentions each of them, and only one that it merely frees can be without storage. */
  lemma {:induction false} InputsAreOlder(g: Graph, done: seq<Node>, p: Partition, rest: seq<Node>, y: Name)
    requires WellFormed(g, done + p + rest)
    requires y in InputNames(g, p)
    ensures y in Available(g, done) + g.constants
    ensures y !in g.realName && (IsNoneLayout(g, y) ==> y in FreedFromElsewhere(g, p))
    ensures exists n :: n in p && (y in Operands(g, n) || y in n.lastUsage * g.nameToNode)
  {
    if x :| x in Touched(p) - Produced(p) && !IsNoneLayout(g, x) && y == Real(g, x) {
      TouchedIsOlder(g, done, p, rest, x);
      if x in Available(g, done) {
        assert done + p + rest == done + (p + rest);
        RealIsAvailable(g, done, p + rest, x);
      }
    } else {
      FreedIsOlder(g, done, p, rest, y);
      var n :| n in p && y in n.lastUsage;
    }
  }

  lemma {:induction false} ProducedIsStored(g: Graph, p: Partition, x: Name)
    requires x in Produced(p) && !IsNoneLayout(g, x)
    ensures Real(g, x) in Stores(g, p)
  {
    var n :| n in p && x in n.outputs;
    assert Real(g, x) in NodeStores(g, n);
  }

  /** What a partition stores is either new storage or storage it took in. */
  lemma {:induction false} StoresAreNewOrInputs(g: Graph, done: seq<Node>, ran: seq<Node>, todo: seq<Node>,
                                                rest: seq<Node>, y: Name)
    requires WellFormed(g, done + (ran + todo) + rest)
    requires y in Stores(g, ran)
    ensures y in g.nameToNode
    ensures y in Produced(ran) || y in InputNames(g, ran + todo)
    decreases |ran|
  {
    var init, n := ran[..|ran| - 1], ran[|ran| - 1];
    assert ran == init + [n] && ran + todo == init + ([n] + todo);
    assert done + (ran + todo) + rest == (done + init) + [n] + (todo + rest);
    if y in Stores(g, init) {
      StoresAreNewOrInputs(g, done, init, [n] + todo, rest, y);
    } else {
      var m :| m in n.outputs && !IsNoneLayout(g, m) && y == Real(g, m);
      if m in g.realName {
        var x := MutatesOlder(g, done + init, n, todo + rest, m);
        if x in Produced(init) {
          ProducedIsStored(g, init, x);
          assert false;
        }
        OlderOperandIsInput(g, done, ran + todo, rest, n, x);
      } else {
        assert m in Available(g, done + (ran + todo) + rest);
      }
    }
  }

  /** Every operand of the next node is a constant, or came in or was stored and is not yet freed. */
  lemma {:induction false} OperandIsThere(g: Graph, done: seq<Node>, ran: seq<Node>, n: Node, todo: seq<Node>,
                                          rest: seq<Node>, y: Name)
    requires WellFormed(g, done + (ran + [n] + todo) + rest)
    requires y in Operands(g, n)
    ensures y in g.constants ||
            (y in g.nameToNode && y !in Freed(ran) && (y in InputNames(g, ran + [n] + todo) || y in Stores(g, ran)))
    ensures y in g.constants || exists x :: x in Available(g, done + ran) && !IsNoneLayout(g, x) && y == Real(g, x)
  {
    var p := ran + [n] + todo;
    assert done + p + rest == (done + ran) + [n] + (todo + rest) == (done + ran) + ([n] + (todo + rest));
    OkAt(g, done + ran, n, todo + rest);
    var x :| x in n.readNames + n.writeNames - n.outputs && !IsNoneLayout(g, x) && y == Real(g, x);
    if x !in g.constants {
      RealIsAvailable(g, done + ran, [n] + (todo + rest), x);
      assert y in g.nameToNode;
      if x in Available(g, done) {
        OlderOperandIsInput(g, done, p, rest, n, x);
      } else {
        ProducedIsStored(g, ran, x);
      }
      if y in Freed(ran) {
        FreedIsDead(g, done + ran, [n] + (todo + rest), n, y);
      }
    }
  }

  lemma {:induction false} FreedIsNotStored(g: Graph, done: seq<Node>, ran: seq<Node>, n: Node, rest: seq<Node>)
    requires WellFormed(g, done + ran + [n] + rest)
    ensures NodeStores(g, n) !! Freed(ran)
  {
    var before := done + ran;
    assert before + [n] + rest == before + ([n] + rest) == (before + [n]) + rest;
    forall y | y in NodeStores(g, n) ensures y !in Freed(ran) {
      var m :| m in n.outputs && !IsNoneLayout(g, m) && y == Real(g, m);
      RealIsAvailable(g, before + [n], rest, m);
      if y in Freed(ran) {
        FreedIsDead(g, before, [n] + rest, n, y);
      }
    }
  }

  // ----- Simulation -----

  /** `s` holds nothing that `ref` does not hold with the same value. */
  ghost predicate Agrees<V>(s: Store<V>, ref: Store<V>) {
    forall y :: y in s ==> y in ref && s[y] == ref[y]
  }

  /** `ref` holds the storage of every available allocated name. */
  ghost predicate Complete<V>(g: Graph, done: seq<Node>, ref: Store<V>) {
    forall x :: x in Available(g, done) && !IsNoneLayout(g, x) ==> Real(g, x) in ref
  }

  function Inputs(g: Graph, p: Partition): set<Name> {
    set x | x in InputNames(g, p) && x in g.nameToNode
  }

  function Constants(g: Graph, p: Partition): set<Name> {
    InputNames(g, p) * g.constants
  }

  /** `mine` has all that node `n` needs of the constants. */
  ghost predicate HasConstants<V>(g: Graph, consts: Store<V>, mine: Store<V>, n: Node) {
    Agrees(mine, consts) && Operands(g, n) * consts.Keys <= mine.Keys
  }

  /** A node whose operands are present in two agreeing stores does the same to both. */
  lemma {:induction false} NodeRuns<V>(g: Graph, k: Kernel<V>, consts: Store<V>, mine: Store<V>, n: Node,
                                       local: Store<V>, ref: Store<V>)
    requires Agrees(local, ref) && HasConstants(g, consts, mine, n)
    requires Operands(g, n) <= consts.Keys + local.Keys
    ensures var l, r := RunNode(g, k, mine, n, local), RunNode(g, k, consts, n, ref);
            && l.Some? && r.Some?
            && l.value.Keys == local.Keys + NodeStores(g, n) && r.value.Keys == ref.Keys + NodeStores(g, n)
            && Agrees(l.value, r.value)
  {
    assert View(g, mine, n, local) == View(g, consts, n, ref);
  }

  /** The constants of a partition's signature are those its nodes need. */
  lemma {:induction false} ConstantsAreVisible<V>(g: Graph, consts: Store<V>, done: seq<Node>, p: Partition,
                                                  rest: seq<Node>, n: Node)
    requires WellFormed(g, done + p + rest) && consts.Keys == g.constants && n in p
    ensures HasConstants(g, consts, Restrict(consts, Constants(g, p)), n)
  {
    forall y | y in Operands(g, n) && y in g.constants ensures y in Constants(g, p) {
      var x :| x in n.readNames + n.writeNames - n.outputs && !IsNoneLayout(g, x) && y == Real(g, x);
      assert x == y && x in Touched(p);
      ConstantIsNotProduced(g, done, p, rest, y);
    }
  }

  lemma {:induction false} ConstantIsNotProduced(g: Graph, done: seq<Node>, p: Partition, rest: seq<Node>, y: Name)
    requires WellFormed(g, done + p + rest) && y in g.constants
    ensures y !in Produced(p)
  {
    assert Produced(p) <= Produced(done + p + rest) by {
      assert forall n :: n in p ==> n in done + p + rest;
    }
  }

  /** And no others: a signature names exactly the constants with a layout that its nodes read or write. */
  lemma {:induction false} ConstantsAreExact(g: Graph, done: seq<Node>, p: Partition, rest: seq<Node>, x: Name)
    requires WellFormed(g, done + p + rest)
    ensures x in Constants(g, p) <==>
            x in g.constants && !LacksLayout(g, x) && exists n :: n in p && x in n.readNames + n.writeNames
  {
    if x in g.constants {
      ConstantIsNotProduced(g, done, p, rest, x);
      assert x !in g.realName && x !in g.nameToNode && Real(g, x) == x;
    }
  }

  lemma {:induction false} StoresOfNext(g: Graph, done: seq<Node>, ran: seq<Node>, n: Node, todo: seq<Node>,
                                        rest: seq<Node>, inputs: set<Name>)
    requires WellFormed(g, done + (ran + [n] + todo) + rest)
    ensures inputs + Stores(g, ran) - Freed(ran) + NodeStores(g, n) - n.lastUsage
         == inputs + Stores(g, ran + [n]) - Freed(ran + [n])
  {
    assert done + (ran + [n] + todo) + rest == done + ran + [n] + (todo + rest);
    FreedIsNotStored(g, done, ran, n, todo + rest);
  }

  lemma {:induction false} OperandsAreThere(g: Graph, done: seq<Node>, ran: seq<Node>, n: Node, todo: seq<Node>,
                                            rest: seq<Node>)
    requires WellFormed(g, done + (ran + [n] + todo) + rest)
    ensures Operands(g, n) <= g.constants + (Inputs(g, ran + [n] + todo) + Stores(g, ran) - Freed(ran))
  {
    forall y | y in Operands(g, n)
      ensures y in g.constants + (Inputs(g, ran + [n] + todo) + Stores(g, ran) - Freed(ran))
    {
      OperandIsThere(g, done, ran, n, todo, rest, y);
    }
  }

  lemma {:induction false} CompleteAfter<V>(g: Graph, done: seq<Node>, n: Node, ref: Store<V>, ref': Store<V>)
    requires Complete(g, done, ref) && ref'.Keys == ref.Keys + NodeStores(g, n)
    ensures Complete(g, done + [n], ref')
  {
    forall x | x in Available(g, done + [n]) && !IsNoneLayout(g, x) ensures Real(g, x) in ref' {
      if x in n.outputs {
        assert Real(g, x) in NodeStores(g, n);
      }
    }
  }

  /** One node, run on the local store of its partition and on the store of the whole graph. */
  lemma {:induction false} NodeAgrees<V>(g: Graph, k: Kernel<V>, consts: Store<V>, mine: Store<V>, done: seq<Node>,
                                         ran: seq<Node>, n: Node, todo: seq<Node>, rest: seq<Node>, local: Store<V>,
                                         ref: Store<V>)
    requires WellFormed(g, done + (ran + [n] + todo) + rest) && consts.Keys == g.constants
    requires HasConstants(g, consts, mine, n)
    requires local.Keys == Inputs(g, ran + [n] + todo) + Stores(g, ran) - Freed(ran)
    requires Agrees(local, ref) && Complete(g, done + ran, ref)
    ensures var l, r := RunNode(g, k, mine, n, local), RunNode(g, k, consts, n, ref);
            && l.Some? && r.Some?
            && (l.value - n.lastUsage).Keys == Inputs(g, ran + [n] + todo) + Stores(g, ran + [n]) - Freed(ran + [n])
            && Agrees(l.value - n.lastUsage, r.value)
            && Complete(g, done + (ran + [n]), r.value)
  {
    OperandsAreThere(g, done, ran, n, todo, rest);
    NodeRuns(g, k, consts, mine, n, local, ref);
    StoresOfNext(g, done, ran, n, todo, rest, Inputs(g, ran + [n] + todo));
    assert done + ran + [n] == done + (ran + [n]);
    CompleteAfter(g, done + ran, n, ref, RunNode(g, k, consts, n, ref).value);
  }

  /** The body of a partition computes what the whole-graph run computes, and ends up with exactly
      what came in or was stored, less what was freed. */
  lemma {:induction false} BodyAgrees<V>(g: Graph, k: Kernel<V>, consts: Store<V>, done: seq<Node>, ran: seq<Node>,
                                         todo: seq<Node>, rest: seq<Node>, local: Store<V>, ref: Store<V>)
    requires WellFormed(g, done + (ran + todo) + rest) && consts.Keys == g.constants
    requires local.Keys == Inputs(g, ran + todo) + Stores(g, ran) - Freed(ran)
    requires Agrees(local, ref) && Complete(g, done + ran, ref)
    ensures var mine := Restrict(consts, Constants(g, ran + todo));
            var l, r := RunBody(g, k, mine, todo, local), RunNodes(g, k, consts, todo, ref);
            && l.Some? && r.Some?
            && l.value.Keys == Inputs(g, ran + todo) + Stores(g, ran + todo) - Freed(ran + todo)
            && Agrees(l.value, r.value)
            && Complete(g, done + (ran + todo), r.value)
    decreases |todo|
  {
    if todo == [] {
      assert ran + todo == ran;
    } else {
      var n, todo' := todo[0], todo[1..];
      var mine := Restrict(consts, Constants(g, ran + todo));
      assert ran + todo == ran + [n] + todo';
      ConstantsAreVisible(g, consts, done, ran + todo, rest, n);
      NodeAgrees(g, k, consts, mine, done, ran, n, todo', rest, local, ref);
      BodyAgrees(g, k, consts, done, ran + [n], todo', rest,
                 RunNode(g, k, mine, n, local).value - n.lastUsage, RunNode(g, k, consts, n, ref).value);
    }
  }

  /** Storage that is not stored to keeps its value. */
  lemma {:induction false} RunNodesFrame<V>(g: Graph, k: Kernel<V>, consts: Store<V>, ns: seq<Node>, s: Store<V>,
                                            y: Name)
    requires RunNodes(g, k, consts, ns, s).Some?
    requires y in s && y !in Stores(g, ns)
    ensures y in RunNodes(g, k, consts, ns, s).value && RunNodes(g, k, consts, ns, s).value[y] == s[y]
    decreases |ns|
  {
    if ns != [] {
      assert ns == [ns[0]] + ns[1..];
      assert y !in Stores(g, ns[1..]) && y !in NodeStores(g, ns[0]);
      RunNodesFrame(g, k, consts, ns[1..], RunNode(g, k, consts, ns[0], s).value, y);
    }
  }

  lemma {:induction false} RunNodesSplit<V>(g: Graph, k: Kernel<V>, consts: Store<V>, a: seq<Node>, b: seq<Node>,
                                            s: Store<V>)
    requires RunNodes(g, k, consts, a, s).Some?
    ensures RunNodes(g, k, consts, a + b, s) == RunNodes(g, k, consts, b, RunNodes(g, k, consts, a, s).value)
    decreases |a|
  {
    if a == [] {
      assert a + b == b;
    } else {
      assert (a + b)[0] == a[0] && (a + b)[1..] == a[1..] + b;
      RunNodesSplit(g, k, consts, a[1..], b, RunNode(g, k, consts, a[0], s).value);
    }
  }

  /** Unmet names come from the graph outputs or from a later node's needs. */
  lemma {:induction false} UnmetOrigin(g: Graph, ps: seq<Partition>, x: Name)
    requires x in Unmet(g, ps)
    ensures x in g.outputs || exists q :: q in ps && x in InputNames(g, q)
  {
    if ps != [] && x !in InputNames(g, ps[0]) {
      UnmetOrigin(g, ps[1..], x);
    }
  }

  lemma {:induction false} FlattenHolds(ps: seq<Partition>, q: Partition) returns (before: seq<Node>, after: seq<Node>)
    requires q in ps
    ensures Flatten(ps) == before + q + after
  {
    if ps[0] == q {
      before, after := [], Flatten(ps[1..]);
      assert Flatten(ps) == before + q + after;
    } else {
      before, after := FlattenHolds(ps[1..], q);
      before := ps[0] + before;
      assert Flatten(ps) == before + q + after;
    }
  }

  /** What has been freed is not the storage of any name that is still unmet. */
  lemma {:induction false} FreedIsMet(g: Graph, done: seq<Node>, ps: seq<Partition>, y: Name, x: Name)
    requires WellFormed(g, done + Flatten(ps))
    requires y in Freed(done) && y in g.nameToNode
    requires x in Unmet(g, ps)
    ensures Real(g, x) != y
  {
    UnmetOrigin(g, ps, x);
    if x in g.outputs {
      FreedIsNoOutput(g, done, done + Flatten(ps), y, x);
    } else {
      var q :| q in ps && x in InputNames(g, q);
      var before, after := FlattenHolds(ps, q);
      assert done + Flatten(ps) == (done + before) + q + after;
      InputsAreOlder(g, done + before, q, after, x);
      var n :| n in q && (x in Operands(g, n) || x in n.lastUsage * g.nameToNode);
      assert n in Flatten(ps);
      FreedIsDead(g, done, Flatten(ps), n, y);
    }
  }

  // ----- One partition -----

  /** What holds between two partitions: the store between partitions agrees with the whole-graph
      run, holds nothing that was freed or is without storage, and holds the storage of every name
      still unmet. */
  ghost predicate Between<V>(g: Graph, done: seq<Node>, ps: seq<Partition>, outer: Store<V>, ref: Store<V>) {
    && Agrees(outer, ref)
    && Complete(g, done, ref)
    && outer.Keys <= Available(g, done) - Freed(done)
    && Needed(g, done, ps) <= outer.Keys
    && (forall y :: y in outer ==> !IsNoneLayout(g, y))
  }

  function Needed(g: Graph, done: seq<Node>, ps: seq<Partition>): set<Name> {
    set x | x in Unmet(g, ps) && x in Available(g, done) && !IsNoneLayout(g, x) :: Real(g, x)
  }

  lemma {:induction false} InputsArePresent(g: Graph, done: seq<Node>, p: Partition, ps: seq<Partition>)
    requires WellFormed(g, done + p + Flatten(ps)) && TakesStorage(g, p)
    ensures Inputs(g, p) <= Needed(g, done, [p] + ps)
  {
    forall y | y in Inputs(g, p) ensures y in Needed(g, done, [p] + ps) {
      InputsAreOlder(g, done, p, Flatten(ps), y);
      assert y in Unmet(g, [p] + ps) && Real(g, y) == y;
    }
  }

  /** Every output came in or was stored, and was not freed. */
  lemma {:induction false} OutputIsKept(g: Graph, done: seq<Node>, p: Partition, ps: seq<Partition>, y: Name)
    requires WellFormed(g, done + p + Flatten(ps))
    requires y in OutputNames(g, p, Unmet(g, ps))
    ensures y in Inputs(g, p) + Stores(g, p) - Freed(p)
  {
    var rest := Flatten(ps);
    if x :| x in Produced(p) * Unmet(g, ps) && y == Real(g, x) {
      ProducedIsStored(g, p, x);
      assert p + [] == p;
      StoresAreNewOrInputs(g, done, p, [], rest, y);
      if y in Freed(p) {
        FreedIsMet(g, done + p, ps, y, x);
      }
    } else {
      var x :| x in InputNames(g, p) && x in g.nameToNode && x !in Freed(p) && y == Real(g, x);
      InputsAreOlder(g, done, p, rest, x);
    }
  }

  /** What is needed after the partition is exported by it or was never moved in. */
  lemma {:induction false} NeededIsHandedOn(g: Graph, done: seq<Node>, p: Partition, ps: seq<Partition>, y: Name)
    requires WellFormed(g, done + p + Flatten(ps))
    requires y in Needed(g, done + p, ps)
    ensures y in OutputNames(g, p, Unmet(g, ps)) || (y in Needed(g, done, [p] + ps) && y !in Inputs(g, p))
  {
    var unmet := Unmet(g, ps);
    var x :| x in unmet && x in Available(g, done + p) && !IsNoneLayout(g, x) && y == Real(g, x);
    if x in Produced(p) {
      assert x in Produced(p) * unmet;
      assert y in ReturnedNames(g, p, unmet);
    } else if y in Inputs(g, p) {
      InputsAreOlder(g, done, p, Flatten(ps), y);
      if y in Freed(p) {
        FreedIsMet(g, done + p, ps, y, x);
      }
      assert y in InputNames(g, p) && y in g.nameToNode && y !in Freed(p) && Real(g, y) == y;
      assert y in ReturnedNames(g, p, unmet);
    } else if x in ReturnedNames(g, p, unmet) {
      assert x !in g.realName;
    } else {
      assert ([p] + ps)[1..] == ps;
      assert x in Unmet(g, [p] + ps);
    }
  }

  /** Storage that stays outside is not stored to by the partition. */
  lemma {:induction false} OutsideIsUntouched(g: Graph, done: seq<Node>, p: Partition, rest: seq<Node>, y: Name)
    requires WellFormed(g, done + p + rest)
    requires y in Available(g, done) && y !in Inputs(g, p)
    ensures y !in Stores(g, p) && y !in Freed(p)
  {
    assert done + p + rest == done + (p + rest);
    LaterIsNew(g, done, p + rest);
    assert y !in Produced(p);
    if y in Stores(g, p) {
      assert p + [] == p;
      StoresAreNewOrInputs(g, done, p, [], rest, y);
    }
  }

  /** An output is available after the partition and was freed by no one. */
  lemma {:induction false} OutputIsAlive(g: Graph, done: seq<Node>, p: Partition, ps: seq<Partition>, y: Name)
    requires WellFormed(g, done + p + Flatten(ps))
    requires y in OutputNames(g, p, Unmet(g, ps))
    ensures y in Available(g, done + p) - Freed(done + p)
  {
    var rest := Flatten(ps);
    OutputIsKept(g, done, p, ps, y);
    assert done + p + rest == done + (p + rest);
    var n: Node;
    if y in Inputs(g, p) {
      InputsAreOlder(g, done, p, rest, y);
      n :| n in p && (y in Operands(g, n) || y in n.lastUsage * g.nameToNode);
    } else {
      assert p + [] == p;
      StoresAreNewOrInputs(g, done, p, [], rest, y);
      n :| n in p && y in NodeStores(g, n);
    }
    assert n in p + rest;
    if y in Freed(done) {
      FreedIsDead(g, done, p + rest, n, y);
    }
  }

  lemma {:induction false} OutputsAreKept(g: Graph, done: seq<Node>, p: Partition, ps: seq<Partition>)
    requires WellFormed(g, done + p + Flatten(ps))
    ensures OutputNames(g, p, Unmet(g, ps)) <= Inputs(g, p) + Stores(g, p) - Freed(p)
    ensures OutputNames(g, p, Unmet(g, ps)) <= Available(g, done + p) - Freed(done + p)
  {
    forall y | y in OutputNames(g, p, Unmet(g, ps))
      ensures y in Inputs(g, p) + Stores(g, p) - Freed(p) && y in Available(g, done + p) - Freed(done + p)
    {
      OutputIsKept(g, done, p, ps, y);
      OutputIsAlive(g, done, p, ps, y);
    }
  }

  /** The storage left outside is what the whole-graph run has, still alive after the partition. */
  lemma {:induction false} OutsideAgrees<V>(g: Graph, k: Kernel<V>, consts: Store<V>, done: seq<Node>, p: Partition,
                                            rest: seq<Node>, outer: Store<V>, ref: Store<V>)
    requires WellFormed(g, done + p + rest)
    requires Agrees(outer, ref) && outer.Keys <= Available(g, done) - Freed(done)
    requires RunNodes(g, k, consts, p, ref).Some?
    ensures Agrees(outer - Inputs(g, p), RunNodes(g, k, consts, p, ref).value)
    ensures outer.Keys - Inputs(g, p) <= Available(g, done + p) - Freed(done + p)
  {
    forall y | y in outer && y !in Inputs(g, p)
      ensures y in RunNodes(g, k, consts, p, ref).value && outer[y] == RunNodes(g, k, consts, p, ref).value[y]
      ensures y in Available(g, done + p) - Freed(done + p)
    {
      OutsideIsUntouched(g, done, p, rest, y);
      RunNodesFrame(g, k, consts, p, ref, y);
    }
  }

  lemma {:induction false} NeededIsPresent(g: Graph, done: seq<Node>, p: Partition, ps: seq<Partition>,
                                           outer: set<Name>)
    requires WellFormed(g, done + p + Flatten(ps))
    requires Needed(g, done, [p] + ps) <= outer
    ensures Needed(g, done + p, ps) <= (outer - Inputs(g, p)) + OutputNames(g, p, Unmet(g, ps))
  {
    forall y | y in Needed(g, done + p, ps) ensures y in (outer - Inputs(g, p)) + OutputNames(g, p, Unmet(g, ps)) {
      NeededIsHandedOn(g, done, p, ps, y);
    }
  }

  /** Moving the outputs out of the body's final store. */
  lemma {:induction false} MoveOut<V>(outer: Store<V>, inputs: set<Name>, body: Store<V>, outputs: set<Name>,
                                      ref: Store<V>)
    requires Agrees(outer - inputs, ref) && Agrees(body, ref) && outputs <= body.Keys
    ensures Agrees((outer - inputs) + Restrict(body, outputs), ref)
    ensures ((outer - inputs) + Restrict(body, outputs)).Keys == (outer.Keys - inputs) + outputs
  {
  }

  /** The body of the next partition runs through and agrees with the whole-graph run. */
  lemma {:induction false} BodyRunsThrough<V>(g: Graph, k: Kernel<V>, consts: Store<V>, done: seq<Node>, p: Partition,
                                              ps: seq<Partition>, outer: Store<V>, ref: Store<V>)
    requires WellFormed(g, done + p + Flatten(ps)) && consts.Keys == g.constants
    requires Between(g, done, [p] + ps, outer, ref) && TakesStorage(g, p)
    ensures Inputs(g, p) <= outer.Keys
    ensures var mine := Restrict(consts, Constants(g, p));
            var l, r := RunBody(g, k, mine, p, Restrict(outer, Inputs(g, p))), RunNodes(g, k, consts, p, ref);
            && l.Some? && r.Some? && Agrees(l.value, r.value) && Complete(g, done + p, r.value)
            && l.value.Keys == Inputs(g, p) + Stores(g, p) - Freed(p)
  {
    InputsArePresent(g, done, p, ps);
    assert [] + p == p && done + [] == done;
    BodyAgrees(g, k, consts, done, [], p, Flatten(ps), Restrict(outer, Inputs(g, p)), ref);
  }

  /** One partition call keeps `Between`, if every buffer that it frees from elsewhere has storage. */
  lemma {:induction false} PartitionAgrees<V>(g: Graph, k: Kernel<V>, consts: Store<V>, done: seq<Node>, p: Partition,
                                              ps: seq<Partition>, skip: bool, outer: Store<V>, ref: Store<V>)
    requires WellFormed(g, done + p + Flatten(ps)) && consts.Keys == g.constants
    requires Between(g, done, [p] + ps, outer, ref) && TakesStorage(g, p)
    ensures var o := RunPartition(g, k, consts, p, SignatureOf(g, p, Unmet(g, ps), skip), outer);
            var r := RunNodes(g, k, consts, p, ref);
            o.Some? && r.Some? && Between(g, done + p, ps, o.value, r.value)
  {
    var sig := SignatureOf(g, p, Unmet(g, ps), skip);
    assert sig.inputs == Inputs(g, p) && sig.outputs == OutputNames(g, p, Unmet(g, ps))
           && sig.constants == Constants(g, p);
    BodyRunsThrough(g, k, consts, done, p, ps, outer, ref);
    var mine := Restrict(consts, sig.constants);
    var body, r := RunBody(g, k, mine, p, Restrict(outer, sig.inputs)).value, RunNodes(g, k, consts, p, ref).value;
    OutputsAreKept(g, done, p, ps);
    OutsideAgrees(g, k, consts, done, p, Flatten(ps), outer, ref);
    NeededIsPresent(g, done, p, ps, outer.Keys);
    MoveOut(outer, sig.inputs, body, sig.outputs, r);
  }

  /** A partition that frees a buffer without storage from elsewhere asks for what no one can hand it. */
  lemma {:induction false} PartitionFails<V>(g: Graph, k: Kernel<V>, consts: Store<V>, p: Partition, unmet: set<Name>,
                                             skip: bool, outer: Store<V>)
    requires (forall y :: y in outer ==> !IsNoneLayout(g, y)) && !TakesStorage(g, p)
    ensures RunPartition(g, k, consts, p, SignatureOf(g, p, unmet, skip), outer).None?
  {
    var y :| y in FreedFromElsewhere(g, p) && IsNoneLayout(g, y);
    assert y in SignatureOf(g, p, unmet, skip).inputs;
  }

  // ----- Main theorems -----

  lemma {:induction false} SignaturesOfRest(g: Graph, ps: seq<Partition>, skip: seq<bool>)
    requires |skip| == |ps| > 0
    ensures Signatures(g, ps, skip)[0] == SignatureOf(g, ps[0], Unmet(g, ps[1..]), skip[0])
    ensures Signatures(g, ps, skip)[1..] == Signatures(g, ps[1..], skip[1..])
  {
    forall i | 0 <= i < |ps| - 1 ensures SignatureAt(g, ps, skip, i + 1) == SignatureAt(g, ps[1..], skip[1..], i) {
      assert ps[1..][i + 1..] == ps[i + 1 + 1..];
    }
  }

  ghost predicate AllTakeStorage(g: Graph, ps: seq<Partition>) {
    forall i :: 0 <= i < |ps| ==> TakesStorage(g, ps[i])
  }

  lemma {:induction false} FirstAndRestTakeStorage(g: Graph, p: Partition, ps: seq<Partition>)
    ensures AllTakeStorage(g, [p] + ps) <==> TakesStorage(g, p) && AllTakeStorage(g, ps)
  {
    assert forall i :: 0 <= i < |ps| ==> ([p] + ps)[i + 1] == ps[i];
    if AllTakeStorage(g, [p] + ps) {
      assert ([p] + ps)[0] == p;
    }
  }

  lemma {:induction false} PartitionsAgree<V>(g: Graph, k: Kernel<V>, consts: Store<V>, done: seq<Node>,
                                              ps: seq<Partition>, skip: seq<bool>, outer: Store<V>, ref: Store<V>)
    requires WellFormed(g, done + Flatten(ps)) && consts.Keys == g.constants && |skip| == |ps|
    requires Between(g, done, ps, outer, ref)
    ensures var o := RunPartitions(g, k, consts, ps, Signatures(g, ps, skip), outer);
            var r := RunNodes(g, k, consts, Flatten(ps), ref);
            && (o.Some? <==> AllTakeStorage(g, ps))
            && (o.Some? ==> r.Some? && Between(g, done + Flatten(ps), [], o.value, r.value))
    decreases |ps|
  {
    if ps == [] {
      assert done + Flatten(ps) == done;
    } else {
      var p, ps' := ps[0], ps[1..];
      assert ps == [p] + ps';
      assert done + Flatten(ps) == done + p + Flatten(ps');
      SignaturesOfRest(g, ps, skip);
      FirstAndRestTakeStorage(g, p, ps');
      if TakesStorage(g, p) {
        PartitionAgrees(g, k, consts, done, p, ps', skip[0], outer, ref);
        var outer' := RunPartition(g, k, consts, p, SignatureOf(g, p, Unmet(g, ps'), skip[0]), outer).value;
        PartitionsAgree(g, k, consts, done + p, ps', skip[1..], outer', RunNodes(g, k, consts, p, ref).value);
        RunNodesSplit(g, k, consts, p, Flatten(ps'), ref);
      } else {
        PartitionFails(g, k, consts, p, Unmet(g, ps'), skip[0], outer);
      }
    }
  }

  /** The unpartitioned run of a well-formed graph never misses an operand. */
  lemma {:induction false} WholeRunSucceeds<V>(g: Graph, k: Kernel<V>, consts: Store<V>, done: seq<Node>,
                                               rest: seq<Node>, ref: Store<V>)
    requires WellFormed(g, done + rest) && consts.Keys == g.constants && Complete(g, done, ref)
    ensures RunNodes(g, k, consts, rest, ref).Some?
    decreases |rest|
  {
    if rest != [] {
      var n := rest[0];
      assert done + rest == done + ([] + [n] + rest[1..]) + [];
      forall y | y in Operands(g, n) ensures y in consts.Keys + ref.Keys {
        assert done + [] == done;
        OperandIsThere(g, done, [], n, rest[1..], [], y);
      }
      assert done + [n] + rest[1..] == done + rest;
      CompleteAfter(g, done, n, ref, RunNode(g, k, consts, n, ref).value);
      WholeRunSucceeds(g, k, consts, done + [n], rest[1..], RunNode(g, k, consts, n, ref).value);
    }
  }

  /** For every well-formed graph, every split into partitions and every kernel: the partitioned run
      goes through exactly when no partition frees a buffer without storage that it did not produce.
      It then ends with every graph output present, agrees with the whole-graph run on everything
      it holds, and holds nothing that was freed.  The whole-graph run always goes through. */
  lemma {:induction false} PartitionedRunIsCorrect<V>(g: Graph, k: Kernel<V>, consts: Store<V>, ps: seq<Partition>,
                                                      skip: seq<bool>, start: Store<V>)
    requires WellFormed(g, Flatten(ps))
    requires consts.Keys == g.constants && start.Keys == g.inputs && |skip| == |ps|
    ensures var o := RunPartitions(g, k, consts, ps, Signatures(g, ps, skip), start);
            var r := RunNodes(g, k, consts, Flatten(ps), start);
            && r.Some?
            && (o.Some? <==> forall i :: 0 <= i < |ps| ==> TakesStorage(g, ps[i]))
            && (o.Some? ==>
                  && (forall x :: x in g.outputs && x in g.nameToNode && !IsNoneLayout(g, x) ==> Real(g, x) in o.value)
                  && (forall y :: y in o.value ==> y in r.value && o.value[y] == r.value[y])
                  && o.value.Keys !! Freed(Flatten(ps)))
  {
    assert [] + Flatten(ps) == Flatten(ps);
    assert Available(g, []) == g.inputs;
    StartIsBetween(g, ps, start);
    WholeRunSucceeds(g, k, consts, [], Flatten(ps), start);
    PartitionsAgree(g, k, consts, [], ps, skip, start, start);
    var o := RunPartitions(g, k, consts, ps, Signatures(g, ps, skip), start);
    if o.Some? {
      forall x | x in g.outputs && x in g.nameToNode && !IsNoneLayout(g, x) ensures Real(g, x) in o.value {
        assert Real(g, x) in Needed(g, Flatten(ps), []);
      }
    }
  }

  lemma {:induction false} StartIsBetween<V>(g: Graph, ps: seq<Partition>, start: Store<V>)
    requires WellFormed(g, Flatten(ps)) && start.Keys == g.inputs
    ensures Between(g, [], ps, start, start)
  {
    assert Available(g, []) == g.inputs;
  }

  lemma {:induction false} FlattenAppend(a: seq<Partition>, b: seq<Partition>)
    ensures Flatten(a + b) == Flatten(a) + Flatten(b)
  {
    if a == [] {
      assert a + b == b;
    } else {
      assert (a + b)[0] == a[0] && (a + b)[1..] == a[1..] + b;
      FlattenAppend(a[1..], b);
    }
  }

  lemma {:induction false} FlattenAround(ps: seq<Partition>, i: nat)
    requires i < |ps|
    ensures Flatten(ps) == Flatten(ps[..i]) + ps[i] + Flatten(ps[i + 1..])
  {
    assert ps == ps[..i] + ps[i..] && ps[i..][1..] == ps[i + 1..];
    FlattenAppend(ps[..i], ps[i..]);
  }

  /** On a well-formed graph the lookup of the nodes to return never raises. */
  lemma {:induction false} SignaturesNeverRaise(g: Graph, ps: seq<Partition>, i: nat)
    requires WellFormed(g, Flatten(ps)) && i < |ps|
    ensures !LookupFailsAt(g, ps, i)
  {
    FlattenAround(ps, i);
    OutputsAreKept(g, Flatten(ps[..i]), ps[i], ps[i + 1..]);
  }

  lemma {:induction false} FreedIsNoLaterInput(g: Graph, done: seq<Node>, p: Partition, rest: seq<Node>, y: Name)
    requires WellFormed(g, done + p + rest)
    requires y in Freed(done) && y in g.nameToNode
    ensures y !in InputNames(g, p)
  {
    if y in InputNames(g, p) {
      InputsAreOlder(g, done, p, rest, y);
      var n :| n in p && (y in Operands(g, n) || y in n.lastUsage * g.nameToNode);
      assert done + p + rest == done + (p + rest);
      FreedIsDead(g, done, p + rest, n, y);
    }
  }

  lemma {:induction false} FreedInFlatten(ps: seq<Partition>, i: nat, y: Name)
    requires i < |ps| && y in Freed(ps[i])
    ensures y in Freed(Flatten(ps))
  {
    FlattenAround(ps, i);
  }

  /** No partition receives a name that an earlier partition deallocated. */
  lemma {:induction false} DeallocatedIsGone(g: Graph, ps: seq<Partition>, skip: seq<bool>, i: nat, j: nat, y: Name)
    requires WellFormed(g, Flatten(ps)) && |skip| == |ps| && i < j < |ps|
    requires y in SignatureAt(g, ps, skip, i).inputs && SignatureAt(g, ps, skip, i).deallocates[y]
    ensures y !in SignatureAt(g, ps, skip, j).inputs
  {
    assert y in g.nameToNode && y in Freed(ps[..j][i]);
    FreedInFlatten(ps[..j], i, y);
    FlattenAround(ps, j);
    FreedIsNoLaterInput(g, Flatten(ps[..j]), ps[j], Flatten(ps[j + 1..]), y);
  }

  /** An input is handed on exactly when the partition does not deallocate it. */
  lemma {:induction false} InputIsHandedOnUnlessFreed(g: Graph, ps: seq<Partition>, skip: seq<bool>, i: nat, y: Name)
    requires WellFormed(g, Flatten(ps)) && |skip| == |ps| && i < |ps|
    requires y in SignatureAt(g, ps, skip, i).inputs
    ensures SignatureAt(g, ps, skip, i).deallocates[y] <==> y !in SignatureAt(g, ps, skip, i).outputs
  {
    var p, after := ps[i], ps[i + 1..];
    FlattenAround(ps, i);
    InputsAreOlder(g, Flatten(ps[..i]), p, Flatten(after), y);
    if y in OutputNames(g, p, Unmet(g, after)) {
      OutputIsKept(g, Flatten(ps[..i]), p, after, y);
    }
    if y !in Freed(p) {
      assert Real(g, y) == y && y in ReturnedNames(g, p, Unmet(g, after));
    }
  }

  /** The graph returns it or a later partition asks for it. */
  ghost predicate IsWanted(g: Graph, ps: seq<Partition>, i: nat, y: Name) {
    y in g.outputs || exists j :: i < j < |ps| && y in InputNames(g, ps[j])
  }

  /** Nothing is handed out without need: an output came in and is handed on, or is behind a name that the
      partition produced and that is wanted later. */
  lemma {:induction false} OutputIsWanted(g: Graph, ps: seq<Partition>, skip: seq<bool>, i: nat, x: Name)
    requires WellFormed(g, Flatten(ps)) && |skip| == |ps| && i < |ps|
    requires x in SignatureAt(g, ps, skip, i).outputs
    ensures x in SignatureAt(g, ps, skip, i).inputs ||
            exists y :: y in Produced(ps[i]) && Real(g, y) == x && IsWanted(g, ps, i, y)
  {
    var p, after := ps[i], ps[i + 1..];
    var y :| Real(g, y) == x && (y in Produced(p) * Unmet(g, after) || y in Inputs(g, p));
    if y in Inputs(g, p) {
      FlattenAround(ps, i);
      InputsAreOlder(g, Flatten(ps[..i]), p, Flatten(after), y);
      assert Real(g, y) == y;
    } else {
      UnmetIsWanted(g, ps, i, y);
    }
  }

  lemma {:induction false} UnmetIsWanted(g: Graph, ps: seq<Partition>, i: nat, y: Name)
    requires i < |ps| && y in Unmet(g, ps[i + 1..])
    ensures IsWanted(g, ps, i, y)
  {
    var after := ps[i + 1..];
    UnmetOrigin(g, after, y);
    if q :| q in after && y in InputNames(g, q) {
      var j :| 0 <= j < |after| && after[j] == q;
      assert ps[i + 1 + j] == q;
    }
  }

  /** A graph output that is a mutation alias is never crossed off the unmet names. */
  lemma {:induction false} AliasStaysUnmet(g: Graph, ps: seq<Partition>, a: Name)
    requires a in g.outputs && a in g.realName
    ensures a in Unmet(g, ps)
  {
    if ps != [] {
      AliasStaysUnmet(g, ps[1..], a);
    }
  }

  /** No partition asks for an alias, so an unmet alias is a graph output. */
  lemma {:induction false} UnmetAliasIsOutput(g: Graph, done: seq<Node>, ps: seq<Partition>, x: Name)
    requires WellFormed(g, done + Flatten(ps)) && x in Unmet(g, ps) && x in g.realName
    ensures x in g.outputs
  {
    UnmetOrigin(g, ps, x);
    if q :| q in ps && x in InputNames(g, q) {
      var before, after := FlattenHolds(ps, q);
      assert done + Flatten(ps) == (done + before) + q + after;
      InputsAreOlder(g, done + before, q, after, x);
    }
  }

  /** A name that is no alias is met by the partition that produces it. */
  lemma {:induction false} ProducedIsMet(g: Graph, done: seq<Node>, ps: seq<Partition>, x: Name)
    requires WellFormed(g, done + Flatten(ps)) && x in Produced(Flatten(ps)) && x !in g.realName
    ensures x !in Unmet(g, ps)
    decreases |ps|
  {
    var p, ps' := ps[0], ps[1..];
    assert done + Flatten(ps) == done + p + Flatten(ps');
    NotAnInput(g, done, p, Flatten(ps'), x);
    if x in Produced(Flatten(ps')) {
      ProducedIsMet(g, done + p, ps', x);
    } else if x in Unmet(g, ps') {
      assert x in Produced(p) * Unmet(g, ps') && Real(g, x) == x;
      assert x in ReturnedNames(g, p, Unmet(g, ps'));
    }
  }

  /** The unmet names left after the first partition include a produced name exactly when that
      name is a graph output and a mutation alias. */
  lemma {:induction false} LeftoverUnmet(g: Graph, done: seq<Node>, ps: seq<Partition>, x: Name)
    requires WellFormed(g, done + Flatten(ps))
    requires x in Produced(Flatten(ps))
    ensures x in Unmet(g, ps) <==> x in g.outputs && x in g.realName
  {
    if x !in g.realName {
      ProducedIsMet(g, done, ps, x);
    } else if x in g.outputs {
      AliasStaysUnmet(g, ps, x);
    } else if x in Unmet(g, ps) {
      UnmetAliasIsOutput(g, done, ps, x);
    }
  }

  lemma {:induction false} NotAnInput(g: Graph, done: seq<Node>, p: Partition, rest: seq<Node>, x: Name)
    requires WellFormed(g, done + p + rest)
    requires x in Produced(p + rest)
    ensures x !in InputNames(g, p)
  {
    assert done + p + rest == done + (p + rest);
    LaterIsNew(g, done, p + rest);
    if x in InputNames(g, p) {
      InputsAreOlder(g, done, p, rest, x);
    }
  }

  /** A partition that touches a mutation output takes in the buffer behind it, although the mutation output
      itself has no layout. */
  lemma {:induction false} MutatedBufferIsInput(g: Graph, p: Partition, unmet: set<Name>, skip: bool, m: Name)
    requires m in Touched(p) - Produced(p) && m in g.realName && LacksLayout(g, m) && g.buffers[m].mutationOutput
    requires !LacksLayout(g, g.realName[m]) && g.realName[m] in g.nameToNode
    ensures g.realName[m] in SignatureOf(g, p, unmet, skip).inputs
  {
    assert !IsNoneLayout(g, m) && Real(g, m) == g.realName[m];
  }

  // ----- Buffers without storage -----

  /** A name with storage, touched but not produced by the partition, whose real name is `y`. */
  ghost predicate IsAliased(g: Graph, p: Partition, y: Name) {
    exists a :: a in g.realName && a in Touched(p) - Produced(p) && !IsNoneLayout(g, a) && Real(g, a) == y
  }

  /** The pass keeps buffers without storage out of the outputs.  The inputs are filtered before freed
      names are added and under the alias instead of the real name, so such a buffer is an input
      exactly when it is freed from elsewhere or touched under an alias that has storage. */
  lemma {:induction false} StoragelessInputs(g: Graph, p: Partition, unmet: set<Name>, skip: bool, y: Name)
    requires IsNoneLayout(g, y)
    ensures y !in SignatureOf(g, p, unmet, skip).outputs
    ensures y in SignatureOf(g, p, unmet, skip).inputs <==>
            y in FreedFromElsewhere(g, p) || (y in g.nameToNode && IsAliased(g, p, y))
  {
  }
}
