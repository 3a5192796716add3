/** Graph partition signatures: the backward pass that decides what every compiler
    partition takes in, hands out and frees (vllm/env_override.py).

    A scheduler node is a handful of name sets.  A name may be an alias created by an
    in-place mutation; `realName` maps it to the name that owns the storage.  */
module GraphPartition {

  type Name = string

  datatype Result<+T> = Ok(value: T) | KeyError(name: Name)

  datatype Buffer = Buffer(noneLayout: bool, mutationOutput: bool)

  /** One scheduler node; `id` tells apart nodes that touch the same names. */
  datatype Node = Node(id: nat, outputs: set<Name>, readNames: set<Name>, writeNames: set<Name>, lastUsage: set<Name>)

  datatype GraphData = GraphData(
    inputs: set<Name>,            // graph inputs
    constants: set<Name>,         // tensor constants, visible to every partition
    outputs: set<Name>,           // graph output names
    buffers: map<Name, Buffer>,   // the scheduler's name_to_buf
    realName: map<Name, Name>,    // the scheduler's mutation_real_name
    nameToNode: set<Name>)        // keys of name_to_node: graph inputs and node outputs

  /** The scheduler stores fully resolved names, so a real name is never itself an alias. */
  ghost predicate RealNamesAreFinal(g: GraphData) {
    forall a :: a in g.realName ==> g.realName[a] !in g.realName
  }

  type Graph = g: GraphData | RealNamesAreFinal(g)
    witness GraphData({}, {}, {}, map[], map[], {})

  /** The name that owns the storage behind `x`. */
  function Real(g: Graph, x: Name): Name {
    if x in g.realName then g.realName[x] else x
  }

  /** The scheduler knows a buffer of this name and it has no layout of its own. */
  predicate LacksLayout(g: Graph, x: Name) {
    x in g.buffers && g.buffers[x].noneLayout
  }

  /** A buffer without storage.  A mutation output never has a layout of its own; it is without storage
      exactly when the buffer that it mutates is. */
  predicate IsNoneLayout(g: Graph, x: Name): (r: bool)
    ensures LacksLayout(g, x) && g.buffers[x].mutationOutput && x in g.realName ==>
              (r <==> LacksLayout(g, g.realName[x]))
    ensures !(LacksLayout(g, x) && g.buffers[x].mutationOutput && x in g.realName) ==> (r <==> LacksLayout(g, x))
    decreases if x in g.realName then 1 else 0
  {
    x in g.buffers && g.buffers[x].noneLayout &&
    (g.buffers[x].mutationOutput && x in g.realName ==> IsNoneLayout(g, g.realName[x]))
  }

  type Partition = seq<Node>

  function Produced(p: Partition): set<Name> {
    set n, x | n in p && x in n.outputs :: x
  }

  function Touched(p: Partition): set<Name> {
    set n, x | n in p && x in n.readNames + n.writeNames :: x
  }

  function Freed(p: Partition): set<Name> {
    set n, x | n in p && x in n.lastUsage :: x
  }

  // ----- The signature of one partition -----

  datatype Signature = Signature(
    inputs: set<Name>,
    outputs: set<Name>,
    deallocates: map<Name, bool>,
    skipCudagraph: bool,
    constants: set<Name>)

  function InputNames(g: Graph, p: Partition): set<Name> {
    (set x | x in Touched(p) - Produced(p) && !IsNoneLayout(g, x) :: Real(g, x))
    + (set x | x in Freed(p) - Produced(p) && x in g.nameToNode)
  }

  function ReturnedNames(g: Graph, p: Partition, unmet: set<Name>): set<Name> {
    var returned := Produced(p) * unmet
                    + (set x | x in InputNames(g, p) && x in g.nameToNode && x !in Freed(p));
    set x | x in returned :: Real(g, x)
  }

  /** The returned names that have storage: the partition's outputs. */
  function OutputNames(g: Graph, p: Partition, unmet: set<Name>): set<Name> {
    set x | x in ReturnedNames(g, p, unmet) && !IsNoneLayout(g, x)
  }

  function SignatureOf(g: Graph, p: Partition, unmet: set<Name>, skip: bool): Signature {
    var inputs := set x | x in InputNames(g, p) && x in g.nameToNode;
    Signature(
      inputs,
      OutputNames(g, p, unmet),
      (map x | x in inputs :: x in Freed(p)),
      skip,
      InputNames(g, p) * g.constants)
  }

  /** The names still to be provided by whatever runs before the partitions `ps`. */
  function Unmet(g: Graph, ps: seq<Partition>): set<Name> {
    if ps == [] then g.outputs
    else
      var after := Unmet(g, ps[1..]);
      InputNames(g, ps[0]) + (after - ReturnedNames(g, ps[0], after))
  }

  function SignatureAt(g: Graph, ps: seq<Partition>, skip: seq<bool>, i: nat): Signature
    requires i < |ps| == |skip|
  {
    SignatureOf(g, ps[i], Unmet(g, ps[i + 1..]), skip[i])
  }

  /** Looking up the nodes to return raises for an allocated name that has no node. */
  predicate LookupFailsAt(g: Graph, ps: seq<Partition>, i: nat)
    requires i < |ps|
  {
    !(OutputNames(g, ps[i], Unmet(g, ps[i + 1..])) <= g.nameToNode)
  }

  function Signatures(g: Graph, ps: seq<Partition>, skip: seq<bool>): (sigs: seq<Signature>)
    requires |skip| == |ps|
  {
    seq(|ps|, i requires 0 <= i < |ps| => SignatureAt(g, ps, skip, i))
  }

  method UnionOfOutputs(p: Partition) returns (names: set<Name>)
    ensures names == Produced(p)
  {
    names := {};
    for i := 0 to |p|
      invariant names == Produced(p[..i])
    {
      assert p[..i + 1] == p[..i] + [p[i]];
      names := names + p[i].outputs;
    }
    assert p[..|p|] == p;
  }

  method UnionOfLastUsage(p: Partition) returns (names: set<Name>)
    ensures names == Freed(p)
  {
    names := {};
    for i := 0 to |p|
      invariant names == Freed(p[..i])
    {
      assert p[..i + 1] == p[..i] + [p[i]];
      names := names + p[i].lastUsage;
    }
    assert p[..|p|] == p;
  }

  /** One turn of the loop: the signature of `p`, the names its returns leave without a
      node, and the unmet names for the partition before it. */
  method SignatureStep(g: Graph, p: Partition, unmet: set<Name>, skip: bool)
    returns (sig: Signature, missing: set<Name>, unmet': set<Name>)
    ensures sig == SignatureOf(g, p, unmet, skip)
    ensures missing == {} <==> OutputNames(g, p, unmet) <= g.nameToNode
    ensures unmet' == InputNames(g, p) + (unmet - ReturnedNames(g, p, unmet))
  {
    var outputNames := UnionOfOutputs(p);
    var returned := outputNames * unmet;
    var inputNames := set x | x in Touched(p) && !IsNoneLayout(g, x);
    inputNames := inputNames - outputNames;
    inputNames := set x | x in inputNames :: Real(g, x);
    var toFree := UnionOfLastUsage(p);
    inputNames := inputNames + set x | x in toFree - outputNames && x in g.nameToNode;
    assert inputNames == InputNames(g, p);
    var deallocation := map x | x in inputNames && x in g.nameToNode :: x in toFree;
    returned := returned + set x | x in inputNames && x in g.nameToNode && x !in toFree;
    returned := set x | x in returned :: Real(g, x);
    assert returned == ReturnedNames(g, p, unmet);
    sig := Signature(
      (set x | x in inputNames && x in g.nameToNode),
      (set x | x in returned && !IsNoneLayout(g, x)),
      deallocation, skip, inputNames * g.constants);
    missing := sig.outputs - g.nameToNode;
    assert forall x :: x in sig.outputs ==> x in missing || x in g.nameToNode;
    unmet' := inputNames + (unmet - returned);
  }

  /** The loop over partitions from last to first; signatures are collected in that order. */
  method CollectBackwards(g: Graph, ps: seq<Partition>, skip: seq<bool>)
    returns (collected: seq<Signature>, missing: set<Name>)
    requires |skip| == |ps|
    ensures missing == {} ==>
              && |collected| == |ps|
              && forall j :: 0 <= j < |ps| ==> collected[|ps| - 1 - j] == SignatureAt(g, ps, skip, j)
    ensures missing == {} <==> forall j :: 0 <= j < |ps| ==> !LookupFailsAt(g, ps, j)
  {
    var unmet := g.outputs;
    collected, missing := [], {};
    var i := |ps|;
    while i > 0
      invariant 0 <= i <= |ps| && |collected| == |ps| - i
      invariant unmet == Unmet(g, ps[i..])
      invariant missing == {}
      invariant forall j :: i <= j < |ps| ==> collected[|ps| - 1 - j] == SignatureAt(g, ps, skip, j)
      invariant forall j :: i <= j < |ps| ==> !LookupFailsAt(g, ps, j)
    {
      i := i - 1;
      assert ps[i..][0] == ps[i] && ps[i..][1..] == ps[i + 1..];
      var sig;
      sig, missing, unmet := SignatureStep(g, ps[i], unmet, skip[i]);
      if missing != {} {
        assert LookupFailsAt(g, ps, i);
        return;
      }
      collected := collected + [sig];
    }
  }

  /** The pass itself: partitions are paired with their flags from the end, so that a
      shorter flag list leaves out the first partitions. */
  method ComputeSignatures(g: Graph, partitions: seq<Partition>, skip: seq<bool>)
    returns (r: Result<seq<Signature>>)
    ensures var n := if |skip| < |partitions| then |skip| else |partitions|;
            var ps := partitions[|partitions| - n..];
            && (r.Ok? ==> r.value == Signatures(g, ps, skip[|skip| - n..]))
            && (r.KeyError? <==> exists i :: 0 <= i < n && LookupFailsAt(g, ps, i))
            && (r.Ok? ==> |r.value| == n && forall i :: 0 <= i < n ==> r.value[i].skipCudagraph == skip[|skip| - n + i])
  {
    var n := if |skip| < |partitions| then |skip| else |partitions|;
    var ps, flags := partitions[|partitions| - n..], skip[|skip| - n..];
    var collected, missing := CollectBackwards(g, ps, flags);
    if missing != {} {
      var name :| name in missing;
      return KeyError(name);
    }
    r := Ok(seq(n, k requires 0 <= k < n => collected[n - 1 - k]));
  }
}
