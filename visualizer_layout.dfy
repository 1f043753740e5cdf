/** The Streamlit visualiser's layout step: nodes grouped by type in
    first-seen order, then one position per node id, assigned group by
    group. Positions are index slots; the trigonometry is not modelled. */
module VisualizerLayout {
  import opened Common
  import opened GraphModel

  /** `node.get('type', 'default')` */
  function GroupKey(n: Node): string {
    n.kind.GetOr("default")
  }

  function Keys(nodes: seq<Node>): (r: seq<string>)
    ensures |r| == |nodes|
    ensures forall i :: 0 <= i < |nodes| ==> r[i] == GroupKey(nodes[i])
  {
    seq(|nodes|, i requires 0 <= i < |nodes| => GroupKey(nodes[i]))
  }

  /** The nodes of one type, in input order. */
  function Members(nodes: seq<Node>, key: string): (r: seq<Node>)
    ensures |r| <= |nodes|
    decreases |nodes|
  {
    if nodes == [] then []
    else
      var n := |nodes| - 1;
      Members(nodes[..n], key) + (if GroupKey(nodes[n]) == key then [nodes[n]] else [])
  }

  /** Every member is one of the nodes. */
  lemma {:induction false} MembersAreNodes(nodes: seq<Node>, key: string, j: nat)
    requires j < |Members(nodes, key)|
    ensures Members(nodes, key)[j] in nodes
    decreases |nodes|
  {
    var n := |nodes| - 1;
    if j < |Members(nodes[..n], key)| {
      MembersAreNodes(nodes[..n], key, j);
    }
  }

  lemma MembersSnoc(nodes: seq<Node>, x: Node, key: string)
    ensures Members(nodes + [x], key) == Members(nodes, key) + (if GroupKey(x) == key then [x] else [])
  {
    assert (nodes + [x])[..|nodes|] == nodes;
  }

  /** A type no node has has no members. */
  lemma {:induction false} MembersOfAbsentKey(nodes: seq<Node>, key: string)
    requires key !in Keys(nodes)
    ensures Members(nodes, key) == []
    decreases |nodes|
  {
    if nodes != [] {
      var n := |nodes| - 1;
      assert Keys(nodes[..n]) == Keys(nodes)[..n];
      assert GroupKey(nodes[n]) == Keys(nodes)[n];
      MembersOfAbsentKey(nodes[..n], key);
    }
  }

  /** Lines 66-71: `node_groups`, a dict of lists filled in input order;
      the dict's key order is `order`. */
  method GroupByType(nodes: seq<Node>) returns (order: seq<string>, groups: map<string, seq<Node>>)
    ensures order == Distinct(Keys(nodes))
    ensures forall k :: k in groups <==> k in order
    ensures forall k :: k in groups ==> groups[k] == Members(nodes, k)
  {
    order := [];
    groups := map[];
    for i := 0 to |nodes|
      invariant Grouped(order, groups, nodes[..i])
    {
      var key := GroupKey(nodes[i]);
      GroupStep(order, groups, nodes[..i], nodes[i]);
      ghost var order', groups' := AddToOrder(order, groups, nodes[i]), AddToGroup(groups, nodes[i]);
      if key !in groups {
        groups := groups[key := []];
        order := order + [key];
      }
      groups := groups[key := groups[key] + [nodes[i]]];
      assert order == order' && groups == groups';
      GroupedPrefix(order, groups, nodes, i);
    }
    assert nodes[..|nodes|] == nodes;
  }

  /** `order` is the first-seen type order of `nodes`, and `groups` maps
      each of those types to its members. */
  ghost predicate Grouped(order: seq<string>, groups: map<string, seq<Node>>, nodes: seq<Node>) {
    && order == Distinct(Keys(nodes))
    && (forall k :: k in groups <==> k in order)
    && (forall k :: k in groups ==> groups[k] == Members(nodes, k))
  }

  /** `node_groups[t].append(node)`, creating the list first for a new type. */
  function AddToGroup(groups: map<string, seq<Node>>, x: Node): map<string, seq<Node>> {
    var key := GroupKey(x);
    var g := if key in groups then groups else groups[key := []];
    g[key := g[key] + [x]]
  }

  /** The dict's key order after `AddToGroup`. */
  function AddToOrder(order: seq<string>, groups: map<string, seq<Node>>, x: Node): seq<string> {
    if GroupKey(x) in groups then order else order + [GroupKey(x)]
  }

  /** A new type joins the key order at its end; a known one changes nothing. */
  lemma GroupOrderStep(order: seq<string>, groups: map<string, seq<Node>>, nodes: seq<Node>, x: Node)
    requires order == Distinct(Keys(nodes))
    requires forall k :: k in groups <==> k in order
    ensures GroupKey(x) in groups <==> GroupKey(x) in Keys(nodes)
    ensures AddToOrder(order, groups, x) == Distinct(Keys(nodes + [x]))
    ensures forall k :: k in AddToGroup(groups, x) <==> k in AddToOrder(order, groups, x)
  {
    var key := GroupKey(x);
    assert Keys(nodes + [x]) == Keys(nodes) + [key];
    assert key in order <==> key in Keys(nodes);
    DistinctSnoc(Keys(nodes), key);
  }

  /** The node joins the list of its type and no other list changes. */
  lemma GroupMembersStep(groups: map<string, seq<Node>>, nodes: seq<Node>, x: Node)
    requires forall k :: k in groups ==> groups[k] == Members(nodes, k)
    requires GroupKey(x) in groups <==> GroupKey(x) in Keys(nodes)
    ensures forall k :: k in AddToGroup(groups, x) ==> AddToGroup(groups, x)[k] == Members(nodes + [x], k)
  {
    var key := GroupKey(x);
    if key !in groups {
      MembersOfAbsentKey(nodes, key);
    }
    var g' := AddToGroup(groups, x);
    forall k | k in g' ensures g'[k] == Members(nodes + [x], k) {
      MembersSnoc(nodes, x, k);
    }
  }

  /** One turn of the grouping loop keeps `Grouped`. */
  lemma GroupStep(order: seq<string>, groups: map<string, seq<Node>>, nodes: seq<Node>, x: Node)
    requires Grouped(order, groups, nodes)
    ensures Grouped(AddToOrder(order, groups, x), AddToGroup(groups, x), nodes + [x])
  {
    GroupOrderStep(order, groups, nodes, x);
    GroupMembersStep(groups, nodes, x);
  }

  lemma GroupedPrefix(order: seq<string>, groups: map<string, seq<Node>>, nodes: seq<Node>, i: nat)
    requires i < |nodes| && Grouped(order, groups, nodes[..i] + [nodes[i]])
    ensures Grouped(order, groups, nodes[..i + 1])
  {
    assert nodes[..i + 1] == nodes[..i] + [nodes[i]];
  }

  // ---------------------------------------------------------------------
  // Every node in exactly one group
  // ---------------------------------------------------------------------

  /** The groups of `keys`, one after the other. */
  function Flat(keys: seq<string>, nodes: seq<Node>): seq<Node>
    decreases |keys|
  {
    if keys == [] then []
    else Flat(keys[..|keys| - 1], nodes) + Members(nodes, keys[|keys| - 1])
  }

  predicate DistinctKeys(keys: seq<string>) {
    forall i, j :: 0 <= i < j < |keys| ==> keys[i] != keys[j]
  }

  lemma {:induction false} FlatOfNoNodes(keys: seq<string>)
    ensures Flat(keys, []) == []
    decreases |keys|
  {
    if keys != [] {
      FlatOfNoNodes(keys[..|keys| - 1]);
    }
  }

  /** A node whose type is not among `keys` changes none of their groups. */
  lemma {:induction false} FlatIgnores(keys: seq<string>, nodes: seq<Node>, x: Node)
    requires GroupKey(x) !in keys
    ensures Flat(keys, nodes + [x]) == Flat(keys, nodes)
    decreases |keys|
  {
    if keys != [] {
      var n := |keys| - 1;
      FlatIgnores(keys[..n], nodes, x);
      MembersSnoc(nodes, x, keys[n]);
    }
  }

  /** A node whose type occurs once among `keys` joins exactly one group. */
  lemma {:induction false} FlatSnoc(keys: seq<string>, nodes: seq<Node>, x: Node)
    requires DistinctKeys(keys) && GroupKey(x) in keys
    ensures multiset(Flat(keys, nodes + [x])) == multiset(Flat(keys, nodes)) + multiset{x}
    decreases |keys|
  {
    var n := |keys| - 1;
    var front := keys[..n];
    var a, b := Flat(front, nodes), Members(nodes, keys[n]);
    var a', b' := Flat(front, nodes + [x]), Members(nodes + [x], keys[n]);
    assert Flat(keys, nodes + [x]) == a' + b';
    assert Flat(keys, nodes) == a + b;
    MembersSnoc(nodes, x, keys[n]);
    if keys[n] == GroupKey(x) {
      assert GroupKey(x) !in front by {
        forall i | 0 <= i < n ensures front[i] != GroupKey(x) {
          assert keys[i] != keys[n];
        }
      }
      FlatIgnores(front, nodes, x);
      JoinAddsOne(a, b, a', b', x);
    } else {
      assert DistinctKeys(front);
      var i :| 0 <= i < |keys| && keys[i] == GroupKey(x);
      assert front[i] == GroupKey(x);
      FlatSnoc(front, nodes, x);
      JoinAddsOne(a, b, a', b', x);
    }
  }

  /** One more element in either part is one more in the whole. */
  lemma JoinAddsOne<T>(a: seq<T>, b: seq<T>, a': seq<T>, b': seq<T>, x: T)
    requires (multiset(a') == multiset(a) + multiset{x} && b' == b) || (a' == a && b' == b + [x])
    ensures multiset(a' + b') == multiset(a + b) + multiset{x}
  {
    assert multiset(a' + b') == multiset(a') + multiset(b');
    assert multiset(a + b) == multiset(a) + multiset(b);
    if a' == a && b' == b + [x] {
      assert multiset(b') == multiset(b) + multiset{x};
    }
  }

  /** With distinct keys covering every type, the groups hold each node
      exactly as often as the input does. */
  lemma {:induction false} FlatPartition(keys: seq<string>, nodes: seq<Node>)
    requires DistinctKeys(keys)
    requires forall i :: 0 <= i < |nodes| ==> GroupKey(nodes[i]) in keys
    ensures multiset(Flat(keys, nodes)) == multiset(nodes)
    decreases |nodes|
  {
    if nodes == [] {
      FlatOfNoNodes(keys);
    } else {
      var n := |nodes| - 1;
      FlatPartition(keys, nodes[..n]);
      assert nodes == nodes[..n] + [nodes[n]];
      FlatSnoc(keys, nodes[..n], nodes[n]);
    }
  }

  /** Every node falls into exactly one type group: the groups, in
      first-seen order, are a rearrangement of the input. */
  lemma EveryNodeInOneGroup(nodes: seq<Node>)
    ensures multiset(Flat(Distinct(Keys(nodes)), nodes)) == multiset(nodes)
  {
    var keys := Distinct(Keys(nodes));
    forall i | 0 <= i < |nodes| ensures GroupKey(nodes[i]) in keys {
      assert Keys(nodes)[i] == GroupKey(nodes[i]);
    }
    FlatPartition(keys, nodes);
  }

  // ---------------------------------------------------------------------
  // Positions
  // ---------------------------------------------------------------------

  /** Where a node is drawn: its group's index and its rank in the group,
      with the sizes the angle and radius are computed from. */
  datatype Slot = Slot(group: nat, rank: nat, groupSize: nat, groupCount: nat, nodeCount: nat)

  datatype Visit = Visit(node: Node, slot: Slot)

  /** The visits of one group: its nodes with their ranks. */
  function Slots(typeNodes: seq<Node>, g: nat, groupCount: nat, nodeCount: nat): (r: seq<Visit>)
    ensures |r| == |typeNodes|
    ensures forall k :: 0 <= k < |r| ==>
              r[k] == Visit(typeNodes[k], Slot(g, k, |typeNodes|, groupCount, nodeCount))
  {
    seq(|typeNodes|, k requires 0 <= k < |typeNodes| =>
      Visit(typeNodes[k], Slot(g, k, |typeNodes|, groupCount, nodeCount)))
  }

  function GroupVisits(order: seq<string>, nodes: seq<Node>, g: nat): seq<Visit>
    requires g < |order|
  {
    Slots(Members(nodes, order[g]), g, |order|, |nodes|)
  }

  /** The visits of the first `g` groups, in loop order. */
  function VisitsUpTo(order: seq<string>, nodes: seq<Node>, g: nat): seq<Visit>
    requires g <= |order|
    decreases g
  {
    if g == 0 then [] else VisitsUpTo(order, nodes, g - 1) + GroupVisits(order, nodes, g - 1)
  }

  function VisitNodes(vs: seq<Visit>): (r: seq<Node>)
    ensures |r| == |vs| && forall k :: 0 <= k < |vs| ==> r[k] == vs[k].node
  {
    seq(|vs|, k requires 0 <= k < |vs| => vs[k].node)
  }

  /** The visits are the groups, in order. */
  lemma {:induction false} VisitsAreGroups(order: seq<string>, nodes: seq<Node>, g: nat)
    requires g <= |order|
    ensures VisitNodes(VisitsUpTo(order, nodes, g)) == Flat(order[..g], nodes)
    decreases g
  {
    if g > 0 {
      VisitsAreGroups(order, nodes, g - 1);
      assert order[..g][..g - 1] == order[..g - 1];
    }
  }

  predicate AllIdentified(vs: seq<Visit>) {
    forall k :: 0 <= k < |vs| ==> vs[k].node.id.Some?
  }

  /** `positions[node['id']] = ...` over the visits, starting from `start`:
      a later visit of the same id overwrites an earlier one. */
  function Place(start: map<string, Slot>, vs: seq<Visit>): map<string, Slot>
    requires AllIdentified(vs)
    decreases |vs|
  {
    if vs == [] then start
    else
      var n := |vs| - 1;
      Place(start, vs[..n])[vs[n].node.id.value := vs[n].slot]
  }

  lemma {:induction false} PlaceAppend(start: map<string, Slot>, a: seq<Visit>, b: seq<Visit>)
    requires AllIdentified(a) && AllIdentified(b)
    ensures AllIdentified(a + b)
    ensures Place(start, a + b) == Place(Place(start, a), b)
    decreases |b|
  {
    if b == [] {
      assert a + b == a;
    } else {
      var n := |b| - 1;
      assert (a + b)[..|a| + n] == a + b[..n];
      assert AllIdentified(b[..n]);
      PlaceAppend(start, a, b[..n]);
    }
  }

  /** The message of the `KeyError` a node without "id" raises. */
  const MissingId: string := "'id'"

  /** `_calculate_layout`: no nodes, no positions; a node without an id
      raises; otherwise one position per distinct id. */
  function Layout(nodes: seq<Node>): Result<map<string, Slot>, string> {
    if |nodes| == 0 then Ok(map[])
    else if exists i :: 0 <= i < |nodes| && nodes[i].id.None? then Err(MissingId)
    else
      var order := Distinct(Keys(nodes));
      VisitsIdentified(order, nodes, |order|);
      Ok(Place(map[], VisitsUpTo(order, nodes, |order|)))
  }

  lemma {:induction false} VisitsIdentified(order: seq<string>, nodes: seq<Node>, g: nat)
    requires g <= |order|
    requires forall i :: 0 <= i < |nodes| ==> nodes[i].id.Some?
    ensures AllIdentified(VisitsUpTo(order, nodes, g))
    decreases g
  {
    if g > 0 {
      VisitsIdentified(order, nodes, g - 1);
      var ms := Members(nodes, order[g - 1]);
      forall k | 0 <= k < |ms| ensures ms[k].id.Some? {
        MembersAreNodes(nodes, order[g - 1], k);
      }
    }
  }

  /** Lines 76-86, the inner loop: position one group's nodes, raising at
      the first node without an id. */
  method PlaceGroup(start: map<string, Slot>, typeNodes: seq<Node>, g: nat, groupCount: nat, nodeCount: nat)
    returns (r: Result<map<string, Slot>, string>)
    ensures var vs := Slots(typeNodes, g, groupCount, nodeCount);
            if AllIdentified(vs) then r == Ok(Place(start, vs)) else r == Err(MissingId)
  {
    ghost var vs := Slots(typeNodes, g, groupCount, nodeCount);
    var positions := start;
    for k := 0 to |typeNodes|
      invariant AllIdentified(vs[..k])
      invariant positions == Place(start, vs[..k])
    {
      var node := typeNodes[k];
      if node.id.None? {
        assert !vs[k].node.id.Some?;
        return Err(MissingId);
      }
      var slot := Slot(g, k, |typeNodes|, groupCount, nodeCount);
      assert vs[..k + 1][..k] == vs[..k];
      assert vs[..k + 1][k] == Visit(node, slot);
      positions := positions[node.id.value := slot];
    }
    assert vs[..|typeNodes|] == vs;
    r := Ok(positions);
  }

  /** Lines 57-88. */
  method CalculateLayout(nodes: seq<Node>) returns (pos: Result<map<string, Slot>, string>)
    ensures pos == Layout(nodes)
  {
    if |nodes| == 0 {
      return Ok(map[]);
    }
    var order, groups := GroupByType(nodes);
    pos := PlaceGroups(nodes, order, groups);
    if pos.Ok? {
      LayoutOfIdentified(nodes, order);
    }
  }

  /** Lines 73-86, the outer loop over the groups in first-seen order. */
  method PlaceGroups(nodes: seq<Node>, order: seq<string>, groups: map<string, seq<Node>>)
    returns (pos: Result<map<string, Slot>, string>)
    requires forall k :: k in order ==> k in groups && groups[k] == Members(nodes, k)
    ensures pos.Err? ==> pos == Err(MissingId) && Layout(nodes) == pos
    ensures pos.Ok? ==> AllIdentified(VisitsUpTo(order, nodes, |order|))
                        && pos == Ok(Place(map[], VisitsUpTo(order, nodes, |order|)))
  {
    var positions: map<string, Slot> := map[];
    for g := 0 to |order|
      invariant AllIdentified(VisitsUpTo(order, nodes, g))
      invariant positions == Place(map[], VisitsUpTo(order, nodes, g))
    {
      assert groups[order[g]] == Members(nodes, order[g]);
      var placed := PlaceGroup(positions, groups[order[g]], g, |order|, |nodes|);
      if placed.Err? {
        LayoutOfUnidentified(nodes, order, g);
        return placed;
      }
      PlaceNextGroup(nodes, order, g);
      positions := placed.value;
    }
    pos := Ok(positions);
  }

  /** Placing group `g` after the first `g` groups places the first `g + 1`. */
  lemma PlaceNextGroup(nodes: seq<Node>, order: seq<string>, g: nat)
    requires g < |order|
    requires AllIdentified(VisitsUpTo(order, nodes, g)) && AllIdentified(GroupVisits(order, nodes, g))
    ensures AllIdentified(VisitsUpTo(order, nodes, g + 1))
    ensures Place(map[], VisitsUpTo(order, nodes, g + 1))
            == Place(Place(map[], VisitsUpTo(order, nodes, g)), GroupVisits(order, nodes, g))
  {
    PlaceAppend(map[], VisitsUpTo(order, nodes, g), GroupVisits(order, nodes, g));
  }

  lemma LayoutOfUnidentified(nodes: seq<Node>, order: seq<string>, g: nat)
    requires g < |order|
    requires !AllIdentified(GroupVisits(order, nodes, g))
    ensures Layout(nodes) == Err(MissingId)
  {
    var vs := GroupVisits(order, nodes, g);
    var k :| 0 <= k < |vs| && vs[k].node.id.None?;
    MembersAreNodes(nodes, order[g], k);
  }

  lemma LayoutOfIdentified(nodes: seq<Node>, order: seq<string>)
    requires |nodes| > 0 && order == Distinct(Keys(nodes))
    requires AllIdentified(VisitsUpTo(order, nodes, |order|))
    ensures Layout(nodes) == Ok(Place(map[], VisitsUpTo(order, nodes, |order|)))
  {
    VisitsAreAllNodes(order, nodes);
    AllNodesVisited(nodes, VisitsUpTo(order, nodes, |order|));
  }

  /** The layout loop visits every node exactly once. */
  lemma VisitsAreAllNodes(order: seq<string>, nodes: seq<Node>)
    requires order == Distinct(Keys(nodes))
    ensures multiset(VisitNodes(VisitsUpTo(order, nodes, |order|))) == multiset(nodes)
  {
    VisitsAreGroups(order, nodes, |order|);
    assert order[..|order|] == order;
    EveryNodeInOneGroup(nodes);
  }

  lemma AllNodesVisited(nodes: seq<Node>, done: seq<Visit>)
    requires multiset(VisitNodes(done)) == multiset(nodes)
    requires AllIdentified(done)
    ensures forall i :: 0 <= i < |nodes| ==> nodes[i].id.Some?
  {
    var vn := VisitNodes(done);
    forall i | 0 <= i < |nodes| ensures nodes[i].id.Some? {
      assert nodes[i] in multiset(nodes);
      assert nodes[i] in vn;
      var k :| 0 <= k < |vn| && vn[k] == nodes[i];
      assert done[k].node.id.Some?;
    }
  }

  /** With repeated ids, the position of the last visit of that id is
      kept. */
  lemma {:induction false} LastVisitWins(start: map<string, Slot>, vs: seq<Visit>, v: nat)
    requires AllIdentified(vs) && v < |vs|
    requires forall w :: v < w < |vs| ==> vs[w].node.id != vs[v].node.id
    ensures vs[v].node.id.value in Place(start, vs)
    ensures Place(start, vs)[vs[v].node.id.value] == vs[v].slot
    decreases |vs|
  {
    var n := |vs| - 1;
    if v < n {
      assert AllIdentified(vs[..n]);
      LastVisitWins(start, vs[..n], v);
    }
  }

  /** The positioned ids are exactly the ids of the visits. */
  lemma {:induction false} PositionKeys(start: map<string, Slot>, vs: seq<Visit>)
    requires AllIdentified(vs)
    ensures Place(start, vs).Keys == start.Keys + set k | 0 <= k < |vs| :: vs[k].node.id.value
    decreases |vs|
  {
    if vs != [] {
      var n := |vs| - 1;
      assert AllIdentified(vs[..n]);
      PositionKeys(start, vs[..n]);
      assert (set k | 0 <= k < |vs| :: vs[k].node.id.value)
          == (set k | 0 <= k < n :: vs[..n][k].node.id.value) + {vs[n].node.id.value};
    }
  }
}
