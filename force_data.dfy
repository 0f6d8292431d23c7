/**
  The `{nodes, links}` structure that `nx_force` hands to D3, defined as
  functions of the input graph, and what is proved about it.
*/
module ForceData {
  import opened Wrappers
  import opened Graph

  /** `{'name': ..., 'group': ...}` */
  datatype VisNode = VisNode(name: string, group: Value)

  /** `{'source': ..., 'target': ..., 'value': ...}`; endpoints are positions in the node list. */
  datatype VisLink = VisLink(source: nat, target: nat, value: Value)

  /** `data = {'nodes': [...], 'links': [...]}` */
  datatype Data = Data(nodes: seq<VisNode>, links: seq<VisLink>)

  const DefaultGroup := Int(0)
  const DefaultWeight := Int(1)

  /** The entry one node contributes: its string form, and its group or 0. */
  function NodeEntry<N>(item: NodeItem<N>, str: N -> string): VisNode
  {
    VisNode(str(item.id), GetOr(item.attrs, "group", DefaultGroup))
  }

  /** One entry per node, in iteration order. */
  function NodeList<N>(items: seq<NodeItem<N>>, str: N -> string): seq<VisNode>
  {
    seq(|items|, i requires 0 <= i < |items| => NodeEntry(items[i], str))
  }

  /** `node_index_map` after visiting `items`: each id maps to the last position written for it. */
  function IndexMap<N(==)>(items: seq<NodeItem<N>>): map<N, nat>
  {
    if items == [] then map[]
    else IndexMap(items[..|items| - 1])[items[|items| - 1].id := |items| - 1]
  }

  predicate Resolvable<N(==)>(e: EdgeItem<N>, index: map<N, nat>)
  {
    e.u in index && e.v in index
  }

  /** The link one edge contributes, or the key whose lookup raises `KeyError` (`u` is looked up first). */
  function LinkFor<N(==)>(e: EdgeItem<N>, index: map<N, nat>): Result<VisLink, N>
  {
    if e.u !in index then Err(e.u)
    else if e.v !in index then Err(e.v)
    else Ok(VisLink(index[e.u], index[e.v], GetOr(e.attrs, "weight", DefaultWeight)))
  }

  /** The link list built edge by edge; the first edge that fails stops the whole pass. */
  function Links<N(==)>(edges: seq<EdgeItem<N>>, index: map<N, nat>): Result<seq<VisLink>, N>
  {
    if edges == [] then Ok([])
    else
      match Links(edges[..|edges| - 1], index)
      case Err(k) => Err(k)
      case Ok(links) =>
        match LinkFor(edges[|edges| - 1], index)
        case Err(k) => Err(k)
        case Ok(l) => Ok(links + [l])
  }

  /** The data `nx_force` extracts from a graph, or the node id that raises `KeyError`. */
  function Extract<N(==)>(g: Graph<N>, str: N -> string): Result<Data, N>
  {
    match Links(g.edges, IndexMap(g.nodes))
    case Err(k) => Err(k)
    case Ok(links) => Ok(Data(NodeList(g.nodes, str), links))
  }

  // ---------------------------------------------------------------------
  // The node pass

  /** The index map knows exactly the visited ids, and each id maps to the last position holding it. */
  lemma {:induction false} IndexMapSpec<N>(items: seq<NodeItem<N>>)
    ensures IndexMap(items).Keys == Ids(items)
    ensures forall id :: id in IndexMap(items) ==>
              && IndexMap(items)[id] < |items|
              && items[IndexMap(items)[id]].id == id
              && forall j :: IndexMap(items)[id] < j < |items| ==> items[j].id != id
  {
    if items != [] {
      var n := |items| - 1;
      var prefix := items[..n];
      IndexMapSpec(prefix);
      assert Ids(items) == Ids(prefix) + {items[n].id} by {
        forall x | x in Ids(items) ensures x in Ids(prefix) + {items[n].id} {
          var i :| 0 <= i < |items| && items[i].id == x;
          if i < n { assert prefix[i] == items[i]; }
        }
        forall x | x in Ids(prefix) ensures x in Ids(items) {
          var i :| 0 <= i < |prefix| && prefix[i].id == x;
          assert items[i] == prefix[i];
        }
      }
    }
  }

  /** With distinct ids (as NetworkX guarantees), `node_index_map[id]` is that id's own position. */
  lemma {:induction false} IndexMapOfDistinct<N>(items: seq<NodeItem<N>>, str: N -> string)
    requires DistinctIds(items)
    ensures forall i :: 0 <= i < |items| ==>
              && items[i].id in IndexMap(items)
              && IndexMap(items)[items[i].id] == i
              && NodeList(items, str)[IndexMap(items)[items[i].id]] == NodeEntry(items[i], str)
  {
    IndexMapSpec(items);
    forall i | 0 <= i < |items|
      ensures items[i].id in IndexMap(items) && IndexMap(items)[items[i].id] == i
    {
      var id := items[i].id;
      assert id in Ids(items);
      var k := IndexMap(items)[id];
      assert items[k].id == id;
      assert k == i;
    }
  }

  // ---------------------------------------------------------------------
  // The edge pass

  /** Once a prefix of the edges fails, the whole pass fails with the same key. */
  lemma {:induction false} LinksErrStops<N>(edges: seq<EdgeItem<N>>, k: nat, index: map<N, nat>)
    requires k <= |edges|
    requires Links(edges[..k], index).Err?
    ensures Links(edges, index) == Links(edges[..k], index)
  {
    if k < |edges| {
      var prefix := edges[..|edges| - 1];
      assert prefix[..k] == edges[..k];
      LinksErrStops(prefix, k, index);
    } else {
      assert edges[..k] == edges;
    }
  }

  /**
    The edge pass succeeds exactly when every endpoint is in the index map;
    then it yields one link per edge, in edge order; otherwise the key it
    fails on is the missing endpoint of the first edge that has one.
  */
  lemma {:induction false} LinksSpec<N>(edges: seq<EdgeItem<N>>, index: map<N, nat>)
    ensures Links(edges, index).Ok? <==> forall j :: 0 <= j < |edges| ==> Resolvable(edges[j], index)
    ensures Links(edges, index).Ok? ==>
              && |Links(edges, index).value| == |edges|
              && forall j :: 0 <= j < |edges| ==> LinkFor(edges[j], index) == Ok(Links(edges, index).value[j])
    ensures Links(edges, index).Err? ==>
              exists j :: 0 <= j < |edges| && FirstUnresolvable(edges, index, j)
                          && LinkFor(edges[j], index) == Err(Links(edges, index).error)
  {
    if edges != [] {
      var n := |edges| - 1;
      var prefix := edges[..n];
      LinksSpec(prefix, index);
      assert forall j :: 0 <= j < n ==> prefix[j] == edges[j];
      match Links(prefix, index)
      case Err(k) =>
        var j :| 0 <= j < n && FirstUnresolvable(prefix, index, j) && LinkFor(prefix[j], index) == Err(k);
        assert FirstUnresolvable(edges, index, j);
      case Ok(links) =>
        if !Resolvable(edges[n], index) {
          assert FirstUnresolvable(edges, index, n);
        }
    }
  }

  /** Edge `j` is the first one with an endpoint missing from the index map. */
  ghost predicate FirstUnresolvable<N>(edges: seq<EdgeItem<N>>, index: map<N, nat>, j: int)
    requires 0 <= j < |edges|
  {
    !Resolvable(edges[j], index) && forall i :: 0 <= i < j ==> Resolvable(edges[i], index)
  }

  // ---------------------------------------------------------------------
  // The whole extraction

  /** The extraction fails exactly when some edge endpoint never appeared in the node iteration. */
  lemma ExtractSucceedsIff<N>(g: Graph<N>, str: N -> string)
    ensures Extract(g, str).Ok? <==>
              forall j :: 0 <= j < |g.edges| ==> g.edges[j].u in Ids(g.nodes) && g.edges[j].v in Ids(g.nodes)
  {
    IndexMapSpec(g.nodes);
    LinksSpec(g.edges, IndexMap(g.nodes));
  }

  /**
    A failed extraction names an id that is not a node: the source (else
    the target) of the first edge in edge order with an unknown endpoint.
  */
  lemma ExtractError<N>(g: Graph<N>, str: N -> string)
    requires Extract(g, str).Err?
    ensures Extract(g, str).error !in Ids(g.nodes)
    ensures exists j :: 0 <= j < |g.edges| && FirstUnknownEndpoint(g, j)
                        && Extract(g, str).error == (if g.edges[j].u !in Ids(g.nodes) then g.edges[j].u else g.edges[j].v)
  {
    var index := IndexMap(g.nodes);
    IndexMapSpec(g.nodes);
    LinksSpec(g.edges, index);
    var j :| 0 <= j < |g.edges| && FirstUnresolvable(g.edges, index, j)
             && LinkFor(g.edges[j], index) == Err(Links(g.edges, index).error);
    assert FirstUnknownEndpoint(g, j);
  }

  /** Edge `j` is the first edge with an endpoint that is not a node. */
  ghost predicate FirstUnknownEndpoint<N>(g: Graph<N>, j: int)
    requires 0 <= j < |g.edges|
  {
    && (g.edges[j].u !in Ids(g.nodes) || g.edges[j].v !in Ids(g.nodes))
    && forall i :: 0 <= i < j ==> g.edges[i].u in Ids(g.nodes) && g.edges[i].v in Ids(g.nodes)
  }

  /**
    A successful extraction has one node entry per node and one link per
    edge, both in iteration order, with the defaults applied; every link
    endpoint is a valid position in the node list, and it is a position
    at which that very endpoint was yielded.
  */
  lemma ExtractShape<N>(g: Graph<N>, str: N -> string)
    requires Extract(g, str).Ok?
    ensures |Extract(g, str).value.nodes| == |g.nodes|
    ensures |Extract(g, str).value.links| == |g.edges|
    ensures forall i :: 0 <= i < |g.nodes| ==>
              && Extract(g, str).value.nodes[i].name == str(g.nodes[i].id)
              && Extract(g, str).value.nodes[i].group
                 == (if "group" in g.nodes[i].attrs then g.nodes[i].attrs["group"] else DefaultGroup)
    ensures forall j :: 0 <= j < |g.edges| ==>
              && Extract(g, str).value.links[j].source < |g.nodes|
              && Extract(g, str).value.links[j].target < |g.nodes|
              && g.nodes[Extract(g, str).value.links[j].source].id == g.edges[j].u
              && g.nodes[Extract(g, str).value.links[j].target].id == g.edges[j].v
              && Extract(g, str).value.links[j].value
                 == (if "weight" in g.edges[j].attrs then g.edges[j].attrs["weight"] else DefaultWeight)
  {
    var index := IndexMap(g.nodes);
    IndexMapSpec(g.nodes);
    LinksSpec(g.edges, index);
    var links := Links(g.edges, index).value;
    forall j | 0 <= j < |g.edges|
      ensures links[j].source < |g.nodes| && g.nodes[links[j].source].id == g.edges[j].u
      ensures links[j].target < |g.nodes| && g.nodes[links[j].target].id == g.edges[j].v
    {
      assert LinkFor(g.edges[j], index) == Ok(links[j]);
    }
  }

  /** With distinct node ids every link points at the one node carrying its endpoint's id. */
  lemma ExtractLinksDistinct<N>(g: Graph<N>, str: N -> string)
    requires DistinctIds(g.nodes)
    requires Extract(g, str).Ok?
    ensures |Extract(g, str).value.links| == |g.edges|
    ensures forall j, i :: 0 <= j < |g.edges| && 0 <= i < |g.nodes| ==>
              && (Extract(g, str).value.links[j].source == i <==> g.nodes[i].id == g.edges[j].u)
              && (Extract(g, str).value.links[j].target == i <==> g.nodes[i].id == g.edges[j].v)
  {
    ExtractShape(g, str);
  }

  // ---------------------------------------------------------------------
  // Worked examples

  /** Nodes A (group 1) and B, one edge A to B of weight 3. */
  lemma ExampleTwoNodes()
    ensures Extract(Graph([NodeItem("A", map["group" := Int(1)]), NodeItem("B", map[])],
                          [EdgeItem("A", "B", map["weight" := Int(3)])]), s => s)
         == Ok(Data([VisNode("A", Int(1)), VisNode("B", Int(0))], [VisLink(0, 1, Int(3))]))
  {
    var nodes := [NodeItem("A", map["group" := Int(1)]), NodeItem("B", map[])];
    var edges := [EdgeItem("A", "B", map["weight" := Int(3)])];
    assert nodes[..1] == [nodes[0]];
    assert IndexMap(nodes) == map["A" := 0, "B" := 1];
    assert edges[..|edges| - 1] == [];
    assert Links(edges[..|edges| - 1], IndexMap(nodes)) == Ok([]);
    assert LinkFor(edges[|edges| - 1], IndexMap(nodes)) == Ok(VisLink(0, 1, Int(3)));
    assert [] + [VisLink(0, 1, Int(3))] == [VisLink(0, 1, Int(3))];
    assert Links(edges, IndexMap(nodes)) == Ok([VisLink(0, 1, Int(3))]);
    assert NodeList(nodes, s => s) == [VisNode("A", Int(1)), VisNode("B", Int(0))];
  }

  /** The empty graph gives empty node and link lists. */
  lemma ExampleEmptyGraph<N>(str: N -> string)
    ensures Extract(Graph([], []), str) == Ok(Data([], []))
  {
    assert NodeList([], str) == [];
  }

  /** An edge to a node never listed fails with that node's id. */
  lemma ExampleMissingNode()
    ensures Extract(Graph([NodeItem("A", map[])], [EdgeItem("A", "C", map[])]), s => s) == Err("C")
  {
  }
}
