/**
  The input graph as `nx_force` sees it: the node iteration
  `G.nodes_iter(data=True)` as an ordered sequence of (id, attributes)
  pairs and the edge iteration `G.edges_iter(data=True)` as an ordered
  sequence of (u, v, attributes) triples.
*/
module Graph {

  /** An attribute value. Only `group` and `weight` are ever read, and they are passed through unchanged. */
  datatype Value = Int(i: int) | Real(r: real) | Text(s: string)

  type Attrs = map<string, Value>

  /** Python's `attrs.get(key, default)`. */
  function GetOr(attrs: Attrs, key: string, default: Value): Value
  {
    if key in attrs then attrs[key] else default
  }

  datatype NodeItem<N> = NodeItem(id: N, attrs: Attrs)

  datatype EdgeItem<N> = EdgeItem(u: N, v: N, attrs: Attrs)

  datatype Graph<N> = Graph(nodes: seq<NodeItem<N>>, edges: seq<EdgeItem<N>>)

  /** The ids the node iteration yields. */
  function Ids<N>(items: seq<NodeItem<N>>): set<N>
  {
    set i | 0 <= i < |items| :: items[i].id
  }

  /** What a NetworkX graph guarantees: no id is yielded twice. */
  ghost predicate DistinctIds<N>(items: seq<NodeItem<N>>)
  {
    forall i, j :: 0 <= i < j < |items| ==> items[i].id != items[j].id
  }
}
