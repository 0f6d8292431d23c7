/**
  `nx_force`: walks the graph's nodes and edges, building the index map and
  the `{nodes, links}` lists step by step, then gathers the arguments the
  HTML template is rendered with.
*/
module D3Shims {
  import opened Wrappers
  import opened Graph
  import opened ForceData

  /** The JavaScript that draws each node's name next to it. */
  const TextLabelSnippet: string :=
    "\n        node.append(\"text\")\n            .attr(\"dx\", 12)\n            .attr(\"dy\", \".35em\")\n            .text(function(d) { return d.name; });\n        "

  /** `_LABEL_INSERTS`: label mode to the snippet spliced into the template. */
  const LabelInserts: map<Option<string>, string> := map[None := "", Some("always") := TextLabelSnippet]

  /** `_LABEL_INSERTS[labels]`; `None` here is the `KeyError` of an unknown mode. */
  function LabelInsert(labels: Option<string>): (r: Option<string>)
    ensures r.Some? <==> labels == None || labels == Some("always")
    ensures labels == None ==> r == Some("")
    ensures labels == Some("always") ==> r == Some(TextLabelSnippet)
  {
    if labels in LabelInserts then Some(LabelInserts[labels]) else None
  }

  predicate IsLetter(c: char)
  {
    'a' <= c <= 'z' || 'A' <= c <= 'Z'
  }

  predicate IsDigit(c: char)
  {
    '0' <= c <= '9'
  }

  /** The characters of `uuid4().hex`. */
  predicate IsHexDigit(c: char)
  {
    IsDigit(c) || 'a' <= c <= 'f'
  }

  /** An HTML 4 element id: a letter, then letters, digits, `-`, `_`, `:` or `.`. */
  predicate IsHtmlId(s: string)
  {
    && |s| > 0
    && IsLetter(s[0])
    && forall i :: 1 <= i < |s| ==> IsLetter(s[i]) || IsDigit(s[i]) || s[i] in "-_:."
  }

  /** `'x' + token`: a container id that never starts with a digit and from which the token can be read back. */
  function ContainerId(token: string): (id: string)
    ensures |id| > 0 && id[0] == 'x' && !IsDigit(id[0])
    ensures id[1..] == token
    ensures (forall i :: 0 <= i < |token| ==> IsHexDigit(token[i])) ==> IsHtmlId(id)
  {
    "x" + token
  }

  /** Two renders with different random tokens target different containers. */
  lemma ContainerIdInjective(t1: string, t2: string)
    requires t1 != t2
    ensures ContainerId(t1) != ContainerId(t2)
  {
  }

  /** What `nx_force` raises: a `KeyError` on a node id or on the label mode. */
  datatype Error<N> = MissingNode(id: N) | UnknownLabelMode(labels: Option<string>)

  /** The keyword arguments `_TEMPLATE.render` receives, with `data` before `json.dumps`. */
  datatype TemplateArgs = TemplateArgs(
    width: Value, height: Value, divid: string, data: Data, insertA: string, linkDistance: Value)

  /**
    The two loops of `nx_force`: the node pass fills `node_index_map` and
    the node list, the edge pass resolves each edge's endpoints through the
    map and appends its link; a lookup that misses stops the call.
  */
  method ExtractData<N(==)>(g: Graph<N>, str: N -> string) returns (r: Result<Data, N>)
    ensures r == Extract(g, str)
  {
    var data := Data([], []);
    var nodeIndexMap: map<N, nat> := map[];
    var i := 0;
    while i < |g.nodes|
      invariant 0 <= i <= |g.nodes|
      invariant nodeIndexMap == IndexMap(g.nodes[..i])
      invariant data == Data(NodeList(g.nodes[..i], str), [])
    {
      var item := g.nodes[i];
      nodeIndexMap := nodeIndexMap[item.id := i];
      data := data.(nodes := data.nodes + [VisNode(str(item.id), GetOr(item.attrs, "group", DefaultGroup))]);
      assert g.nodes[..i + 1][..i] == g.nodes[..i];
      i := i + 1;
    }
    assert g.nodes[..i] == g.nodes;

    var j := 0;
    while j < |g.edges|
      invariant 0 <= j <= |g.edges|
      invariant nodeIndexMap == IndexMap(g.nodes)
      invariant data.nodes == NodeList(g.nodes, str)
      invariant Links(g.edges[..j], nodeIndexMap) == Ok(data.links)
    {
      var e := g.edges[j];
      assert g.edges[..j + 1][..j] == g.edges[..j];
      if e.u !in nodeIndexMap {
        LinksErrStops(g.edges, j + 1, nodeIndexMap);
        return Err(e.u);
      }
      if e.v !in nodeIndexMap {
        LinksErrStops(g.edges, j + 1, nodeIndexMap);
        return Err(e.v);
      }
      data := data.(links := data.links + [VisLink(nodeIndexMap[e.u], nodeIndexMap[e.v], GetOr(e.attrs, "weight", DefaultWeight))]);
      j := j + 1;
    }
    assert g.edges[..j] == g.edges;
    r := Ok(data);
  }

  /**
    `nx_force(G, size, labels, linkdistance)` up to the template: the data is
    extracted first, so a missing node wins over an unknown label mode; the
    random hex token of `uuid4()` is a parameter.
  */
  method NxForce<N(==)>(g: Graph<N>, str: N -> string, token: string,
                        size: (Value, Value) := (Int(600), Int(400)), labels: Option<string> := None,
                        linkDistance: Value := Int(30))
    returns (r: Result<TemplateArgs, Error<N>>)
    ensures Extract(g, str).Err? ==> r == Err(MissingNode(Extract(g, str).error))
    ensures Extract(g, str).Ok? && labels != None && labels != Some("always") ==> r == Err(UnknownLabelMode(labels))
    ensures r.Ok? <==> Extract(g, str).Ok? && (labels == None || labels == Some("always"))
    ensures r.Ok? ==>
              && r.value.data == Extract(g, str).value
              && r.value.width == size.0 && r.value.height == size.1
              && r.value.linkDistance == linkDistance
              && r.value.divid == ContainerId(token)
              && r.value.insertA == (if labels == None then "" else TextLabelSnippet)
  {
    var extracted := ExtractData(g, str);
    if extracted.Err? {
      return Err(MissingNode(extracted.error));
    }
    var divid := ContainerId(token);
    var insert := LabelInsert(labels);
    if insert.None? {
      return Err(UnknownLabelMode(labels));
    }
    r := Ok(TemplateArgs(size.0, size.1, divid, extracted.value, insert.value, linkDistance));
  }
}
