# d3shims in Dafny

A model of `nx_force`, the one function of d3shims. It turns a NetworkX
graph into the `{nodes, links}` structure that a D3 force layout consumes,
and then fills an HTML template with that structure.

The model covers the data extraction and the template's small inputs:

- **Node pass** (`D3Shims.ExtractData`, first loop). It walks the node
  iteration in order. It records each id's position in `node_index_map`
  and appends `{name: str(id), group}`, where `group` defaults to 0.
- **Edge pass** (`D3Shims.ExtractData`, second loop). It resolves each
  edge's endpoints through `node_index_map` and appends
  `{source, target, value}`, where `value` defaults to 1. If an endpoint
  was never seen as a node, the lookup raises `KeyError` and the call
  fails. The source endpoint is looked up before the target.
- **Label mode** (`D3Shims.LabelInsert`): the lookup in `_LABEL_INSERTS`.
- **Container id** (`D3Shims.ContainerId`): `'x'` followed by the random
  hex token.
- **The whole call** (`D3Shims.NxForce`) returns the arguments handed to
  the template, or the error the call raises.

The imperative method is proved equal to a functional specification in
module `ForceData` (`Extract`, built from `NodeList`, `IndexMap` and
`Links`). The properties of the output are proved as lemmas about that
specification.

Modelling choices:

- Node ids are a type parameter `N` with equality.
- `str()` is a function parameter `str: N -> string`.
- Attribute mappings are `map<string, Value>`. `Value` is an integer, a
  real or a string, standing for whatever Python object is stored there.
- `labels` is `Option<string>`.
- The `uuid4().hex` token is a parameter `token`.

Files:

- `wrappers.dfy`: `Option` and `Result`.
- `graph.dfy`: the input graph.
- `force_data.dfy`: the specification of the extraction and its lemmas.
- `d3shims.dfy`: `nx_force` itself.

## Model

| member | source | states |
|---|---|---|
| `D3Shims.ExtractData` | d3shims.py:122-138 | The two loops give exactly `Extract(g, str)`. The node loop keeps the map equal to `IndexMap` of the visited prefix and the node list equal to its `NodeList`. The edge loop leaves the node list unchanged. It stops with the missing key at the first edge whose lookup fails. |
| `D3Shims.NxForce` | d3shims.py:115-148 | A missing endpoint fails the call with `MissingNode(k)`. Otherwise an unknown label mode fails it. The call succeeds exactly when every endpoint is a node and the mode is `None` or `'always'`. The template then gets the size, link distance, extracted data, `'x'`-prefixed container id and matching label snippet. |
| `D3Shims.LabelInsert` | d3shims.py:105-113 | `None` gives the empty string and `'always'` gives the text-label snippet. Every other mode fails, as the dictionary's `KeyError` does. |
| `D3Shims.ContainerId` | d3shims.py:143 | The id starts with `'x'`, never with a digit. The token can be read back from it. A hex token yields a valid HTML element id. |
| `D3Shims.ContainerIdInjective` | d3shims.py:143 | Different random tokens give different container ids. |
| `ForceData.IndexMapSpec` | d3shims.py:127-128 | After the node loop, the map's keys are exactly the visited ids. Each id maps to a position below the node count that holds that id. No later position holds it, so the last write wins. |
| `ForceData.IndexMapOfDistinct` | d3shims.py:127-132 | With distinct ids, `node_index_map[id]` is the id's own position. The node entry at that position is that id's entry. |
| `ForceData.LinksErrStops` | d3shims.py:133-136 | Once an edge's lookup fails, no later edge changes the outcome. The call fails with that key. |
| `ForceData.LinksSpec` | d3shims.py:133-138 | The edge pass succeeds exactly when every endpoint is in the map. Then it gives one link per edge, in edge order, each the resolved link of its edge. Otherwise it fails with the missing endpoint of the first bad edge, source before target. |
| `ForceData.ExtractSucceedsIff` | d3shims.py:127-138 | Extraction succeeds exactly when every edge endpoint appeared in the node iteration. |
| `ForceData.ExtractError` | d3shims.py:133-136 | A failed extraction names an id that is not a node. That id is the source, else the target, of the first edge with an unknown endpoint. |
| `ForceData.ExtractShape` | d3shims.py:122-138 | On success there is one node entry per node and one link per edge, in iteration order. `name` is `str(id)` and `group` is the `'group'` attribute or 0. `value` is the `'weight'` attribute or 1. `source` and `target` lie in `[0, len(nodes))`, at a position where that endpoint's id was yielded. |
| `ForceData.ExtractLinksDistinct` | d3shims.py:127-136 | With distinct node ids, a link's source (target) is position `i` exactly when node `i` carries the edge's `u` (`v`). |
| `ForceData.ExampleTwoNodes` | d3shims.py:122-138 | Nodes A (group 1) and B with an edge A to B of weight 3 give nodes `[A/1, B/0]` and links `[0 to 1, value 3]`. |
| `ForceData.ExampleEmptyGraph` | d3shims.py:122-138 | The empty graph gives empty node and link lists. |
| `ForceData.ExampleMissingNode` | d3shims.py:133-136 | An edge to a node that was never listed fails with that node's id. |

## Left out

- Template compilation and rendering with Jinja2 (d3shims.py:13-103, 140-147). The model stops at the arguments the template receives (`TemplateArgs`); the markup string is not modelled.
- The embedded D3 JavaScript: the force simulation, drawing and CDN loading run in the browser.
- `uuid.uuid4()`: the random hex token is a parameter, so the uniqueness of ids across calls holds only as far as the tokens differ (`ContainerIdInjective`).
- `json.dumps`: the model keeps the `Data` structure, not its text.
- The `IPython.display.HTML` wrapper: `NxForce` returns the template arguments.
- NetworkX's `nodes_iter`/`edges_iter` are not called. The graph is given as the two sequences they yield.
- Width, height and link distance are passed through unchecked. The code does not validate them, although positive values are expected.
- `NxForce`: `labels` is `None` or a string, so a label mode of another Python type is not modelled. Such a value raises `KeyError`, or `TypeError` if it is unhashable.
- `NxForce`: width, height and link distance are `Value`s (integer, real or string) rather than arbitrary Python objects. They are passed to the template unchanged.
- `NxForce`: the naming function `str` is total. Under Python 2, `str()` of a non-ASCII unicode node id raises `UnicodeEncodeError`, and that failure is not modelled.
- `NxForce`: attribute values are limited to `Value` (integer, real, string), which can always be serialised. A `group` or `weight` that `json.dumps` cannot serialise raises `TypeError` before the label lookup. So the claim that the call succeeds exactly when every endpoint is a node and the label mode is known holds only for such values.
- `setup.py` is packaging metadata and is not part of this model.
