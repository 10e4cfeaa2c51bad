/** The DirectedGraph class template: paired multimaps that index one list of inserted edges. */
module DirectedGraphs {
  import opened Graphs

  /** QMultiMap::values: the values under a key, most recently inserted first. */
  function Values<K, V>(m: map<K, seq<V>>, k: K): seq<V> {
    if k in m then m[k] else []
  }

  /** QMultiMap::insert. */
  function InsertMulti<K, V>(m: map<K, seq<V>>, k: K, v: V): map<K, seq<V>> {
    m[k := [v] + Values(m, k)]
  }

  /** QMap::insert on the keys: the map iterates in ascending order. */
  function InsertId(ids: seq<nat>, id: nat): (r: seq<nat>)
    requires Ascending(ids)
    ensures Ascending(r)
    ensures forall n :: n in r <==> n in ids || n == id
  {
    if ids == [] then [id]
    else if id < ids[0] then [id] + ids
    else if id == ids[0] then ids
    else
      var rest := InsertId(ids[1..], id);
      assert forall k | 0 <= k < |rest| :: rest[k] in rest && ids[0] < rest[k];
      [ids[0]] + rest
  }

  /** The multimaps list, under every key, what the edge list says. */
  ghost predicate Indexes<E>(successors: map<nat, seq<nat>>, predecessors: map<nat, seq<nat>>,
                             infos: map<(nat, nat), seq<E>>, edges: seq<Edge<E>>) {
    && (forall n {:trigger Values(predecessors, n)} {:trigger Preds(edges, n)} ::
          Values(predecessors, n) == Preds(edges, n))
    && (forall n {:trigger Values(successors, n)} {:trigger Succs(edges, n)} ::
          Values(successors, n) == Succs(edges, n))
    && (forall a, b {:trigger Values(infos, (a, b))} {:trigger Infos(edges, a, b)} ::
          Values(infos, (a, b)) == Infos(edges, a, b))
    && (forall n | n in predecessors :: predecessors[n] != [])
  }

  lemma IndexEdge<E>(successors: map<nat, seq<nat>>, predecessors: map<nat, seq<nat>>,
                     infos: map<(nat, nat), seq<E>>, edges: seq<Edge<E>>, e: Edge<E>)
    requires Indexes(successors, predecessors, infos, edges)
    ensures Indexes(InsertMulti(successors, e.pred, e.succ), InsertMulti(predecessors, e.succ, e.pred),
                    InsertMulti(infos, (e.pred, e.succ), e.info), edges + [e])
  {
    var longer := edges + [e];
    assert longer[..|longer| - 1] == edges;
    forall n ensures Values(InsertMulti(predecessors, e.succ, e.pred), n) == Preds(longer, n) {
      assert Values(predecessors, n) == Preds(edges, n);
    }
    forall n ensures Values(InsertMulti(successors, e.pred, e.succ), n) == Succs(longer, n) {
      assert Values(successors, n) == Succs(edges, n);
    }
    forall a, b ensures Values(InsertMulti(infos, (e.pred, e.succ), e.info), (a, b)) == Infos(longer, a, b) {
      assert Values(infos, (a, b)) == Infos(edges, a, b);
    }
  }

  class DirectedGraph<E> {
    var successors: map<nat, seq<nat>>
    var predecessors: map<nat, seq<nat>>
    var nodes: seq<nat>
    var edges: map<(nat, nat), seq<E>>
    ghost var value: Graph<E>

    ghost predicate Valid()
      reads this
    {
      && Ascending(nodes) && value.nodes == nodes
      && Indexes(successors, predecessors, edges, value.edges)
    }

    constructor ()
      ensures Valid() && value == Graph([], [])
    {
      successors, predecessors, nodes, edges := map[], map[], [], map[];
      value := Graph([], []);
    }

    method InsertEdge(parent: nat, child: nat, info: E)
      requires Valid()
      modifies this
      ensures Valid() && value == old(value).(edges := old(value.edges) + [Edge(parent, child, info)])
    {
      IndexEdge(successors, predecessors, edges, value.edges, Edge(parent, child, info));
      successors := InsertMulti(successors, parent, child);
      predecessors := InsertMulti(predecessors, child, parent);
      edges := InsertMulti(edges, (parent, child), info);
      value := value.(edges := value.edges + [Edge(parent, child, info)]);
    }

    method InsertNode(node: nat)
      requires Valid()
      modifies this
      ensures Valid() && value == old(value).(nodes := InsertId(old(value.nodes), node))
    {
      nodes := InsertId(nodes, node);
      value := value.(nodes := nodes);
    }

    predicate IsEmpty()
      reads this
      requires Valid()
      ensures IsEmpty() <==> value.nodes == []
    {
      nodes == []
    }

    function Predecessors(node: nat): (r: seq<nat>)
      reads this
      requires Valid()
      ensures r == Preds(value.edges, node)
    {
      Values(predecessors, node)
    }

    function Successors(node: nat): (r: seq<nat>)
      reads this
      requires Valid()
      ensures r == Succs(value.edges, node)
    {
      Values(successors, node)
    }

    function Edges(predecessor: nat, successor: nat): (r: seq<E>)
      reads this
      requires Valid()
      ensures r == Infos(value.edges, predecessor, successor)
    {
      Values(edges, (predecessor, successor))
    }

    /** QMultiMap::value: the most recently inserted of the parallel edges. */
    function TheEdge(predecessor: nat, successor: nat): (r: E)
      reads this
      requires Valid() && HasEdge(value, predecessor, successor)
      ensures Infos(value.edges, predecessor, successor) != []
      ensures r == Infos(value.edges, predecessor, successor)[0]
    {
      PredsAreEdges(value, predecessor, successor);
      Edges(predecessor, successor)[0]
    }

    /** The nodes without predecessors, in ascending order, each once. */
    method Roots() returns (result: seq<nat>)
      requires Valid()
      ensures Ascending(result)
      ensures forall n :: n in result <==> n in value.nodes && Preds(value.edges, n) == []
    {
      result := [];
      for i := 0 to |nodes|
        invariant Ascending(result)
        invariant forall n :: n in result <==> n in nodes[..i] && Preds(value.edges, n) == []
      {
        assert Values(predecessors, nodes[i]) == Preds(value.edges, nodes[i]);
        forall k | 0 <= k < |result| ensures result[k] < nodes[i] {
          assert result[k] in result && result[k] in nodes[..i];
        }
        if nodes[i] !in predecessors {
          result := result + [nodes[i]];
        }
      }
    }
  }
}
