/** Directed graphs with named edges; every node also keeps its own edge sets. */
module Graphs {
  /** Two edges are the same when their ends and their name are. */
  datatype Edge<K, N> = Edge(src: K, dst: K, name: N)

  class Graph<K(==,!new), N(==,!new), I> {
    var nodes: map<K, I>
    var edges: set<Edge<K, N>>
    var inEdges: map<K, set<Edge<K, N>>>
    var outEdges: map<K, set<Edge<K, N>>>

    /** The edge sets kept at the nodes are the edge set of the graph seen from its two ends. */
    ghost predicate Valid()
      reads this
    {
      && inEdges.Keys == nodes.Keys && outEdges.Keys == nodes.Keys
      && (forall e :: e in edges ==>
            e.src in nodes && e.dst in nodes && e in outEdges[e.src] && e in inEdges[e.dst])
      && (forall k, e {:trigger e in outEdges[k]} ::
            k in nodes && e in outEdges[k] ==> e in edges && e.src == k)
      && (forall k, e {:trigger e in inEdges[k]} ::
            k in nodes && e in inEdges[k] ==> e in edges && e.dst == k)
    }

    constructor ()
      ensures Valid() && nodes == map[] && edges == {}
    {
      nodes, edges, inEdges, outEdges := map[], {}, map[], map[];
    }

    /** Adding a known key keeps the node that is there. */
    method AddNode(k: K, item: I)
      requires Valid()
      modifies this
      ensures Valid()
      ensures nodes == if k in old(nodes) then old(nodes) else old(nodes)[k := item]
      ensures edges == old(edges)
    {
      if k !in nodes {
        nodes, inEdges, outEdges := nodes[k := item], inEdges[k := {}], outEdges[k := {}];
      }
    }

    /** The item of a node is changed in place. */
    method SetItem(k: K, item: I)
      requires Valid() && k in nodes
      modifies this`nodes
      ensures Valid() && nodes == old(nodes)[k := item]
    {
      nodes := nodes[k := item];
    }

    method AddEdge(src: K, dst: K, name: N)
      requires Valid() && src in nodes && dst in nodes
      modifies this
      ensures Valid()
      ensures nodes == old(nodes) && edges == old(edges) + {Edge(src, dst, name)}
    {
      var e := Edge(src, dst, name);
      outEdges := outEdges[src := outEdges[src] + {e}];
      inEdges := inEdges[dst := inEdges[dst] + {e}];
      edges := edges + {e};
    }

    method DelEdge(e: Edge<K, N>)
      requires Valid() && e in edges
      modifies this
      ensures Valid()
      ensures nodes == old(nodes) && edges == old(edges) - {e}
    {
      outEdges := outEdges[e.src := outEdges[e.src] - {e}];
      inEdges := inEdges[e.dst := inEdges[e.dst] - {e}];
      edges := edges - {e};
    }

    /** Removes the edges at a node and, if asked, the node; a loop at the node goes once. */
    method DelNode(k: K, removeFromList: bool)
      requires Valid() && k in nodes
      modifies this
      ensures Valid()
      ensures nodes == if removeFromList then old(nodes) - {k} else old(nodes)
      ensures edges == set e | e in old(edges) && e.src != k && e.dst != k
    {
      var todo := inEdges[k] + outEdges[k];
      while todo != {}
        invariant Valid() && nodes == old(nodes) && k in nodes
        invariant forall e :: e in todo <==> e in edges && (e.src == k || e.dst == k)
        invariant edges <= old(edges)
        invariant forall e :: e in old(edges) && e.src != k && e.dst != k ==> e in edges
        decreases todo
      {
        var e :| e in todo;
        DelEdge(e);
        todo := todo - {e};
      }
      if removeFromList {
        nodes, inEdges, outEdges := nodes - {k}, inEdges - {k}, outEdges - {k};
      }
    }
  }
}
