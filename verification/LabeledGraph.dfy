/** The labeled pushdown system and the indexes behind its queries
    (walker/src/lpds.cc), and how it is built from a list of edges
    (walker/src/walker.cc:323-390). */
module LabeledGraph {

  type NodeId = nat

  type EdgeId = nat

  datatype Edge = Edge(source: NodeId, target: NodeId, labels: seq<string>, isCall: bool, isMayReturn: bool)

  /** The members of a set, each once, in any order. */
  predicate Lists<T(==)>(s: seq<T>, members: set<T>) {
    && (forall x :: x in s ==> x in members) && (forall x :: x in members ==> x in s)
    && forall i, j :: 0 <= i < j < |s| ==> s[i] != s[j]
  }

  method Listed<T(==)>(members: set<T>) returns (s: seq<T>)
    ensures Lists(s, members)
  {
    s := [];
    var rest := members;
    while rest != {}
      invariant rest <= members && Lists(s, members - rest)
    {
      var x :| x in rest;
      assert x !in s;
      s := s + [x];
      rest := rest - {x};
    }
    assert members - rest == members;
  }

  predicate LeavesBy(graph: map<NodeId, set<EdgeId>>, v: NodeId, e: EdgeId) {
    v in graph && e in graph[v]
  }

  predicate IndexedIn(index: map<string, set<EdgeId>>, l: string, e: EdgeId) {
    l in index && e in index[l]
  }

  class Lpds {
    var names: seq<string>                        // the name of every node
    var nodeIndex: map<string, NodeId>
    var edges: seq<Edge>
    var graph: map<NodeId, set<EdgeId>>           // out-edges by node
    var labelToEdges: map<string, set<EdgeId>>

    /** The indexes say exactly what the nodes and edges say. */
    ghost predicate Valid()
      reads this
    {
      && (forall v: NodeId :: v in graph <==> v < |names|)
      && (forall v: nat :: v < |names| ==> names[v] in nodeIndex && nodeIndex[names[v]] == v)
      && (forall n :: n in nodeIndex ==> nodeIndex[n] < |names| && names[nodeIndex[n]] == n)
      && (forall e: nat :: e < |edges| ==> edges[e].source < |names| && edges[e].target < |names|)
      && (forall v: NodeId, e: EdgeId :: LeavesBy(graph, v, e) <==> e < |edges| && edges[e].source == v)
      && (forall l, e: EdgeId :: IndexedIn(labelToEdges, l, e) <==> e < |edges| && l in edges[e].labels)
      && (forall l :: l in labelToEdges ==> labelToEdges[l] != {})
    }

    constructor ()
      ensures Valid() && names == [] && edges == []
    {
      names, nodeIndex, edges, graph, labelToEdges := [], map[], [], map[], map[];
    }

    /** A node's name identifies it; adding it again finds it. */
    method AddNode(name: string) returns (node: NodeId)
      requires Valid() && name != ""
      modifies this
      ensures Valid() && node < |names| && names[node] == name
      ensures names == (if name in old(names) then old(names) else old(names) + [name])
      ensures edges == old(edges) && labelToEdges == old(labelToEdges)
    {
      if name in nodeIndex {
        return nodeIndex[name];
      }
      node := |names|;
      assert forall e: nat :: e < |edges| ==> edges[e].source != node;
      names := names + [name];
      graph := graph[node := {}];
      nodeIndex := nodeIndex[name := node];
      forall v: NodeId, e: EdgeId ensures LeavesBy(graph, v, e) <==> e < |edges| && edges[e].source == v {
        assert LeavesBy(old(graph), v, e) <==> e < |edges| && edges[e].source == v;
      }
    }

    method AddEdge(edge: Edge) returns (added: EdgeId)
      requires Valid() && edge.source < |names| && edge.target < |names|
      modifies this
      ensures Valid() && added == |old(edges)| && edges == old(edges) + [edge]
      ensures names == old(names)
    {
      added := |edges|;
      labelToEdges := IndexLabels(labelToEdges, edge.labels, added);
      graph := graph[edge.source := graph[edge.source] + {added}];
      edges := edges + [edge];
      forall v: NodeId, e: EdgeId ensures LeavesBy(graph, v, e) <==> e < |edges| && edges[e].source == v {
        assert LeavesBy(old(graph), v, e) <==> e < added && old(edges)[e].source == v;
      }
      forall l, e: EdgeId ensures IndexedIn(labelToEdges, l, e) <==> e < |edges| && l in edges[e].labels {
        assert IndexedIn(old(labelToEdges), l, e) <==> e < added && l in old(edges)[e].labels;
      }
    }

    static method IndexLabels(index: map<string, set<EdgeId>>, labels: seq<string>, added: EdgeId)
      returns (more: map<string, set<EdgeId>>)
      requires forall l :: l in index ==> index[l] != {}
      ensures forall l :: l in more ==> more[l] != {}
      ensures forall l, e: EdgeId :: IndexedIn(more, l, e) <==> IndexedIn(index, l, e) || (e == added && l in labels)
    {
      more := index;
      for i := 0 to |labels|
        invariant forall l, e: EdgeId :: IndexedIn(more, l, e) <==>
                    IndexedIn(index, l, e) || (e == added && l in labels[..i])
        invariant forall l :: l in more ==> more[l] != {}
      {
        var l := labels[i];
        assert labels[..i + 1] == labels[..i] + [l];
        more := more[l := (if l in more then more[l] else {}) + {added}];
      }
      assert labels[..|labels|] == labels;
    }

    method GetOutEdges(node: NodeId) returns (out: seq<EdgeId>)
      requires Valid() && node < |names|
      ensures Lists(out, graph[node])
      ensures forall e: EdgeId :: e in out <==> e < |edges| && edges[e].source == node
    {
      out := Listed(graph[node]);
      assert forall e: EdgeId :: e in out <==> LeavesBy(graph, node, e);
    }

    method GetLabels() returns (labels: seq<string>)
      requires Valid()
      ensures Lists(labels, labelToEdges.Keys)
      ensures forall l :: l in labels <==> exists e: EdgeId :: e < |edges| && l in edges[e].labels
    {
      labels := Listed(labelToEdges.Keys);
      assert forall l, e: EdgeId :: IndexedIn(labelToEdges, l, e) ==> l in labels;
      forall l | l in labels ensures exists e: EdgeId :: e < |edges| && l in edges[e].labels {
        var e: EdgeId :| e in labelToEdges[l];
        assert IndexedIn(labelToEdges, l, e);
        assert e < |edges| && l in edges[e].labels;
      }
    }

    method GetEdgesForLabel(text: string) returns (labelled: seq<EdgeId>)
      requires Valid() && text in labelToEdges
      ensures Lists(labelled, labelToEdges[text]) && labelled != []
      ensures forall e: EdgeId :: e in labelled <==> e < |edges| && text in edges[e].labels
    {
      labelled := Listed(labelToEdges[text]);
      assert forall e: EdgeId :: e in labelled <==> IndexedIn(labelToEdges, text, e);
    }
  }

  // ----- Building from a list of edges -----

  /** One edge of a program's interprocedural control-flow graph. */
  datatype IcfgEdge = IcfgEdge(source: string, target: string, meta: string, labelIds: seq<int>)

  function StripSuffixAfterDot(s: string): (r: string)
    ensures r <= s && '.' !in r
    ensures |r| < |s| ==> s[|r|] == '.'
  {
    if s == "" || s[0] == '.' then "" else
    var rest := StripSuffixAfterDot(s[1..]);
    assert '.' !in rest && s[0] != '.';
    [s[0]] + rest
  }

  /** The functions called from the node `source`, by any call edge. */
  function CalleesOf(icfg: seq<IcfgEdge>, source: string): set<string> {
    set k | 0 <= k < |icfg| && icfg[k].source == source && icfg[k].meta == "call" :: StripSuffixAfterDot(icfg[k].target)
  }

  function LabelText(idToLabel: map<int, string>, id: int): string {
    if id in idToLabel then idToLabel[id] else ""
  }

  function LabelTexts(idToLabel: map<int, string>, ids: seq<int>): seq<string> {
    if ids == [] then []
    else LabelTexts(idToLabel, ids[..|ids| - 1]) + [LabelText(idToLabel, ids[|ids| - 1])]
  }

  /** The texts stand for the ids one by one. */
  lemma {:induction false} LabelTextsAre(idToLabel: map<int, string>, ids: seq<int>)
    ensures |LabelTexts(idToLabel, ids)| == |ids|
    ensures forall k :: 0 <= k < |ids| && ids[k] in idToLabel ==> LabelTexts(idToLabel, ids)[k] == idToLabel[ids[k]]
    ensures forall k :: 0 <= k < |ids| && ids[k] !in idToLabel ==> LabelTexts(idToLabel, ids)[k] == ""
  {
    if ids != [] {
      LabelTextsAre(idToLabel, ids[..|ids| - 1]);
    }
  }

  /** The edges that are kept. */
  function Kept(icfg: seq<IcfgEdge>): seq<IcfgEdge> {
    if icfg == [] then []
    else Kept(icfg[..|icfg| - 1]) + if icfg[|icfg| - 1].source == "main.0" then [] else [icfg[|icfg| - 1]]
  }

  /** Each edge is kept as often as it is there, unless it leaves "main.0". */
  lemma {:induction false} KeptAre(icfg: seq<IcfgEdge>, e: IcfgEdge)
    ensures multiset(Kept(icfg))[e] == if e.source == "main.0" then 0 else multiset(icfg)[e]
  {
    if icfg != [] {
      var init, last := icfg[..|icfg| - 1], icfg[|icfg| - 1];
      KeptAre(init, e);
      assert icfg == init + [last];
    }
  }

  /** And their order is kept. */
  lemma {:induction false} KeptInOrder(icfg: seq<IcfgEdge>, more: seq<IcfgEdge>)
    ensures Kept(icfg + more) == Kept(icfg) + Kept(more)
  {
    if more == [] {
      assert icfg + more == icfg;
    } else {
      KeptInOrder(icfg, more[..|more| - 1]);
      assert (icfg + more)[..|icfg + more| - 1] == icfg + more[..|more| - 1];
    }
  }

  /** Edge e stands for `from`: same nodes, its flags, the names of all
      functions called at its source, each once, and then its own labels. */
  ghost predicate StandsFor(names: seq<string>, e: Edge, icfg: seq<IcfgEdge>, idToLabel: map<int, string>,
                            from: IcfgEdge) {
    && e.source < |names| && names[e.source] == from.source
    && e.target < |names| && names[e.target] == from.target
    && e.isCall == (from.meta == "call") && e.isMayReturn == (from.meta == "may_ret")
    && exists calls ::
         && Lists(calls, CalleesOf(icfg, from.source))
         && e.labels == calls + LabelTexts(idToLabel, from.labelIds)
  }

  ghost predicate Built(names: seq<string>, edges: seq<Edge>, icfg: seq<IcfgEdge>, idToLabel: map<int, string>,
                        kept: seq<IcfgEdge>) {
    |edges| == |kept| && forall k :: 0 <= k < |kept| ==> StandsFor(names, edges[k], icfg, idToLabel, kept[k])
  }

  lemma BuiltMore(names: seq<string>, more: seq<string>, edges: seq<Edge>, icfg: seq<IcfgEdge>,
                  idToLabel: map<int, string>, kept: seq<IcfgEdge>, e: Edge, from: IcfgEdge, calls: seq<string>)
    requires Built(names, edges, icfg, idToLabel, kept) && names <= more
    requires e.source < |more| && more[e.source] == from.source && e.target < |more| && more[e.target] == from.target
    requires e.isCall == (from.meta == "call") && e.isMayReturn == (from.meta == "may_ret")
    requires Lists(calls, CalleesOf(icfg, from.source)) && e.labels == calls + LabelTexts(idToLabel, from.labelIds)
    ensures Built(more, edges + [e], icfg, idToLabel, kept + [from])
  {
    assert StandsFor(more, e, icfg, idToLabel, from);
    forall k | 0 <= k < |kept| ensures StandsFor(more, edges[k], icfg, idToLabel, kept[k]) {
      assert StandsFor(names, edges[k], icfg, idToLabel, kept[k]);
    }
  }

  /** Every edge that does not leave "main.0" becomes one edge, with the
      labels of the functions called at its source. */
  method ReadLegacyIcfg(icfg: seq<IcfgEdge>, idToLabel: map<int, string>) returns (lpds: Lpds)
    requires forall k :: 0 <= k < |icfg| ==> icfg[k].source != "" && icfg[k].target != ""
    ensures fresh(lpds) && lpds.Valid()
    ensures Built(lpds.names, lpds.edges, icfg, idToLabel, Kept(icfg))
  {
    var callNodes := CollectCalls(icfg);
    lpds := new Lpds();
    for k := 0 to |icfg|
      invariant fresh(lpds) && lpds.Valid()
      invariant Built(lpds.names, lpds.edges, icfg, idToLabel, Kept(icfg[..k]))
    {
      assert icfg[..k + 1][..k] == icfg[..k];
      if icfg[k].source == "main.0" {
        continue;
      }
      InsertEdge(lpds, icfg, idToLabel, callNodes, icfg[k], Kept(icfg[..k]));
    }
    assert icfg[..|icfg|] == icfg;
  }

  method InsertEdge(lpds: Lpds, icfg: seq<IcfgEdge>, idToLabel: map<int, string>, callNodes: map<string, set<string>>,
                    from: IcfgEdge, ghost kept: seq<IcfgEdge>)
    requires lpds.Valid() && from.source != "" && from.target != ""
    requires forall n :: (if n in callNodes then callNodes[n] else {}) == CalleesOf(icfg, n)
    requires Built(lpds.names, lpds.edges, icfg, idToLabel, kept)
    modifies lpds
    ensures lpds.Valid() && old(lpds.names) <= lpds.names && old(lpds.edges) <= lpds.edges
    ensures Built(lpds.names, lpds.edges, icfg, idToLabel, kept + [from])
  {
    var source := lpds.AddNode(from.source);
    var target := lpds.AddNode(from.target);
    ghost var calls;
    var labels;
    calls, labels := Labels(icfg, idToLabel, callNodes, from);
    var edge := Edge(source, target, labels, from.meta == "call", from.meta == "may_ret");
    BuiltMore(old(lpds.names), lpds.names, lpds.edges, icfg, idToLabel, kept, edge, from, calls);
    var added := lpds.AddEdge(edge);
  }

  method CollectCalls(icfg: seq<IcfgEdge>) returns (callNodes: map<string, set<string>>)
    ensures forall n :: (if n in callNodes then callNodes[n] else {}) == CalleesOf(icfg, n)
  {
    callNodes := map[];
    for k := 0 to |icfg|
      invariant forall n :: (if n in callNodes then callNodes[n] else {}) == CalleesOf(icfg[..k], n)
    {
      CalleesGrow(icfg, k);
      if icfg[k].meta == "call" {
        var soFar := if icfg[k].source in callNodes then callNodes[icfg[k].source] else {};
        callNodes := callNodes[icfg[k].source := soFar + {StripSuffixAfterDot(icfg[k].target)}];
      }
    }
    assert icfg[..|icfg|] == icfg;
  }

  lemma CalleesGrow(icfg: seq<IcfgEdge>, k: nat)
    requires k < |icfg|
    ensures forall n :: CalleesOf(icfg[..k + 1], n)
                        == CalleesOf(icfg[..k], n)
                           + if icfg[k].source == n && icfg[k].meta == "call"
                             then {StripSuffixAfterDot(icfg[k].target)} else {}
  {
    var more, less := icfg[..k + 1], icfg[..k];
    forall n, x | x in CalleesOf(less, n) ensures x in CalleesOf(more, n) {
      var j :| 0 <= j < k && less[j].source == n && less[j].meta == "call" && x == StripSuffixAfterDot(less[j].target);
      assert more[j] == less[j];
    }
    assert more[k] == icfg[k];
    assert forall j :: 0 <= j < k ==> more[j] == less[j];
  }

  /** The names of the called functions, each once. */
  method CallLabels(names: set<string>) returns (labels: seq<string>)
    ensures Lists(labels, names)
  {
    labels := [];
    var rest := names;
    while rest != {}
      invariant rest <= names && Lists(labels, names - rest)
    {
      var name :| name in rest;
      assert name !in labels;
      if name !in labels {
        labels := labels + [name];
      }
      assert names - (rest - {name}) == names - rest + {name};
      rest := rest - {name};
    }
    assert names - rest == names;
  }

  method Labels(icfg: seq<IcfgEdge>, idToLabel: map<int, string>, callNodes: map<string, set<string>>, from: IcfgEdge)
    returns (ghost calls: seq<string>, labels: seq<string>)
    requires forall n :: (if n in callNodes then callNodes[n] else {}) == CalleesOf(icfg, n)
    ensures Lists(calls, CalleesOf(icfg, from.source))
    ensures labels == calls + LabelTexts(idToLabel, from.labelIds)
  {
    labels := CallLabels(if from.source in callNodes then callNodes[from.source] else {});
    calls := labels;
    for i := 0 to |from.labelIds|
      invariant labels == calls + LabelTexts(idToLabel, from.labelIds[..i])
    {
      assert from.labelIds[..i + 1][..i] == from.labelIds[..i];
      labels := labels + [LabelText(idToLabel, from.labelIds[i])];
    }
    assert from.labelIds[..|from.labelIds|] == from.labelIds;
  }
}
