/** Random walks over a labeled pushdown system (walker/src/walker.cc:153-272).
    Random choices may turn out any way. */
module Walker {
  import IR
  import opened LabeledGraph

  predicate Out(edges: seq<Edge>, v: NodeId, e: EdgeId) {
    e < |edges| && edges[e].source == v
  }

  /** What the graph documentation asks for: a node with calls has exactly one
      other edge, to where they return; and where a function may return there
      are only edges to possible return sites, at least two. */
  ghost predicate Regular(edges: seq<Edge>) {
    && (forall v: NodeId, e: EdgeId :: Out(edges, v, e) && edges[e].isCall ==> HasOneSite(edges, v))
    && (forall v: NodeId, e: EdgeId :: Out(edges, v, e) && edges[e].isMayReturn ==>
          EndOfFunction(edges, v) && exists d: EdgeId :: Out(edges, v, d) && d != e)
  }

  ghost predicate IsSite(edges: seq<Edge>, v: NodeId, s: EdgeId) {
    Out(edges, v, s) && !edges[s].isCall
  }

  ghost predicate HasOneSite(edges: seq<Edge>, v: NodeId) {
    && (exists s: EdgeId :: IsSite(edges, v, s))
    && (forall s: EdgeId, t: EdgeId :: IsSite(edges, v, s) && IsSite(edges, v, t) ==> s == t)
  }

  ghost predicate EndOfFunction(edges: seq<Edge>, v: NodeId) {
    forall e: EdgeId :: Out(edges, v, e) ==> edges[e].isMayReturn
  }

  // ----- What a pushdown walk is -----

  datatype Move =
    | Call(edge: EdgeId, site: EdgeId)   // into a function, remembering where it returns
    | Return(edge: EdgeId)               // to where the last call returns
    | Escape(edge: EdgeId)               // to a possible return site, without a call
    | Stay(edge: EdgeId)                 // inside a function

  ghost predicate Legal(edges: seq<Edge>, v: NodeId, stack: seq<EdgeId>, m: Move, next: seq<EdgeId>) {
    m.edge < |edges| &&
    match m
    case Call(e, s) =>
      Out(edges, v, e) && edges[e].isCall && IsSite(edges, v, s) && !EndOfFunction(edges, v) && next == stack + [s]
    case Return(e) =>
      EndOfFunction(edges, v) && stack != [] && e == stack[|stack| - 1] && next == stack[..|stack| - 1]
    case Escape(e) => EndOfFunction(edges, v) && stack == [] && Out(edges, v, e) && next == []
    case Stay(e) => Out(edges, v, e) && !edges[e].isCall && !edges[e].isMayReturn && next == stack
  }

  ghost predicate Stuck(edges: seq<Edge>, v: NodeId, stack: seq<EdgeId>) {
    stack == [] && forall e: EdgeId :: !Out(edges, v, e)
  }

  datatype Walk = Walk(nodes: seq<NodeId>, stacks: seq<seq<EdgeId>>, moves: seq<Move>)

  ghost predicate LegalAt(edges: seq<Edge>, w: Walk, k: nat)
    requires k < |w.moves| && |w.nodes| == |w.stacks| == |w.moves| + 1
  {
    && Legal(edges, w.nodes[k], w.stacks[k], w.moves[k], w.stacks[k + 1])
    && w.nodes[k + 1] == edges[w.moves[k].edge].target
  }

  ghost predicate IsWalk(edges: seq<Edge>, start: NodeId, w: Walk) {
    && |w.nodes| == |w.stacks| == |w.moves| + 1
    && w.nodes[0] == start && w.stacks[0] == []
    && forall k: nat :: k < |w.moves| ==> LegalAt(edges, w, k)
  }

  /** Call i is open at time k: it put the site at height p, and the stack has
      been higher ever since. */
  ghost predicate OpenSince(w: Walk, i: nat, k: nat, p: nat)
    requires |w.stacks| == |w.moves| + 1 && k < |w.stacks| && p < |w.stacks[k]|
  {
    && i < k && w.moves[i].Call? && w.moves[i].site == w.stacks[k][p] && w.stacks[i] == w.stacks[k][..p]
    && forall m :: i < m <= k ==> |w.stacks[m]| > p
  }

  lemma {:induction false} OpenCall(edges: seq<Edge>, start: NodeId, w: Walk, k: nat, p: nat) returns (i: nat)
    requires IsWalk(edges, start, w) && k < |w.stacks| && p < |w.stacks[k]|
    ensures OpenSince(w, i, k, p)
  {
    assert k > 0;
    assert LegalAt(edges, w, k - 1);
    var before := w.stacks[k - 1];
    if p < |before| {
      i := OpenCall(edges, start, w, k - 1, p);
      assert w.stacks[k][..p] == before[..p];
    } else {
      i := k - 1;
      assert w.stacks[k] == before + [w.moves[i].site];
      assert w.stacks[k][..p] == before;
    }
  }

  /** Calls and returns match: every return goes to the return site of the most
      recent call that has not returned, leaving the stack as it was at that
      call; between the two the stack never was that low. */
  lemma ReturnsMatchCalls(edges: seq<Edge>, start: NodeId, w: Walk, j: nat) returns (i: nat)
    requires IsWalk(edges, start, w) && j < |w.moves| && w.moves[j].Return?
    ensures i < j && w.moves[i].Call? && w.moves[i].site == w.moves[j].edge
    ensures IsSite(edges, w.nodes[i], w.moves[j].edge)
    ensures w.stacks[j + 1] == w.stacks[i]
    ensures forall m :: i < m <= j ==> |w.stacks[m]| > |w.stacks[i]|
  {
    assert LegalAt(edges, w, j);
    i := OpenCall(edges, start, w, j, |w.stacks[j]| - 1);
    assert LegalAt(edges, w, i);
  }

  /** A walk goes from edge to edge: each leaves the node reached, but those by
      which it returns, and leads to the next one.  Possible returns are taken
      without an open call only, and the stack follows calls and returns. */
  lemma WalkFollowsEdges(edges: seq<Edge>, start: NodeId, w: Walk, k: nat)
    requires IsWalk(edges, start, w) && k < |w.moves|
    ensures w.moves[k].edge < |edges| && edges[w.moves[k].edge].target == w.nodes[k + 1]
    ensures edges[w.moves[k].edge].source == w.nodes[k] || w.moves[k].Return?
    ensures w.moves[k].Call? ==> edges[w.moves[k].edge].isCall
    ensures w.moves[k].Escape? ==> w.stacks[k] == [] && edges[w.moves[k].edge].isMayReturn
    ensures w.moves[k].Stay? ==> !edges[w.moves[k].edge].isCall && !edges[w.moves[k].edge].isMayReturn
    ensures |w.stacks[k + 1]| - |w.stacks[k]| == if w.moves[k].Call? then 1 else if w.moves[k].Return? then -1 else 0
  {
    assert LegalAt(edges, w, k);
  }

  // ----- Sentences -----

  /** One of the labels of the edge, if it has any. */
  predicate Emits(e: Edge, word: seq<string>) {
    if e.labels == [] then word == [] else |word| == 1 && word[0] in e.labels
  }

  function Concat(words: seq<seq<string>>): seq<string> {
    if words == [] then [] else Concat(words[..|words| - 1]) + words[|words| - 1]
  }

  /** The sentence spells a walk from an edge with the given label: that label
      and then, move by move, the emitted words.  The walk has the requested
      length unless it got stuck. */
  ghost predicate Spells(edges: seq<Edge>, text: string, length: int, sentence: seq<string>, first: EdgeId, w: Walk,
                         words: seq<seq<string>>)
  {
    && first < |edges| && text in edges[first].labels
    && IsWalk(edges, edges[first].target, w)
    && |words| == |w.moves| && (forall k :: 0 <= k < |words| ==> EmitsAt(edges, w, words, k))
    && sentence == [text] + Concat(words)
    && |w.moves| <= length - 1
    && (|w.moves| < length - 1 ==> Stuck(edges, w.nodes[|w.moves|], w.stacks[|w.moves|]))
  }

  ghost predicate EmitsAt(edges: seq<Edge>, w: Walk, words: seq<seq<string>>, k: int)
    requires 0 <= k < |words| == |w.moves|
  {
    w.moves[k].edge < |edges| && Emits(edges[w.moves[k].edge], words[k])
  }

  /** How many of the first k moves go along an edge with labels. */
  function Labelled(edges: seq<Edge>, moves: seq<Move>, k: nat): nat
    requires k <= |moves|
  {
    if k == 0 then 0
    else
      var e := moves[k - 1].edge;
      Labelled(edges, moves, k - 1) + if e < |edges| && edges[e].labels != [] then 1 else 0
  }

  lemma {:induction false} WordsCounted(edges: seq<Edge>, w: Walk, words: seq<seq<string>>, k: nat)
    requires |words| == |w.moves| && k <= |words|
    requires forall j :: 0 <= j < |words| ==> EmitsAt(edges, w, words, j)
    ensures |Concat(words[..k])| == Labelled(edges, w.moves, k)
  {
    if k > 0 {
      WordsCounted(edges, w, words, k - 1);
      assert words[..k][..k - 1] == words[..k - 1];
      assert EmitsAt(edges, w, words, k - 1);
    }
  }

  lemma {:induction false} WordAt(edges: seq<Edge>, w: Walk, words: seq<seq<string>>, i: nat, k: nat)
    requires i < k <= |words| == |w.moves| && w.moves[i].edge < |edges| && edges[w.moves[i].edge].labels != []
    requires forall j :: 0 <= j < |words| ==> EmitsAt(edges, w, words, j)
    ensures var place := Labelled(edges, w.moves, i);
            place < |Concat(words[..k])| && Concat(words[..k])[place] in edges[w.moves[i].edge].labels
  {
    assert words[..k][..k - 1] == words[..k - 1];
    if i < k - 1 {
      WordAt(edges, w, words, i, k - 1);
    } else {
      WordsCounted(edges, w, words, i);
      assert EmitsAt(edges, w, words, i);
    }
  }

  /** After its first word a sentence has one word for each edge with labels that
      the walk goes along, in this order, and it is a label of that edge. */
  lemma SentenceIsLabels(edges: seq<Edge>, text: string, length: int, sentence: seq<string>, first: EdgeId, w: Walk,
                         words: seq<seq<string>>, i: nat)
    requires Spells(edges, text, length, sentence, first, w, words) && i < |w.moves|
    ensures |sentence| == 1 + Labelled(edges, w.moves, |w.moves|)
    ensures w.moves[i].edge < |edges|
    ensures edges[w.moves[i].edge].labels != [] ==>
              var place := 1 + Labelled(edges, w.moves, i);
              place < |sentence| && sentence[place] in edges[w.moves[i].edge].labels
  {
    WordsCounted(edges, w, words, |words|);
    assert words[..|words|] == words;
    assert EmitsAt(edges, w, words, i);
    if edges[w.moves[i].edge].labels != [] { WordAt(edges, w, words, i, |words|); }
  }

  lemma {:induction false} ShortWords(words: seq<seq<string>>)
    requires forall k :: 0 <= k < |words| ==> |words[k]| <= 1
    ensures |Concat(words)| <= |words|
  {
    if words != [] { ShortWords(words[..|words| - 1]); }
  }

  /** Each sentence starts with its label and has at most `length` words. */
  lemma SentenceLength(edges: seq<Edge>, text: string, length: int, sentence: seq<string>, first: EdgeId, w: Walk,
                       words: seq<seq<string>>)
    requires Spells(edges, text, length, sentence, first, w, words)
    ensures 1 <= |sentence| <= length && sentence[0] == text
  {
    forall k | 0 <= k < |words| ensures |words[k]| <= 1 {
      assert EmitsAt(edges, w, words, k);
    }
    ShortWords(words);
  }

  function NonCalls(edges: seq<Edge>, out: seq<EdgeId>): seq<EdgeId> {
    if out == [] then []
    else
      var e := out[|out| - 1];
      NonCalls(edges, out[..|out| - 1]) + if e < |edges| && !edges[e].isCall then [e] else []
  }

  lemma {:induction false} NonCallsAre(edges: seq<Edge>, out: seq<EdgeId>)
    requires forall i, j :: 0 <= i < j < |out| ==> out[i] != out[j]
    ensures forall s: EdgeId :: s in NonCalls(edges, out) <==> s in out && s < |edges| && !edges[s].isCall
    ensures forall i, j :: 0 <= i < j < |NonCalls(edges, out)| ==> NonCalls(edges, out)[i] != NonCalls(edges, out)[j]
  {
    if out != [] {
      NonCallsAre(edges, out[..|out| - 1]);
      assert out == out[..|out| - 1] + [out[|out| - 1]];
      assert out[|out| - 1] !in out[..|out| - 1];
    }
  }

  lemma FirstTwo(s: seq<EdgeId>)
    requires |s| > 1 && forall i, j :: 0 <= i < j < |s| ==> s[i] != s[j]
    ensures s[0] != s[1]
  {
  }

  /** A node with calls has a single return site. */
  lemma OneSite(edges: seq<Edge>, v: NodeId, out: seq<EdgeId>, call: EdgeId)
    requires Regular(edges) && Out(edges, v, call) && edges[call].isCall
    requires forall e: EdgeId :: e in out <==> Out(edges, v, e)
    requires forall i, j :: 0 <= i < j < |out| ==> out[i] != out[j]
    ensures |NonCalls(edges, out)| == 1 && IsSite(edges, v, NonCalls(edges, out)[0])
  {
    NonCallsAre(edges, out);
    var sites := NonCalls(edges, out);
    var s: EdgeId :| IsSite(edges, v, s);
    assert s in sites;
    forall k | 0 <= k < |sites| ensures sites[k] == s {
      assert sites[k] in sites && IsSite(edges, v, sites[k]);
    }
    if |sites| > 1 {
      FirstTwo(sites);
      assert false;
    }
  }

  class WalkWorker {
    const lpds: Lpds
    var returnStack: seq<EdgeId>
    var written: seq<seq<string>>     // the sentences written so far

    ghost predicate Ready()
      reads this, lpds
    {
      && lpds.Valid() && Regular(lpds.edges)
      && forall e: EdgeId :: e in returnStack ==> e < |lpds.edges|
    }

    constructor (lpds: Lpds)
      requires lpds.Valid() && Regular(lpds.edges)
      ensures Ready() && this.lpds == lpds && returnStack == [] && written == []
    {
      this.lpds := lpds;
      returnStack, written := [], [];
    }

    /** Writes one sentence for each label. */
    method SingleRandomWalk(labels: seq<string>, walkLength: int)
      returns (ghost walks: seq<(EdgeId, Walk, seq<seq<string>>)>)
      requires Ready() && returnStack == [] && walkLength >= 1
      requires forall l :: l in labels ==> l in lpds.labelToEdges
      modifies this
      ensures Ready() && returnStack == []
      ensures |walks| == |labels| && |written| == |old(written)| + |labels| && old(written) <= written
      ensures forall k :: 0 <= k < |labels| ==>
                Spells(lpds.edges, labels[k], walkLength, written[|old(written)| + k],
                       walks[k].0, walks[k].1, walks[k].2)
    {
      walks := [];
      for k := 0 to |labels|
        invariant Ready() && returnStack == []
        invariant |walks| == k && |written| == |old(written)| + k && old(written) <= written
        invariant forall j :: 0 <= j < k ==>
                    Spells(lpds.edges, labels[j], walkLength, written[|old(written)| + j],
                           walks[j].0, walks[j].1, walks[j].2)
      {
        var sentence;
        ghost var walk;
        sentence, walk := WalkFrom(labels[k], walkLength);
        written := written + [sentence];
        walks := walks + [walk];
        returnStack := [];
      }
    }

    method WalkFrom(text: string, walkLength: int)
      returns (sentence: seq<string>, ghost walk: (EdgeId, Walk, seq<seq<string>>))
      requires Ready() && returnStack == [] && walkLength >= 1 && text in lpds.labelToEdges
      modifies this`returnStack
      ensures Ready()
      ensures Spells(lpds.edges, text, walkLength, sentence, walk.0, walk.1, walk.2)
    {
      var edgesWithLabel := lpds.GetEdgesForLabel(text);
      var k :| 0 <= k < |edgesWithLabel|;
      var randomEdge := edgesWithLabel[k];
      assert randomEdge in edgesWithLabel;
      sentence := [text];
      var edgesVisited := 0;
      var node: NodeId := lpds.edges[randomEdge].target;
      ghost var start, w, words := node, Walk([node], [[]], []), [];
      var stopped := false;
      while edgesVisited < walkLength - 1 && !stopped
        invariant Ready() && node < |lpds.names| && 0 <= edgesVisited <= walkLength - 1
        invariant Walking(start, w, words, node, [text], sentence)
        invariant !stopped ==> |w.moves| == edgesVisited
        invariant |w.moves| <= edgesVisited
        invariant stopped ==> Stuck(lpds.edges, node, returnStack)
        decreases walkLength - edgesVisited, if stopped then 0 else 1
      {
        var next;
        ghost var move, word;
        ghost var stack, before := returnStack, sentence;
        next, sentence, move, word := RandomTransition(node, sentence);
        edgesVisited := edgesVisited + 1;
        match next
        case None => stopped := true;
        case Some(v) =>
          OneMoveOn(start, w, words, node, [text], before, stack, move, word, v);
          w, words := Extended(w, move, v, returnStack), words + [word];
          node := v;
      }
      walk := (randomEdge, w, words);
    }

    /** The walk so far, at `node`, has spelled the sentence. */
    ghost predicate Walking(start: NodeId, w: Walk, words: seq<seq<string>>, node: NodeId, text: seq<string>,
                            sentence: seq<string>)
      reads this, lpds
    {
      && IsWalk(lpds.edges, start, w) && w.nodes[|w.moves|] == node && w.stacks[|w.moves|] == returnStack
      && |words| == |w.moves| && (forall k :: 0 <= k < |words| ==> EmitsAt(lpds.edges, w, words, k))
      && sentence == text + Concat(words)
    }

    lemma OneMoveOn(start: NodeId, w: Walk, words: seq<seq<string>>, node: NodeId, text: seq<string>,
                    before: seq<string>, stack: seq<EdgeId>, m: Move, word: seq<string>, v: NodeId)
      requires IsWalk(lpds.edges, start, w) && w.nodes[|w.moves|] == node && w.stacks[|w.moves|] == stack
      requires |words| == |w.moves| && (forall k :: 0 <= k < |words| ==> EmitsAt(lpds.edges, w, words, k))
      requires before == text + Concat(words)
      requires Legal(lpds.edges, node, stack, m, returnStack) && v == lpds.edges[m.edge].target
      requires Emits(lpds.edges[m.edge], word)
      ensures Walking(start, Extended(w, m, v, returnStack), words + [word], v, text, before + word)
    {
      var x, more := Extended(w, m, v, returnStack), words + [word];
      ExtendedWalk(lpds.edges, start, w, m, v, returnStack);
      forall k | 0 <= k < |more| ensures EmitsAt(lpds.edges, x, more, k) {
        if k < |words| { assert EmitsAt(lpds.edges, w, words, k); }
      }
      assert more[..|more| - 1] == words;
      assert text + (Concat(words) + word) == before + word;
    }

    method EmitLabel(e: EdgeId, sentence: seq<string>) returns (more: seq<string>, ghost word: seq<string>)
      requires e < |lpds.edges|
      ensures more == sentence + word && Emits(lpds.edges[e], word)
    {
      var labels := lpds.edges[e].labels;
      if |labels| == 0 {
        return sentence, [];
      }
      var k :| 0 <= k < |labels|;
      more, word := sentence + [labels[k]], [labels[k]];
    }

    /** The return site on top of the stack, or without one any of the given
        edges. */
    method PopTransition(mayReturn: seq<EdgeId>) returns (edge: IR.Option<EdgeId>)
      modifies this`returnStack
      ensures if old(returnStack) != [] then
                edge == IR.Some(old(returnStack)[|old(returnStack)| - 1])
                && returnStack == old(returnStack)[..|old(returnStack)| - 1]
              else
                returnStack == [] && (edge.None? <==> mayReturn == []) && (edge.Some? ==> edge.value in mayReturn)
    {
      if returnStack == [] {
        if |mayReturn| == 0 {
          return IR.None;
        }
        var k :| 0 <= k < |mayReturn|;
        return IR.Some(mayReturn[k]);
      }
      edge := IR.Some(returnStack[|returnStack| - 1]);
      returnStack := returnStack[..|returnStack| - 1];
    }

    /** A legal move was made and spelled, or there was none. */
    ghost predicate Moved(node: NodeId, stack: seq<EdgeId>, sentence: seq<string>, next: IR.Option<NodeId>,
                          more: seq<string>, move: Move, word: seq<string>)
      reads this, lpds
    {
      match next
      case None => Stuck(lpds.edges, node, stack) && returnStack == [] && more == sentence
      case Some(v) =>
        && Legal(lpds.edges, node, stack, move, returnStack)
        && v == lpds.edges[move.edge].target && v < |lpds.names|
        && more == sentence + word && Emits(lpds.edges[move.edge], word)
    }

    /** Makes one legal move, or none if there is none. */
    method RandomTransition(node: NodeId, sentence: seq<string>)
      returns (next: IR.Option<NodeId>, more: seq<string>, ghost move: Move, ghost word: seq<string>)
      requires Ready() && node < |lpds.names|
      modifies this`returnStack
      ensures Ready() && Moved(node, old(returnStack), sentence, next, more, move, word)
    {
      move, word := Stay(0), [];
      var outEdges := lpds.GetOutEdges(node);
      var edges := lpds.edges;
      if |outEdges| == 1 {
        OnlyEdge(edges, node, outEdges);
        more, word := EmitLabel(outEdges[0], sentence);
        return IR.Some(edges[outEdges[0]].target), more, Stay(outEdges[0]), word;
      }
      var mayReturn, others := Split(outEdges);
      if |mayReturn| == |outEdges| {
        AllMayReturn(edges, node, outEdges, mayReturn, others);
        next, more, move, word := LeaveFunction(node, sentence, mayReturn);
      } else {
        next, more, move, word := StayOrCall(node, sentence, outEdges, others);
      }
    }

    /** Only possible returns lead on. */
    method LeaveFunction(node: NodeId, sentence: seq<string>, mayReturn: seq<EdgeId>)
      returns (next: IR.Option<NodeId>, more: seq<string>, ghost move: Move, ghost word: seq<string>)
      requires Ready() && node < |lpds.names| && EndOfFunction(lpds.edges, node)
      requires forall e: EdgeId :: e in mayReturn <==> Out(lpds.edges, node, e)
      modifies this`returnStack
      ensures Ready() && Moved(node, old(returnStack), sentence, next, more, move, word)
    {
      move, word := Stay(0), [];
      var popped := PopTransition(mayReturn);
      assert forall e: EdgeId :: e in returnStack ==> e in old(returnStack);
      if popped.None? {
        return IR.None, sentence, Stay(0), [];
      }
      assert popped.value < |lpds.edges| by {
        if old(returnStack) != [] { assert popped.value in old(returnStack); }
      }
      more, word := EmitLabel(popped.value, sentence);
      move := if old(returnStack) == [] then Escape(popped.value) else Return(popped.value);
      next := IR.Some(lpds.edges[popped.value].target);
    }

    method StayOrCall(node: NodeId, sentence: seq<string>, outEdges: seq<EdgeId>, others: seq<EdgeId>)
      returns (next: IR.Option<NodeId>, more: seq<string>, ghost move: Move, ghost word: seq<string>)
      requires Ready() && node < |lpds.names| && others != []
      requires Lists(outEdges, lpds.graph[node])
      requires forall e: EdgeId :: e in outEdges <==> Out(lpds.edges, node, e)
      requires forall e: EdgeId :: e in others <==> Out(lpds.edges, node, e) && !lpds.edges[e].isMayReturn
      modifies this`returnStack
      ensures Ready() && Moved(node, old(returnStack), sentence, next, more, move, word)
    {
      var k :| 0 <= k < |others|;
      var edge := others[k];
      assert edge in others && Out(lpds.edges, node, edge);
      move := Stay(edge);
      if lpds.edges[edge].isCall {
        PushSites(outEdges);
        OneSite(lpds.edges, node, outEdges, edge);
        move := Call(edge, NonCalls(lpds.edges, outEdges)[0]);
        ghost var site := NonCalls(lpds.edges, outEdges)[0];
        assert returnStack == old(returnStack) + [site];
        forall e: EdgeId | e in returnStack ensures e < |lpds.edges| {
          assert e in old(returnStack) || e == site;
        }
      }
      more, word := EmitLabel(edge, sentence);
      next := IR.Some(lpds.edges[edge].target);
    }

    method Split(outEdges: seq<EdgeId>) returns (mayReturn: seq<EdgeId>, others: seq<EdgeId>)
      requires forall e: EdgeId :: e in outEdges ==> e < |lpds.edges|
      ensures |mayReturn| + |others| == |outEdges|
      ensures forall e: EdgeId :: e in mayReturn <==> e in outEdges && e < |lpds.edges| && lpds.edges[e].isMayReturn
      ensures forall e: EdgeId :: e in others <==> e in outEdges && e < |lpds.edges| && !lpds.edges[e].isMayReturn
    {
      mayReturn, others := [], [];
      for i := 0 to |outEdges|
        invariant |mayReturn| + |others| == i
        invariant forall e: EdgeId :: e in mayReturn <==>
                    e in outEdges[..i] && e < |lpds.edges| && lpds.edges[e].isMayReturn
        invariant forall e: EdgeId :: e in others <==>
                    e in outEdges[..i] && e < |lpds.edges| && !lpds.edges[e].isMayReturn
      {
        assert outEdges[..i + 1] == outEdges[..i] + [outEdges[i]] && outEdges[i] in outEdges;
        if lpds.edges[outEdges[i]].isMayReturn {
          mayReturn := mayReturn + [outEdges[i]];
        } else {
          others := others + [outEdges[i]];
        }
      }
      assert outEdges[..|outEdges|] == outEdges;
    }

    method PushSites(outEdges: seq<EdgeId>)
      requires forall e: EdgeId :: e in outEdges ==> e < |lpds.edges|
      modifies this`returnStack
      ensures returnStack == old(returnStack) + NonCalls(lpds.edges, outEdges)
    {
      for i := 0 to |outEdges|
        invariant returnStack == old(returnStack) + NonCalls(lpds.edges, outEdges[..i])
      {
        assert outEdges[..i + 1][..i] == outEdges[..i] && outEdges[i] in outEdges;
        if !lpds.edges[outEdges[i]].isCall {
          returnStack := returnStack + [outEdges[i]];
        }
      }
      assert outEdges[..|outEdges|] == outEdges;
    }
  }

  /** A walk extended by one move. */
  function Extended(w: Walk, m: Move, v: NodeId, stack: seq<EdgeId>): Walk {
    Walk(w.nodes + [v], w.stacks + [stack], w.moves + [m])
  }

  lemma ExtendedWalk(edges: seq<Edge>, start: NodeId, w: Walk, m: Move, v: NodeId, stack: seq<EdgeId>)
    requires IsWalk(edges, start, w)
    requires Legal(edges, w.nodes[|w.moves|], w.stacks[|w.moves|], m, stack) && v == edges[m.edge].target
    ensures IsWalk(edges, start, Extended(w, m, v, stack))
  {
    var x := Extended(w, m, v, stack);
    forall k: nat | k < |x.moves| ensures LegalAt(edges, x, k) {
      if k < |w.moves| { assert LegalAt(edges, w, k); }
    }
  }

  /** The only edge of a node is neither a call nor a possible return. */
  lemma OnlyEdge(edges: seq<Edge>, v: NodeId, out: seq<EdgeId>)
    requires Regular(edges) && |out| == 1 && forall e: EdgeId :: e in out <==> Out(edges, v, e)
    ensures Legal(edges, v, [], Stay(out[0]), [])
  {
    assert out[0] in out;
    assert forall e: EdgeId :: Out(edges, v, e) ==> e == out[0];
  }

  lemma AllMayReturn(edges: seq<Edge>, v: NodeId, out: seq<EdgeId>, mayReturn: seq<EdgeId>, others: seq<EdgeId>)
    requires forall e: EdgeId :: e in out <==> Out(edges, v, e)
    requires |mayReturn| == |out| && |mayReturn| + |others| == |out|
    requires forall e: EdgeId :: e in mayReturn <==> e in out && e < |edges| && edges[e].isMayReturn
    requires forall e: EdgeId :: e in others <==> e in out && e < |edges| && !edges[e].isMayReturn
    ensures EndOfFunction(edges, v) && forall e: EdgeId :: e in mayReturn <==> Out(edges, v, e)
  {
    forall e: EdgeId | Out(edges, v, e) ensures edges[e].isMayReturn {
      assert e in out && e !in others;
    }
  }
}