/** The call graph of a module and the order in which the passes over a module
    visit it: strongly connected components, callees first
    (eesi/src/return_range_pass.cc:91-148, eesi/src/error_blocks_pass.cc:149-165). */
module CallGraph {
  import opened IR

  /** The functions a function calls. */
  ghost function Callees(fn: Func): set<string> {
    set b, i | 0 <= b < |fn.blocks| && 0 <= i < |fn.blocks[b]|
               && fn.blocks[b][i].Call? && fn.blocks[b][i].callee.Direct? :: fn.blocks[b][i].callee.name
  }

  /** A strongly connected component of the call graph; `hasLoop` unless it is
      a single function that does not call itself. */
  datatype Scc = Scc(nodes: seq<string>, hasLoop: bool)

  /** f, in component i, calls g, in component j. */
  ghost predicate CallsInto(prog: Module, sccs: seq<Scc>, f: string, i: nat, g: string, j: nat) {
    && i < |sccs| && j < |sccs| && f in prog && f in sccs[i].nodes && g in sccs[j].nodes && g in Callees(prog[f])
  }

  /** The order in which components are visited: callees first, each function
      in one component, and only components with a loop call themselves. */
  ghost predicate BottomUp(prog: Module, sccs: seq<Scc>) {
    && (forall f, i: nat, g, j: nat :: CallsInto(prog, sccs, f, i, g, j) ==> j <= i && (j == i ==> sccs[i].hasLoop))
    && (forall i, j, f :: 0 <= i < |sccs| && 0 <= j < |sccs| && f in sccs[i].nodes && f in sccs[j].nodes ==> i == j)
  }

  /** No function of a component calls another, or itself. */
  ghost predicate Apart(prog: Module, scc: Scc) {
    forall f, g :: f in scc.nodes && f in prog && g in scc.nodes ==> g !in Callees(prog[f])
  }

  lemma NoLoopIsApart(prog: Module, sccs: seq<Scc>, i: nat)
    requires BottomUp(prog, sccs) && i < |sccs| && !sccs[i].hasLoop
    ensures Apart(prog, sccs[i])
  {
    forall f, g | f in sccs[i].nodes && f in prog && g in sccs[i].nodes ensures g !in Callees(prog[f]) {
      assert !CallsInto(prog, sccs, f, i, g, i);
    }
  }
}
