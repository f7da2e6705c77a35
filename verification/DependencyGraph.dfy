/** Dependency graphs shared by the task runner and the execution DAG: a node maps to the ids it
    depends on. */
module DependencyGraph {

  type Graph = map<string, seq<string>>

  /** Every dependency is itself a node. */
  ghost predicate Closed(g: Graph) {
    forall n, d :: n in g && d in g[n] ==> d in g
  }

  /** A walk along dependency edges: each node depends on the next. */
  ghost predicate IsPath(g: Graph, p: seq<string>) {
    && |p| >= 1
    && (forall i :: 0 <= i < |p| ==> p[i] in g)
    && (forall i :: 0 <= i < |p| - 1 ==> p[i + 1] in g[p[i]])
  }

  ghost predicate Acyclic(g: Graph) {
    forall p :: IsPath(g, p) && |p| >= 2 ==> p[0] != p[|p| - 1]
  }

  /** `d` is a transitive dependency of `n`. */
  ghost predicate DependsOn(g: Graph, n: string, d: string) {
    exists p :: IsPath(g, p) && |p| >= 2 && p[0] == n && p[|p| - 1] == d
  }

  /** In an acyclic graph, if every stuck node outside `cause` has a stuck dependency, then every
      stuck node is in `cause` or transitively depends on a stuck node of `cause`. */
  lemma StuckHasCause(g: Graph, n: string, stuck: set<string>, cause: set<string>)
    requires Acyclic(g) && n in stuck && stuck <= g.Keys
    requires forall m :: m in stuck && m !in cause ==> exists d :: d in g[m] && d in stuck
    ensures n in cause || exists c :: c in cause && c in stuck && DependsOn(g, n, c)
  {
    if n !in cause {
      var c := WalkToCause(g, [n], stuck, cause);
      assert DependsOn(g, n, c);
    }
  }

  lemma {:induction false} WalkToCause(g: Graph, p: seq<string>, stuck: set<string>, cause: set<string>)
    returns (c: string)
    requires Acyclic(g) && stuck <= g.Keys
    requires IsPath(g, p) && p[|p| - 1] in stuck && p[|p| - 1] !in cause
    requires forall m :: m in stuck && m !in cause ==> exists d :: d in g[m] && d in stuck
    ensures c in cause && c in stuck
    ensures exists q :: IsPath(g, q) && |q| >= 2 && q[0] == p[0] && q[|q| - 1] == c
    decreases |g| - |p|
  {
    var last := p[|p| - 1];
    var d :| d in g[last] && d in stuck;
    var q := p + [d];
    assert IsPath(g, q);
    PathNoLonger(g, q);
    if d in cause {
      c := d;
    } else {
      c := WalkToCause(g, q, stuck, cause);
    }
  }

  /** A walk in an acyclic graph never repeats a node, so it is no longer than the graph. */
  lemma PathNoLonger(g: Graph, p: seq<string>)
    requires Acyclic(g) && IsPath(g, p)
    ensures |p| <= |g|
  {
    forall i, j | 0 <= i < j < |p| ensures p[i] != p[j] {
      var q := p[i..j + 1];
      assert IsPath(g, q);
      assert q[0] == p[i] && q[|q| - 1] == p[j];
    }
    DistinctFits(p, g.Keys);
    assert |g.Keys| == |g|;
  }

  lemma {:induction false} DistinctFits(p: seq<string>, s: set<string>)
    requires forall i, j :: 0 <= i < j < |p| ==> p[i] != p[j]
    requires forall i :: 0 <= i < |p| ==> p[i] in s
    ensures |p| <= |s|
  {
    if p != [] {
      DistinctFits(p[1..], s - {p[0]});
    }
  }
}
