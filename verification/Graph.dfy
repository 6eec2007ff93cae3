/** Cycle detection and topological order by depth-first search (backend/common/graph_dependency_helper.h). */
module Graph {
  import opened Collections

  /** Edge targets by node; nodes are numbered in insertion order. */
  type Edges = seq<seq<nat>>

  ghost predicate WellFormed(g: Edges) {
    forall u, k :: 0 <= u < |g| && 0 <= k < |g[u]| ==> g[u][k] < |g|
  }

  predicate Edge(g: Edges, u: nat, v: nat) {
    u < |g| && v in g[u]
  }

  ghost predicate IsPath(g: Edges, p: seq<nat>) {
    && (forall i :: 0 <= i < |p| ==> p[i] < |g|)
    && (forall i :: 0 < i < |p| ==> Edge(g, p[i - 1], p[i]))
  }

  ghost predicate IsCycle(g: Edges, p: seq<nat>) {
    |p| >= 2 && IsPath(g, p) && p[0] == p[|p| - 1]
  }

  ghost predicate Acyclic(g: Edges) {
    forall p :: !IsCycle(g, p)
  }

  /** Every target of a listed node is listed before it. */
  ghost predicate TargetsFirst(g: Edges, order: seq<nat>) {
    forall i, v :: 0 <= i < |order| && Edge(g, order[i], v) ==> v in order[..i]
  }

  ghost predicate IsOrder(g: Edges, order: seq<nat>) {
    && Distinct(order) && TargetsFirst(g, order)
    && (forall u :: u in order <==> 0 <= u < |g|)
  }

  /** Along a path, positions in the order fall. */
  lemma {:induction false} PathFalls(g: Edges, order: seq<nat>, p: seq<nat>, i: nat, j: nat)
    requires Distinct(order) && TargetsFirst(g, order) && IsPath(g, p) && p != []
    requires i < |order| && order[i] == p[0] && j < |order| && order[j] == p[|p| - 1]
    ensures |p| >= 2 ==> j < i
    decreases |p|
  {
    if |p| >= 2 {
      assert Edge(g, p[0], p[1]);
      assert p[1] in order[..i];
      var k :| 0 <= k < i && order[k] == p[1];
      forall m | 0 < m < |p[1..]| ensures Edge(g, p[1..][m - 1], p[1..][m]) {
        assert Edge(g, p[m], p[m + 1]);
      }
      PathFalls(g, order, p[1..], k, j);
    }
  }

  lemma OrderedIsAcyclic(g: Edges, order: seq<nat>)
    requires IsOrder(g, order)
    ensures Acyclic(g)
  {
    forall p ensures !IsCycle(g, p) {
      if IsCycle(g, p) {
        assert p[0] in order;
        var i :| 0 <= i < |order| && order[i] == p[0];
        PathFalls(g, order, p, i, i);
      }
    }
  }

  /** The visiting stack, from some node on, closes a cycle. */
  ghost predicate StackHasCycle(g: Edges, visiting: seq<nat>) {
    exists k :: 0 <= k < |visiting| && IsCycle(g, visiting[k..] + [visiting[k]])
  }

  lemma StackCloses(g: Edges, visiting: seq<nat>, k: nat)
    requires IsPath(g, visiting) && k < |visiting| && Edge(g, visiting[|visiting| - 1], visiting[k])
    ensures StackHasCycle(g, visiting)
  {
    var p := visiting[k..] + [visiting[k]];
    forall i | 0 < i < |p| ensures Edge(g, p[i - 1], p[i]) {
      if i < |p| - 1 {
        assert Edge(g, visiting[k + i - 1], visiting[k + i]);
      }
    }
    assert IsCycle(g, p);
  }

  /** Visited nodes are either on the stack, which is a path, or finished, in an order that puts targets first. */
  ghost predicate Searched(g: Edges, visited: set<nat>, stack: seq<nat>, finished: seq<nat>) {
    && IsPath(g, stack) && Distinct(finished) && TargetsFirst(g, finished)
    && (forall u :: u in stack ==> u !in finished)
    && (forall u :: u in visited <==> u in stack || u in finished)
    && (forall u :: u in visited ==> 0 <= u < |g|)
  }

  class VisitingState {
    var preTraversal: set<nat>
    var visiting: seq<nat>
    var postTraversal: seq<nat>

    constructor ()
      ensures preTraversal == {} && visiting == [] && postTraversal == []
    {
      preTraversal, visiting, postTraversal := {}, [], [];
    }

    ghost predicate Valid(g: Edges)
      reads this
    {
      Searched(g, preTraversal, visiting, postTraversal)
    }
  }

  ghost function Below(n: nat): (nodes: set<nat>)
    ensures forall u :: u in nodes <==> 0 <= u < n
  {
    if n == 0 then {} else Below(n - 1) + {n - 1}
  }

  /** Scans the visiting stack for `node`. */
  method OnStack(visiting: seq<nat>, node: nat) returns (found: bool)
    ensures found <==> node in visiting
  {
    for i := 0 to |visiting|
      invariant node !in visiting[..i]
    {
      if visiting[i] == node {
        return true;
      }
    }
    return false;
  }

  /** Appending a finished node. */
  lemma FinishNode(g: Edges, order: seq<nat>, u: nat)
    requires Distinct(order) && TargetsFirst(g, order) && u !in order
    requires forall v :: Edge(g, u, v) ==> v in order
    ensures Distinct(order + [u]) && TargetsFirst(g, order + [u])
  {
    var next := order + [u];
    forall i, v | 0 <= i < |next| && Edge(g, next[i], v) ensures v in next[..i] {
      if i < |order| {
        assert v in order[..i];
        assert next[..i] == order[..i];
      } else {
        assert next[..i] == order;
      }
    }
  }

  /** A node goes on the stack. */
  lemma Entered(g: Edges, visited: set<nat>, stack: seq<nat>, finished: seq<nat>, node: nat)
    requires Searched(g, visited, stack, finished) && node < |g| && node !in visited
    requires stack != [] ==> Edge(g, stack[|stack| - 1], node)
    ensures Searched(g, visited + {node}, stack + [node], finished)
  {
  }

  /** The node on top, all its targets finished, is finished too. */
  lemma Left(g: Edges, visited: set<nat>, below: seq<nat>, finished: seq<nat>, node: nat)
    requires Searched(g, visited, below + [node], finished) && node !in below
    requires forall v :: Edge(g, node, v) ==> v in finished
    ensures Searched(g, visited, below, finished + [node])
  {
    var stack := below + [node];
    assert stack[|below|] == node;
    assert forall u :: u in stack <==> u in below || u == node;
    FinishNode(g, finished, node);
    forall i | 0 < i < |below| ensures Edge(g, below[i - 1], below[i]) {
      assert Edge(g, stack[i - 1], stack[i]);
    }
    forall i | 0 <= i < |below| ensures below[i] < |g| {
      assert stack[i] < |g|;
    }
  }

  lemma NotOnStack(g: Edges, visited: set<nat>, stack: seq<nat>, finished: seq<nat>, node: nat)
    requires Searched(g, visited, stack, finished)
    ensures node in visited && node !in stack ==> node in finished
    ensures node in stack ==> node in visited
    ensures IsPath(g, stack)
  {
  }

  method VisitNode(g: Edges, state: VisitingState, node: nat) returns (ok: bool)
    requires WellFormed(g) && state.Valid(g) && node < |g| && node !in state.preTraversal
    requires state.visiting != [] ==> Edge(g, state.visiting[|state.visiting| - 1], node)
    modifies state
    ensures ok ==> state.Valid(g) && state.visiting == old(state.visiting) && node in state.postTraversal
    ensures ok ==> old(state.postTraversal) <= state.postTraversal && old(state.preTraversal) <= state.preTraversal
    ensures !ok ==> old(state.visiting) <= state.visiting && StackHasCycle(g, state.visiting)
    decreases Below(|g|) - state.preTraversal
  {
    hide Searched, StackHasCycle, IsPath;
    ghost var below := state.visiting;
    NotOnStack(g, state.preTraversal, below, state.postTraversal, node);
    Entered(g, state.preTraversal, below, state.postTraversal, node);
    state.visiting := state.visiting + [node];
    state.preTraversal := state.preTraversal + {node};
    for i := 0 to |g[node]|
      invariant state.Valid(g) && state.visiting == below + [node]
      invariant old(state.postTraversal) <= state.postTraversal
      invariant old(state.preTraversal) + {node} <= state.preTraversal
      invariant forall k :: 0 <= k < i ==> g[node][k] in state.postTraversal
    {
      var adjacent := g[node][i];
      assert Edge(g, node, adjacent);
      if adjacent !in state.preTraversal {
        ok := VisitNode(g, state, adjacent);
        if !ok {
          return;
        }
      } else {
        NotOnStack(g, state.preTraversal, state.visiting, state.postTraversal, adjacent);
        var found := OnStack(state.visiting, adjacent);
        if found {
          ghost var k :| 0 <= k < |state.visiting| && state.visiting[k] == adjacent;
          StackCloses(g, state.visiting, k);
          return false;
        }
      }
    }
    Left(g, state.preTraversal, below, state.postTraversal, node);
    state.postTraversal := state.postTraversal + [node];
    state.visiting := state.visiting[..|state.visiting| - 1];
    ok := true;
  }

  method VisitNodes(g: Edges, state: VisitingState) returns (ok: bool)
    requires WellFormed(g) && state.preTraversal == {} && state.visiting == [] && state.postTraversal == []
    modifies state
    ensures ok <==> Acyclic(g)
    ensures ok ==> IsOrder(g, state.postTraversal)
    ensures !ok ==> StackHasCycle(g, state.visiting)
  {
    for i := 0 to |g|
      invariant state.Valid(g) && state.visiting == []
      invariant forall u :: 0 <= u < i ==> u in state.preTraversal
    {
      if i !in state.preTraversal {
        ok := VisitNode(g, state, i);
        if !ok {
          return;
        }
      }
    }
    OrderedIsAcyclic(g, state.postTraversal);
    ok := true;
  }

  function Lower(c: char): char {
    if 'A' <= c <= 'Z' then (c as int + 32) as char else c
  }

  /** Names are compared ignoring the case of ASCII letters. */
  function Fold(name: string): string {
    seq(|name|, i requires 0 <= i < |name| => Lower(name[i]))
  }

  /** Two names are one node's exactly if they differ at most in the case of ASCII letters. */
  lemma FoldMeaning(a: string, b: string)
    ensures Fold(a) == Fold(b) <==>
            |a| == |b| && forall i :: 0 <= i < |a| ==>
              || a[i] == b[i]
              || ('A' <= a[i] <= 'Z' && b[i] as int == a[i] as int + 32)
              || ('A' <= b[i] <= 'Z' && a[i] as int == b[i] as int + 32)
  {
    if Fold(a) == Fold(b) {
      assert |Fold(a)| == |a| && |Fold(b)| == |b|;
      forall i | 0 <= i < |a|
        ensures || a[i] == b[i] || ('A' <= a[i] <= 'Z' && b[i] as int == a[i] as int + 32)
                || ('A' <= b[i] <= 'Z' && a[i] as int == b[i] as int + 32)
      {
        assert Fold(a)[i] == Lower(a[i]) && Fold(b)[i] == Lower(b[i]);
        LowerMeaning(a[i], b[i]);
      }
    } else if |a| == |b| {
      var i :| 0 <= i < |a| && Fold(a)[i] != Fold(b)[i];
      LowerMeaning(a[i], b[i]);
    }
  }

  lemma LowerMeaning(c: char, d: char)
    ensures Lower(c) == Lower(d) <==>
            || c == d || ('A' <= c <= 'Z' && d as int == c as int + 32) ||
               ('A' <= d <= 'Z' && c as int == d as int + 32)
  {
  }

  function Names<T>(id: T -> string, values: seq<T>): seq<string> {
    seq(|values|, i requires 0 <= i < |values| => Fold(id(values[i])))
  }

  /** Every name finds the first node that has it. */
  ghost predicate Named(names: seq<string>, byName: map<string, nat>) {
    && (forall name :: name in byName <==> name in names)
    && (forall name :: name in byName ==>
        byName[name] < |names| && names[byName[name]] == name && name !in names[..byName[name]])
  }

  lemma NamedNext(names: seq<string>, byName: map<string, nat>, name: string)
    requires Named(names, byName)
    ensures Named(names + [name], if name in byName then byName else byName[name := |names|])
  {
    var more := names + [name];
    forall n | n in byName ensures more[..byName[n]] == names[..byName[n]] {
    }
    assert more[..|names|] == names;
  }

  class GraphDependencyHelper<T> {
    const id: T -> string
    var values: seq<T>
    var edges: Edges
    var nodesByName: map<string, nat>

    ghost predicate Valid()
      reads this
    {
      && |edges| == |values| && WellFormed(edges)
      && (forall u :: 0 <= u < |edges| ==> Distinct(edges[u]))
      && Named(Names(id, values), nodesByName)
    }

    constructor (id: T -> string)
      ensures Valid() && this.id == id && values == [] && edges == []
    {
      this.id := id;
      values, edges, nodesByName := [], [], map[];
    }

    /** Appends a node whether or not its name is taken; a taken name keeps meaning the first node that had it. */
    method AddNodeIfNotExists(value: T)
      requires Valid()
      modifies this
      ensures Valid() && values == old(values) + [value] && edges == old(edges) + [[]]
      ensures forall name :: name in old(nodesByName) ==>
              name in nodesByName && nodesByName[name] == old(nodesByName)[name]
      ensures Fold(id(value)) in nodesByName
    {
      hide Named;
      var name := Fold(id(value));
      assert Names(id, values + [value]) == Names(id, values) + [name];
      NamedNext(Names(id, values), nodesByName, name);
      values := values + [value];
      edges := edges + [[]];
      if name !in nodesByName {
        nodesByName := nodesByName[name := |values| - 1];
      }
    }

    /** Fails, changing nothing, exactly if a name is unknown; an edge that is there already is not repeated. */
    method AddEdgeIfNotExists(from: string, to: string) returns (ok: bool)
      requires Valid()
      modifies this`edges
      ensures Valid() && |edges| == |old(edges)|
      ensures ok <==> Fold(from) in nodesByName && Fold(to) in nodesByName
      ensures !ok ==> edges == old(edges)
      ensures ok ==> forall u, v :: Edge(edges, u, v) <==>
                Edge(old(edges), u, v) || (u == nodesByName[Fold(from)] && v == nodesByName[Fold(to)])
    {
      if Fold(from) !in nodesByName {
        return false;
      }
      var source := nodesByName[Fold(from)];
      if Fold(to) !in nodesByName {
        return false;
      }
      var target := nodesByName[Fold(to)];
      if target !in edges[source] {
        edges := edges[source := edges[source] + [target]];
      }
      ok := true;
    }

    /** Fails exactly on a cyclic graph; the stack it reports then closes a cycle. */
    method DetectCycle() returns (ok: bool, stack: seq<nat>)
      requires Valid()
      ensures ok <==> Acyclic(edges)
      ensures !ok ==> StackHasCycle(edges, stack)
    {
      var state := new VisitingState();
      ok := VisitNodes(edges, state);
      stack := state.visiting;
    }

    /**
     * On success the values are appended in an order, of all the nodes, that puts every edge target
     * before its source.
     */
    method TopologicalOrder(dataValues: seq<T>) returns (ok: bool, result: seq<T>, ghost order: seq<nat>)
      requires Valid()
      ensures ok <==> Acyclic(edges)
      ensures !ok ==> result == dataValues
      ensures ok ==> IsOrder(edges, order) && |result| == |dataValues| + |order| && dataValues <= result
      ensures ok ==> forall k :: 0 <= k < |order| ==>
              order[k] < |values| && result[|dataValues| + k] == values[order[k]]
    {
      var state := new VisitingState();
      ok := VisitNodes(edges, state);
      result, order := dataValues, state.postTraversal;
      if ok {
        assert forall k :: 0 <= k < |state.postTraversal| ==> state.postTraversal[k] in state.postTraversal;
        for i := 0 to |state.postTraversal|
          invariant |result| == |dataValues| + i && dataValues <= result
          invariant forall k :: 0 <= k < i ==> result[|dataValues| + k] == values[state.postTraversal[k]]
        {
          result := result + [values[state.postTraversal[i]]];
        }
      }
    }
  }

  /** Such an order lists every node once. */
  lemma {:induction false} OrderIsPermutation(n: nat, order: seq<nat>)
    requires Distinct(order) && forall u :: u in order <==> 0 <= u < n
    ensures |order| == n && multiset(order) == multiset(Below(n))
  {
    forall u ensures multiset(order)[u] == multiset(Below(n))[u] {
      OnceEach(order, u);
    }
    BelowSize(n);
    assert multiset(order) == multiset(Below(n));
    assert |order| == |multiset(order)| == |multiset(Below(n))| == n;
  }

  lemma {:induction false} OnceEach(s: seq<nat>, u: nat)
    requires Distinct(s)
    ensures multiset(s)[u] == if u in s then 1 else 0
  {
    if s != [] {
      var front := s[..|s| - 1];
      assert s == front + [s[|s| - 1]];
      OnceEach(front, u);
    }
  }

  lemma {:induction false} BelowSize(n: nat)
    ensures |Below(n)| == n
  {
    if n > 0 {
      BelowSize(n - 1);
    }
  }
}
