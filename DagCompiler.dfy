/** The level compiler `makeDags` of cofounder/api/build.js (lines 131-186):
    a breadth-first, level-by-level variant of Kahn's topological sort that
    turns a sequence's member list and `relations.parents` into an ordered
    list of levels, or fails when some member is never reached. */
module DagCompiler {
  import opened Values

  type Id = string

  /** A sequence declaration: its `nodes` list and its `relations.parents`
      (an absent `relations` block is the empty map). */
  datatype SequenceSpec = SequenceSpec(nodes: seq<Id>, parents: map<Id, seq<Id>>)

  const CycleError: string := "The provided DAG has cycles or unresolved dependencies"

  function Elems(s: seq<Id>): set<Id> {
    set x | x in s
  }

  /** The member ids of a sequence. */
  function Members(spec: SequenceSpec): set<Id> {
    Elems(spec.nodes)
  }

  /** The parents declared for `c`; an absent or empty entry means none. */
  function Declared(spec: SequenceSpec, c: Id): seq<Id> {
    if c in spec.parents then spec.parents[c] else []
  }

  /** A resolved dependency: `p` is declared a parent of `c` and both are
      members. A declared parent that is not a member yields no edge. */
  predicate Edge(spec: SequenceSpec, p: Id, c: Id) {
    p in spec.nodes && c in spec.nodes && p in Declared(spec, c)
  }

  predicate Distinct(s: seq<Id>) {
    forall i, j :: 0 <= i < j < |s| ==> s[i] != s[j]
  }

  /** A closed walk along resolved edges (a member listed as its own parent
      is the walk `[n, n]`). */
  ghost predicate IsCycle(spec: SequenceSpec, walk: seq<Id>) {
    && |walk| >= 2
    && walk[0] == walk[|walk| - 1]
    && forall k :: 0 <= k < |walk| - 1 ==> Edge(spec, walk[k], walk[k + 1])
  }

  ghost predicate HasCycle(spec: SequenceSpec) {
    exists walk :: IsCycle(spec, walk)
  }

  // ---------------------------------------------------------------------------
  // What a compiled DAG is
  // ---------------------------------------------------------------------------

  predicate Apart(a: seq<Id>, b: seq<Id>) {
    forall n :: n in a ==> n !in b
  }

  /** Every level is a non-empty list without repetition, and no id is in two levels. */
  ghost predicate Disjoint(levels: seq<seq<Id>>) {
    && (forall i :: 0 <= i < |levels| ==> |levels[i]| > 0 && Distinct(levels[i]))
    && (forall i, j :: 0 <= i < |levels| && 0 <= j < |levels| && i != j ==> Apart(levels[i], levels[j]))
  }

  /** The ids that occur in the levels are exactly `ids`. */
  ghost predicate Covers(levels: seq<seq<Id>>, ids: set<Id>) {
    forall n :: n in ids <==> exists i :: 0 <= i < |levels| && n in levels[i]
  }

  /** Every resolved edge goes from an earlier level to a strictly later one. */
  ghost predicate EdgesForward(spec: SequenceSpec, levels: seq<seq<Id>>) {
    forall i, j, p, c ::
      0 <= i < |levels| && 0 <= j < |levels| && p in levels[i] && c in levels[j] && Edge(spec, p, c) ==> i < j
  }

  /** Every member of `cur` has a resolved parent in `prev`, and `via` names it. */
  ghost predicate FedBy(spec: SequenceSpec, prev: seq<Id>, cur: seq<Id>, via: map<Id, Id>) {
    && (forall c :: c in cur ==> c in via)
    && (forall c {:trigger via[c]} :: c in via ==> via[c] in prev && Edge(spec, via[c], c))
  }

  /** The members of level 0 have no resolved parent. */
  ghost predicate RootsFirst(spec: SequenceSpec, levels: seq<seq<Id>>) {
    |levels| > 0 ==> forall p, c :: c in levels[0] ==> !Edge(spec, p, c)
  }

  /** Each level after the first is fed by the one just before it; `vias[j]`
      names, for every member of level `j`, a parent in level `j - 1`. */
  ghost predicate TightBy(spec: SequenceSpec, levels: seq<seq<Id>>, vias: seq<map<Id, Id>>) {
    && |vias| == |levels|
    && forall i, j :: 0 <= i && j == i + 1 && j < |levels| ==> FedBy(spec, levels[i], levels[j], vias[j])
  }

  /** No member is placed later than it must be: a member of level 0 has no
      resolved parent, and a member of a later level has one in the level
      just before. */
  ghost predicate Tight(spec: SequenceSpec, levels: seq<seq<Id>>) {
    RootsFirst(spec, levels) && exists vias :: TightBy(spec, levels, vias)
  }

  /** The invariant of a compiled DAG: the levels partition the member set,
      every resolved edge points forward, and every member sits at the
      length of its longest chain of resolved parents. */
  ghost predicate IsLevelPartition(spec: SequenceSpec, levels: seq<seq<Id>>) {
    && Disjoint(levels)
    && Covers(levels, Members(spec))
    && EdgesForward(spec, levels)
    && Tight(spec, levels)
  }

  // ---------------------------------------------------------------------------
  // Counting helpers
  // ---------------------------------------------------------------------------

  /** How many entries of `ps` are members not yet visited: the in-degree the
      compiler keeps for a node whose declared parents are `ps`. */
  function Pending(ps: seq<Id>, nodes: seq<Id>, visited: set<Id>): nat {
    if |ps| == 0 then 0
    else Pending(ps[..|ps| - 1], nodes, visited) + (if ps[|ps| - 1] in nodes && ps[|ps| - 1] !in visited then 1 else 0)
  }

  lemma {:induction false} PendingZero(ps: seq<Id>, nodes: seq<Id>, visited: set<Id>)
    ensures Pending(ps, nodes, visited) == 0 <==> forall p :: p in ps && p in nodes ==> p in visited
  {
    if |ps| > 0 {
      var init := ps[..|ps| - 1];
      PendingZero(init, nodes, visited);
      assert ps == init + [ps[|ps| - 1]];
    }
  }

  /** A member that contributes to a positive in-degree is an unvisited parent. */
  lemma PendingPositive(ps: seq<Id>, nodes: seq<Id>, visited: set<Id>) returns (p: Id)
    requires Pending(ps, nodes, visited) > 0
    ensures p in ps && p in nodes && p !in visited
  {
    PendingZero(ps, nodes, visited);
    p :| p in ps && p in nodes && p !in visited;
  }

  /** Visiting a member lowers the in-degree by the number of times it is declared. */
  lemma {:induction false} PendingVisit(ps: seq<Id>, nodes: seq<Id>, visited: set<Id>, x: Id)
    requires x in nodes && x !in visited
    ensures Pending(ps, nodes, visited) == Pending(ps, nodes, visited + {x}) + multiset(ps)[x]
  {
    if |ps| > 0 {
      var init := ps[..|ps| - 1];
      PendingVisit(init, nodes, visited, x);
      assert ps == init + [ps[|ps| - 1]];
    }
  }

  lemma PendingStep(ps: seq<Id>, j: nat, nodes: seq<Id>, visited: set<Id>)
    requires j < |ps|
    ensures Pending(ps[..j + 1], nodes, visited)
         == Pending(ps[..j], nodes, visited) + (if ps[j] in nodes && ps[j] !in visited then 1 else 0)
  {
    assert ps[..j + 1][..j] == ps[..j];
  }

  /** The member ids in first-occurrence order, as `Object.keys` lists the
      object built from the `nodes` list. */
  function Dedup(s: seq<Id>): (r: seq<Id>)
    ensures Distinct(r)
    ensures Elems(r) == Elems(s)
  {
    if |s| == 0 then []
    else
      var d := Dedup(s[..|s| - 1]);
      assert Elems(s) == Elems(s[..|s| - 1]) + {s[|s| - 1]} by {
        assert s == s[..|s| - 1] + [s[|s| - 1]];
      }
      if s[|s| - 1] in d then d else d + [s[|s| - 1]]
  }

  lemma {:induction false} DistinctCard(s: seq<Id>)
    requires Distinct(s)
    ensures |Elems(s)| == |s|
  {
    if |s| > 0 {
      var init := s[..|s| - 1];
      DistinctCard(init);
      assert Elems(s) == Elems(init) + {s[|s| - 1]} by {
        assert s == init + [s[|s| - 1]];
      }
    }
  }

  lemma SubsetCard(a: set<Id>, b: set<Id>)
    requires a <= b
    ensures |a| <= |b|
    decreases a
  {
    if a != {} {
      var x :| x in a;
      SubsetCard(a - {x}, b - {x});
    }
  }

  lemma SubsetSameCard(a: set<Id>, b: set<Id>)
    requires a <= b && |a| == |b|
    ensures a == b
  {
    if a != b {
      var x :| x in b && x !in a;
      SubsetCard(a, b - {x});
    }
  }

  // ---------------------------------------------------------------------------
  // Building the in-degree and adjacency maps (build.js lines 138-169)
  // ---------------------------------------------------------------------------

  /** The adjacency map lists, for each member parent, each child once per
      time it is declared as that child's parent; nothing else. */
  ghost predicate AdjacencyOf(spec: SequenceSpec, adj: map<Id, seq<Id>>) {
    && adj.Keys == Members(spec)
    && (forall p, c :: p in adj && c in adj[p] ==> c in spec.nodes)
    && (forall p, c :: p in adj && c in spec.nodes ==> multiset(adj[p])[c] == multiset(Declared(spec, c))[p])
  }

  /** The in-degree of `c` once the members of `done`, and the first entries
      `prefix` of `node`'s parents, have been processed. */
  function DegreeSoFar(spec: SequenceSpec, done: set<Id>, node: Id, prefix: seq<Id>, c: Id): nat {
    if c in done then Pending(Declared(spec, c), spec.nodes, {})
    else if c == node then Pending(prefix, spec.nodes, {})
    else 0
  }

  /** How often `c` is listed as a child of `p` at the same point. */
  function CountSoFar(spec: SequenceSpec, done: set<Id>, node: Id, prefix: seq<Id>, p: Id, c: Id): nat {
    if c in done then multiset(Declared(spec, c))[p]
    else if c == node then multiset(prefix)[p]
    else 0
  }

  /** The in-degrees once the members of `done`, and the parents `prefix` of
      `node`, have been processed. */
  ghost predicate InDegreesSoFar(spec: SequenceSpec, done: set<Id>, node: Id, prefix: seq<Id>, inDegree: map<Id, int>) {
    && (forall c :: c in inDegree <==> c in spec.nodes)
    && (forall c :: c in inDegree ==> inDegree[c] == DegreeSoFar(spec, done, node, prefix, c))
  }

  /** The child lists at the same point. */
  ghost predicate ChildrenSoFar(spec: SequenceSpec, done: set<Id>, node: Id, prefix: seq<Id>, adj: map<Id, seq<Id>>) {
    && (forall c :: c in adj <==> c in spec.nodes)
    && (forall p, c :: p in adj && c in adj[p] ==> c in spec.nodes)
    && (forall p, c :: p in adj && c in spec.nodes ==> multiset(adj[p])[c] == CountSoFar(spec, done, node, prefix, p, c))
  }

  /** Every member starts with in-degree 0 and no children. */
  method InitGraph(spec: SequenceSpec, keys: seq<Id>) returns (inDegree: map<Id, int>, adj: map<Id, seq<Id>>)
    requires Elems(keys) == Members(spec)
    ensures InDegreesSoFar(spec, {}, "", [], inDegree)
    ensures ChildrenSoFar(spec, {}, "", [], adj)
  {
    inDegree, adj := map[], map[];
    var k := 0;
    while k < |keys|
      invariant 0 <= k <= |keys|
      invariant inDegree.Keys == Elems(keys[..k]) && adj.Keys == Elems(keys[..k])
      invariant forall n :: n in inDegree ==> inDegree[n] == 0
      invariant forall n :: n in adj ==> adj[n] == []
    {
      assert Elems(keys[..k + 1]) == Elems(keys[..k]) + {keys[k]} by {
        assert keys[..k + 1] == keys[..k] + [keys[k]];
      }
      inDegree := inDegree[keys[k] := 0];
      adj := adj[keys[k] := []];
      k := k + 1;
    }
    assert keys[..k] == keys;
  }

  /** A member parent raises `node`'s in-degree by one. */
  lemma DegreeMember(spec: SequenceSpec, done: set<Id>, node: Id, prefix: seq<Id>, parent: Id, inDegree: map<Id, int>)
    requires node in spec.nodes && node !in done && parent in spec.nodes
    requires InDegreesSoFar(spec, done, node, prefix, inDegree)
    ensures InDegreesSoFar(spec, done, node, prefix + [parent], inDegree[node := inDegree[node] + 1])
  {
    assert (prefix + [parent])[..|prefix|] == prefix;
  }

  /** A parent outside the sequence leaves the in-degrees alone. */
  lemma DegreeSkip(spec: SequenceSpec, done: set<Id>, node: Id, prefix: seq<Id>, parent: Id, inDegree: map<Id, int>)
    requires parent !in spec.nodes
    requires InDegreesSoFar(spec, done, node, prefix, inDegree)
    ensures InDegreesSoFar(spec, done, node, prefix + [parent], inDegree)
  {
    assert (prefix + [parent])[..|prefix|] == prefix;
  }

  /** A member parent gains `node` as a child. */
  lemma ChildMember(spec: SequenceSpec, done: set<Id>, node: Id, prefix: seq<Id>, parent: Id, adj: map<Id, seq<Id>>)
    requires node in spec.nodes && node !in done && parent in adj
    requires ChildrenSoFar(spec, done, node, prefix, adj)
    ensures ChildrenSoFar(spec, done, node, prefix + [parent], adj[parent := adj[parent] + [node]])
  {
    var adj' := adj[parent := adj[parent] + [node]];
    assert multiset(prefix + [parent]) == multiset(prefix) + multiset{parent};
    assert multiset(adj'[parent]) == multiset(adj[parent]) + multiset{node};
    forall p, c | p in adj' && c in spec.nodes
      ensures multiset(adj'[p])[c] == CountSoFar(spec, done, node, prefix + [parent], p, c)
    {
      assert multiset(adj[p])[c] == CountSoFar(spec, done, node, prefix, p, c);
    }
    forall p, c | p in adj' && c in adj'[p]
      ensures c in spec.nodes
    {
      if p == parent && c !in adj[p] {
        assert c == node;
      }
    }
  }

  /** A parent outside the sequence gains no child. */
  lemma ChildSkip(spec: SequenceSpec, done: set<Id>, node: Id, prefix: seq<Id>, parent: Id, adj: map<Id, seq<Id>>)
    requires parent !in adj
    requires ChildrenSoFar(spec, done, node, prefix, adj)
    ensures ChildrenSoFar(spec, done, node, prefix + [parent], adj)
  {
    assert multiset(prefix + [parent]) == multiset(prefix) + multiset{parent};
  }

  /** Moving on from `node` once all its parents are handled. */
  lemma FinishNode(spec: SequenceSpec, done: set<Id>, node: Id, next: Id, inDegree: map<Id, int>, adj: map<Id, seq<Id>>)
    requires node !in done
    requires InDegreesSoFar(spec, done, node, Declared(spec, node), inDegree)
    requires ChildrenSoFar(spec, done, node, Declared(spec, node), adj)
    ensures InDegreesSoFar(spec, done + {node}, next, [], inDegree)
    ensures ChildrenSoFar(spec, done + {node}, next, [], adj)
  {
    forall c | c in inDegree
      ensures inDegree[c] == DegreeSoFar(spec, done + {node}, next, [], c)
    {
      assert inDegree[c] == DegreeSoFar(spec, done, node, Declared(spec, node), c);
    }
    forall p, c | p in adj && c in spec.nodes
      ensures multiset(adj[p])[c] == CountSoFar(spec, done + {node}, next, [], p, c)
    {
      assert multiset(adj[p])[c] == CountSoFar(spec, done, node, Declared(spec, node), p, c);
    }
  }

  lemma SwitchNode(spec: SequenceSpec, done: set<Id>, x: Id, y: Id, inDegree: map<Id, int>, adj: map<Id, seq<Id>>)
    requires InDegreesSoFar(spec, done, x, [], inDegree)
    requires ChildrenSoFar(spec, done, x, [], adj)
    ensures InDegreesSoFar(spec, done, y, [], inDegree)
    ensures ChildrenSoFar(spec, done, y, [], adj)
  {
  }

  /** Once every member has been processed the maps are the in-degrees and
      adjacency of the sequence. */
  lemma GraphDone(spec: SequenceSpec, done: set<Id>, inDegree: map<Id, int>, adj: map<Id, seq<Id>>)
    requires done == Members(spec)
    requires InDegreesSoFar(spec, done, "", [], inDegree)
    requires ChildrenSoFar(spec, done, "", [], adj)
    ensures inDegree.Keys == Members(spec)
    ensures forall c :: c in inDegree ==> inDegree[c] == Pending(Declared(spec, c), spec.nodes, {})
    ensures AdjacencyOf(spec, adj)
  {
  }

  /** The inner loop over the declared parents of one member `node`. */
  method AddParents(spec: SequenceSpec, ghost done: set<Id>, node: Id, inDegree: map<Id, int>, adj: map<Id, seq<Id>>)
    returns (inDegree': map<Id, int>, adj': map<Id, seq<Id>>)
    requires node in spec.nodes && node !in done
    requires InDegreesSoFar(spec, done, node, [], inDegree)
    requires ChildrenSoFar(spec, done, node, [], adj)
    ensures InDegreesSoFar(spec, done, node, Declared(spec, node), inDegree')
    ensures ChildrenSoFar(spec, done, node, Declared(spec, node), adj')
  {
    inDegree', adj' := inDegree, adj;
    var ps := Declared(spec, node);
    var j := 0;
    ghost var prefix: seq<Id> := [];
    while j < |ps|
      invariant 0 <= j <= |ps| && prefix == ps[..j]
      invariant InDegreesSoFar(spec, done, node, prefix, inDegree')
      invariant ChildrenSoFar(spec, done, node, prefix, adj')
    {
      var parent := ps[j];
      if parent in adj' {
        DegreeMember(spec, done, node, prefix, parent, inDegree');
        ChildMember(spec, done, node, prefix, parent, adj');
        adj' := adj'[parent := adj'[parent] + [node]];
        inDegree' := inDegree'[node := inDegree'[node] + 1];
      } else {
        // build.js lines 159-163: a parent outside the sequence is reported and skipped
        DegreeSkip(spec, done, node, prefix, parent, inDegree');
        ChildSkip(spec, done, node, prefix, parent, adj');
      }
      assert ps[..j + 1] == prefix + [parent];
      prefix := prefix + [parent];
      j := j + 1;
    }
    assert ps[..j] == ps;
  }

  /** In a list without repetition no entry occurs before its own position. */
  lemma FreshKey(keys: seq<Id>, k: nat)
    requires Distinct(keys) && k < |keys|
    ensures keys[k] !in Elems(keys[..k])
  {
  }

  /** `inDegree` and `adjList`: every member starts at 0 and []; then for each
      member and each declared parent, a member parent gains the member as a
      child and the member's in-degree goes up by one, while a non-member
      parent is skipped and changes nothing. */
  method BuildGraph(spec: SequenceSpec) returns (keys: seq<Id>, inDegree: map<Id, int>, adj: map<Id, seq<Id>>)
    ensures keys == Dedup(spec.nodes)
    ensures inDegree.Keys == Members(spec)
    ensures forall c :: c in inDegree ==> inDegree[c] == Pending(Declared(spec, c), spec.nodes, {})
    ensures AdjacencyOf(spec, adj)
  {
    keys := Dedup(spec.nodes);
    inDegree, adj := InitGraph(spec, keys);
    var k := 0;
    while k < |keys|
      invariant 0 <= k <= |keys|
      invariant InDegreesSoFar(spec, Elems(keys[..k]), "", [], inDegree)
      invariant ChildrenSoFar(spec, Elems(keys[..k]), "", [], adj)
    {
      var node := keys[k];
      ghost var done := Elems(keys[..k]);
      assert node in Elems(keys);
      FreshKey(keys, k);
      SwitchNode(spec, done, "", node, inDegree, adj);
      inDegree, adj := AddParents(spec, done, node, inDegree, adj);
      FinishNode(spec, done, node, "", inDegree, adj);
      ElemsSnoc(keys, k);
      k := k + 1;
    }
    assert keys[..k] == keys;
    GraphDone(spec, Elems(keys), inDegree, adj);
  }

  // ---------------------------------------------------------------------------
  // Peeling off frontiers (build.js lines 170-182)
  // ---------------------------------------------------------------------------

  /** The in-degrees once the members of `visited` have been visited. */
  ghost predicate DegreesAt(spec: SequenceSpec, deg: map<Id, int>, visited: set<Id>) {
    && deg.Keys == Members(spec)
    && forall c :: c in deg ==> deg[c] == Pending(Declared(spec, c), spec.nodes, visited)
  }

  /** An unvisited member whose in-degree has dropped to zero. */
  predicate Ready(spec: SequenceSpec, visited: set<Id>, deg: map<Id, int>, c: Id) {
    c in spec.nodes && c !in visited && c in deg && deg[c] == 0
  }

  /** `queue` holds exactly the ready members. */
  ghost predicate Frontier(spec: SequenceSpec, visited: set<Id>, deg: map<Id, int>, queue: seq<Id>) {
    forall c :: c in queue <==> Ready(spec, visited, deg, c)
  }

  /** Every parent of a visited member has been visited. */
  ghost predicate Closed(spec: SequenceSpec, visited: set<Id>) {
    forall p, c :: c in visited && Edge(spec, p, c) ==> p in visited
  }

  /** How often `c` occurs in `s`. */
  function Occ(s: seq<Id>, c: Id): nat {
    if |s| == 0 then 0 else Occ(s[..|s| - 1], c) + (if s[|s| - 1] == c then 1 else 0)
  }

  lemma {:induction false} OccMultiset(s: seq<Id>, c: Id)
    ensures Occ(s, c) == multiset(s)[c]
  {
    if |s| > 0 {
      OccMultiset(s[..|s| - 1], c);
      assert s == s[..|s| - 1] + [s[|s| - 1]];
    }
  }

  lemma {:induction false} OccPrefix(s: seq<Id>, j: nat, c: Id)
    requires j <= |s|
    ensures Occ(s[..j], c) <= Occ(s, c)
    decreases |s|
  {
    if j < |s| {
      OccPrefix(s[..|s| - 1], j, c);
      assert s[..|s| - 1][..j] == s[..j];
    } else {
      assert s[..j] == s;
    }
  }

  /** `--inDegree[child] === 0` for each child in turn: the in-degrees drop by
      the number of times each child is listed, and `ready` lists, once each,
      the children that reach zero. */
  method DecrementChildren(inDegree: map<Id, int>, children: seq<Id>) returns (deg: map<Id, int>, ready: seq<Id>)
    requires forall c :: c in children ==> c in inDegree && inDegree[c] >= multiset(children)[c]
    ensures deg.Keys == inDegree.Keys
    ensures forall c :: c in deg ==> deg[c] == inDegree[c] - multiset(children)[c]
    ensures forall c :: c in ready <==> c in children && deg[c] == 0
    ensures Distinct(ready)
  {
    deg, ready := inDegree, [];
    var j := 0;
    while j < |children|
      invariant 0 <= j <= |children|
      invariant deg.Keys == inDegree.Keys
      invariant forall c :: c in deg ==> deg[c] == inDegree[c] - Occ(children[..j], c)
      invariant forall c :: c in ready <==> c in children[..j] && c in deg && deg[c] == 0
      invariant Distinct(ready)
    {
      var child := children[j];
      assert children[..j + 1][..j] == children[..j];
      assert children[..j + 1] == children[..j] + [child];
      OccPrefix(children, j + 1, child);
      OccMultiset(children, child);
      assert deg[child] >= 1;
      deg := deg[child := deg[child] - 1];
      if deg[child] == 0 {
        ready := ready + [child];
      }
      j := j + 1;
    }
    assert children[..j] == children;
    forall c | c in deg
      ensures deg[c] == inDegree[c] - multiset(children)[c]
    {
      OccMultiset(children, c);
    }
  }

  /** The facts a frontier pass starts from. */
  ghost predicate PeelReady(spec: SequenceSpec, adj: map<Id, seq<Id>>, current: seq<Id>, visited: set<Id>, inDegree: map<Id, int>) {
    && AdjacencyOf(spec, adj)
    && DegreesAt(spec, inDegree, visited)
    && Distinct(current)
    && Frontier(spec, visited, inDegree, current)
    && Closed(spec, visited)
  }

  /** A member that became ready during the pass over `current`. */
  predicate NewlyReady(spec: SequenceSpec, visited: set<Id>, current: seq<Id>, deg: map<Id, int>, c: Id) {
    c in spec.nodes && c !in visited && c !in current && c in deg && deg[c] == 0
  }

  /** The state of a frontier pass after its first `i` nodes; `via` names,
      for each node of `next`, the node of `current` that released it. */
  ghost predicate PeelSoFar(spec: SequenceSpec, current: seq<Id>, visited: set<Id>, i: nat,
                            seen: set<Id>, deg: map<Id, int>, next: seq<Id>, via: map<Id, Id>) {
    && i <= |current|
    && seen == visited + Elems(current[..i])
    && DegreesAt(spec, deg, seen)
    && (forall c :: c in next <==> NewlyReady(spec, visited, current, deg, c))
    && Distinct(next)
    && FedBy(spec, current, next, via)
  }

  /** Before node `current[i]` is visited its children may be decremented. */
  lemma PeelPrepare(spec: SequenceSpec, adj: map<Id, seq<Id>>, current: seq<Id>, visited: set<Id>, inDegree: map<Id, int>,
                    i: nat, seen: set<Id>, deg: map<Id, int>, next: seq<Id>, via: map<Id, Id>)
    requires PeelReady(spec, adj, current, visited, inDegree)
    requires PeelSoFar(spec, current, visited, i, seen, deg, next, via)
    requires i < |current|
    ensures current[i] in spec.nodes && current[i] !in seen && current[i] in adj
    ensures forall c :: c in adj[current[i]] ==> c in deg && deg[c] >= multiset(adj[current[i]])[c]
  {
    var node := current[i];
    assert node in current;
    assert Ready(spec, visited, inDegree, node);
    assert node !in current[..i];
    forall c | c in adj[node]
      ensures c in deg && deg[c] >= multiset(adj[node])[c]
    {
      PendingVisit(Declared(spec, c), spec.nodes, seen, node);
    }
  }

  /** Visiting `node` lowers each child's in-degree by the number of times
      the child lists it, which is what the new visited set demands. */
  lemma PeelDegrees(spec: SequenceSpec, adj: map<Id, seq<Id>>, seen: set<Id>, node: Id, deg: map<Id, int>, deg': map<Id, int>)
    requires AdjacencyOf(spec, adj)
    requires node in spec.nodes && node !in seen && node in adj
    requires DegreesAt(spec, deg, seen)
    requires deg'.Keys == deg.Keys
    requires forall c :: c in deg' ==> deg'[c] == deg[c] - multiset(adj[node])[c]
    ensures DegreesAt(spec, deg', seen + {node})
  {
    forall c | c in deg'
      ensures deg'[c] == Pending(Declared(spec, c), spec.nodes, seen + {node})
    {
      PendingVisit(Declared(spec, c), spec.nodes, seen, node);
    }
  }

  /** A child that becomes ready was neither visited before the pass nor part
      of the current frontier. */
  lemma ReadyIsNew(spec: SequenceSpec, adj: map<Id, seq<Id>>, current: seq<Id>, visited: set<Id>,
                   inDegree: map<Id, int>, node: Id, c: Id)
    requires AdjacencyOf(spec, adj)
    requires DegreesAt(spec, inDegree, visited)
    requires Frontier(spec, visited, inDegree, current)
    requires Closed(spec, visited)
    requires node in spec.nodes && node !in visited && node in adj
    requires c in adj[node]
    ensures c in spec.nodes && c !in visited && c !in current && Edge(spec, node, c)
  {
    assert multiset(adj[node])[c] > 0;
    assert multiset(Declared(spec, c))[node] > 0;
    assert Edge(spec, node, c);
    if c in current {
      assert Ready(spec, visited, inDegree, c);
      PendingZero(Declared(spec, c), spec.nodes, visited);
    }
  }

  /** The same for all the children a node made ready. */
  lemma ReadyAreNew(spec: SequenceSpec, adj: map<Id, seq<Id>>, current: seq<Id>, visited: set<Id>,
                    inDegree: map<Id, int>, node: Id, ready: seq<Id>)
    requires AdjacencyOf(spec, adj)
    requires DegreesAt(spec, inDegree, visited)
    requires Frontier(spec, visited, inDegree, current)
    requires Closed(spec, visited)
    requires node in spec.nodes && node !in visited && node in adj
    requires forall c :: c in ready ==> c in adj[node]
    ensures forall c :: c in ready ==> c in spec.nodes && c !in visited && c !in current && Edge(spec, node, c)
  {
    forall c | c in ready
      ensures c in spec.nodes && c !in visited && c !in current && Edge(spec, node, c)
    {
      ReadyIsNew(spec, adj, current, visited, inDegree, node, c);
    }
  }

  lemma ElemsSnoc(s: seq<Id>, i: nat)
    requires i < |s|
    ensures Elems(s[..i + 1]) == Elems(s[..i]) + {s[i]}
  {
    assert s[..i + 1] == s[..i] + [s[i]];
  }

  /** Two lists without repetition and without common ids concatenate to one. */
  lemma DistinctAppend(a: seq<Id>, b: seq<Id>)
    requires Distinct(a) && Distinct(b)
    requires forall x :: x in a ==> x !in b
    ensures Distinct(a + b)
  {
    var ab := a + b;
    forall i, j | 0 <= i < j < |ab|
      ensures ab[i] != ab[j]
    {
      if i < |a| && j >= |a| {
        assert ab[i] in a && ab[j] == b[j - |a|];
      } else if i >= |a| {
        assert ab[i] == b[i - |a|] && ab[j] == b[j - |a|];
      }
    }
  }

  /** The newly ready members after one more node: those ready before, and
      the children the node brought to zero. */
  lemma NextGrows(spec: SequenceSpec, visited: set<Id>, current: seq<Id>, deg: map<Id, int>, deg': map<Id, int>,
                  children: seq<Id>, next: seq<Id>, ready: seq<Id>)
    requires forall c :: c in next <==> NewlyReady(spec, visited, current, deg, c)
    requires deg'.Keys == deg.Keys
    requires forall c :: c in children ==> c in deg'
    requires forall c :: c in deg' ==> deg'[c] == deg[c] - multiset(children)[c] && deg'[c] >= 0
    requires forall c :: c in ready <==> c in children && deg'[c] == 0
    requires forall c :: c in ready ==> c in spec.nodes && c !in visited && c !in current
    requires Distinct(next) && Distinct(ready)
    ensures forall c :: c in next + ready <==> NewlyReady(spec, visited, current, deg', c)
    ensures Distinct(next + ready)
  {
    forall c | c in next
      ensures c !in ready
    {
      assert NewlyReady(spec, visited, current, deg, c);
    }
    DistinctAppend(next, ready);
    forall c | NewlyReady(spec, visited, current, deg', c)
      ensures c in next + ready
    {
      if deg[c] != 0 {
        assert c in children;
      } else {
        assert NewlyReady(spec, visited, current, deg, c);
      }
    }
    forall c | c in next + ready
      ensures NewlyReady(spec, visited, current, deg', c)
    {
      if c in next {
        assert NewlyReady(spec, visited, current, deg, c);
      }
    }
  }

  /** `via` with `node` recorded as the releaser of each member of `ready`. */
  function Record(via: map<Id, Id>, ready: seq<Id>, node: Id): (r: map<Id, Id>)
    ensures r.Keys == via.Keys + Elems(ready)
    ensures forall c :: c in ready ==> r[c] == node
    ensures forall c :: c in via && c !in ready ==> r[c] == via[c]
  {
    via + map c | c in ready :: node
  }

  /** Recording `node` as the releaser of the children it made ready keeps
      every recorded parent a resolved parent inside `current`. */
  lemma ViaGrows(spec: SequenceSpec, current: seq<Id>, next: seq<Id>, via: map<Id, Id>, node: Id, ready: seq<Id>)
    requires FedBy(spec, current, next, via)
    requires node in current
    requires forall c :: c in ready ==> Edge(spec, node, c)
    ensures FedBy(spec, current, next + ready, Record(via, ready, node))
  {
    var via' := Record(via, ready, node);
    forall c | c in via'
      ensures via'[c] in current && Edge(spec, via'[c], c)
    {
      if c in ready {
        assert via'[c] == node;
      } else {
        assert via'[c] == via[c];
      }
    }
  }

  /** Visiting node `current[i]` keeps the pass's state. */
  lemma PeelStep(spec: SequenceSpec, adj: map<Id, seq<Id>>, current: seq<Id>, visited: set<Id>, inDegree: map<Id, int>,
                 i: nat, seen: set<Id>, deg: map<Id, int>, next: seq<Id>, via: map<Id, Id>,
                 deg': map<Id, int>, ready: seq<Id>)
    requires AdjacencyOf(spec, adj)
    requires DegreesAt(spec, inDegree, visited)
    requires Frontier(spec, visited, inDegree, current)
    requires Closed(spec, visited)
    requires PeelSoFar(spec, current, visited, i, seen, deg, next, via)
    requires i < |current| && current[i] in spec.nodes && current[i] !in seen && current[i] in adj
    requires deg'.Keys == deg.Keys
    requires forall c :: c in deg' ==> deg'[c] == deg[c] - multiset(adj[current[i]])[c]
    requires forall c :: c in ready <==> c in adj[current[i]] && deg'[c] == 0
    requires Distinct(ready)
    ensures PeelSoFar(spec, current, visited, i + 1, seen + {current[i]}, deg', next + ready,
                      Record(via, ready, current[i]))
  {
    var node := current[i];
    PeelDegrees(spec, adj, seen, node, deg, deg');
    ReadyAreNew(spec, adj, current, visited, inDegree, node, ready);
    NextGrows(spec, visited, current, deg, deg', adj[node], next, ready);
    ViaGrows(spec, current, next, via, node, ready);
    ElemsSnoc(current, i);
  }

  /** One pass of the `while (queue.length)` loop: every node of `current` is
      visited and its children's in-degrees drop; the children that reach zero
      form the next frontier. */
  method PeelLevel(spec: SequenceSpec, adj: map<Id, seq<Id>>, current: seq<Id>, visited: set<Id>, inDegree: map<Id, int>)
    returns (seen: set<Id>, deg: map<Id, int>, next: seq<Id>, ghost via: map<Id, Id>)
    requires PeelReady(spec, adj, current, visited, inDegree)
    ensures PeelSoFar(spec, current, visited, |current|, seen, deg, next, via)
  {
    seen, deg, next, via := visited, inDegree, [], map[];
    var i := 0;
    assert current[..0] == [];
    forall c | NewlyReady(spec, visited, current, deg, c)
      ensures false
    {
      assert Ready(spec, visited, inDegree, c);
    }
    while i < |current|
      invariant PeelSoFar(spec, current, visited, i, seen, deg, next, via)
    {
      var node := current[i];
      PeelPrepare(spec, adj, current, visited, inDegree, i, seen, deg, next, via);
      var deg', ready := DecrementChildren(deg, adj[node]);
      PeelStep(spec, adj, current, visited, inDegree, i, seen, deg, next, via, deg', ready);
      next := next + ready;
      via := Record(via, ready, node);
      seen := seen + {node};
      deg := deg';
      i := i + 1;
    }
  }

  lemma AppendDisjoint(levels: seq<seq<Id>>, visited: set<Id>, current: seq<Id>)
    requires Disjoint(levels) && Covers(levels, visited)
    requires |current| > 0 && Distinct(current)
    requires forall c :: c in current ==> c !in visited
    ensures Disjoint(levels + [current])
  {
    var ls := levels + [current];
    var L := |levels|;
    assert forall i :: 0 <= i < L ==> ls[i] == levels[i];
    assert ls[L] == current;
    forall i, j | 0 <= i < |ls| && 0 <= j < |ls| && i != j
      ensures Apart(ls[i], ls[j])
    {
      if i < L && j < L {
        assert Apart(levels[i], levels[j]);
      }
    }
  }

  lemma AppendCovers(levels: seq<seq<Id>>, visited: set<Id>, current: seq<Id>)
    requires Covers(levels, visited)
    ensures Covers(levels + [current], visited + Elems(current))
  {
    var ls := levels + [current];
    var L := |levels|;
    assert forall i :: 0 <= i < L ==> ls[i] == levels[i];
    assert ls[L] == current;
    forall n | n in visited + Elems(current)
      ensures exists i :: 0 <= i < |ls| && n in ls[i]
    {
      if n in visited {
        var i :| 0 <= i < L && n in levels[i];
        assert n in ls[i];
      } else {
        assert n in ls[L];
      }
    }
  }

  lemma AppendForward(spec: SequenceSpec, levels: seq<seq<Id>>, visited: set<Id>, current: seq<Id>)
    requires Covers(levels, visited) && EdgesForward(spec, levels)
    requires forall c :: c in current ==> c !in visited
    requires forall p, c :: c in current && Edge(spec, p, c) ==> p in visited
    requires Closed(spec, visited)
    ensures EdgesForward(spec, levels + [current])
  {
    var ls := levels + [current];
    var L := |levels|;
    assert forall i :: 0 <= i < L ==> ls[i] == levels[i];
    assert ls[L] == current;
    forall i, j, p, c | 0 <= i < |ls| && 0 <= j < |ls| && p in ls[i] && c in ls[j] && Edge(spec, p, c)
      ensures i < j
    {
      if j < L {
        assert c in visited;
      }
    }
  }

  lemma AppendTight(spec: SequenceSpec, levels: seq<seq<Id>>, vias: seq<map<Id, Id>>, visited: set<Id>,
                    current: seq<Id>, via: map<Id, Id>)
    requires RootsFirst(spec, levels) && TightBy(spec, levels, vias)
    requires |levels| == 0 ==> visited == {}
    requires forall p, c :: c in current && Edge(spec, p, c) ==> p in visited
    requires |levels| > 0 ==> FedBy(spec, levels[|levels| - 1], current, via)
    ensures RootsFirst(spec, levels + [current]) && TightBy(spec, levels + [current], vias + [via])
  {
    var ls := levels + [current];
    var L := |levels|;
    assert forall i :: 0 <= i < L ==> ls[i] == levels[i];
    assert ls[L] == current;
    var vs := vias + [via];
    forall i, j | 0 <= i && j == i + 1 && j < |ls|
      ensures FedBy(spec, ls[i], ls[j], vs[j])
    {
      if j < L {
        assert FedBy(spec, levels[i], levels[j], vias[j]);
      } else {
        assert ls[i] == levels[L - 1];
      }
    }
  }

  /** After a frontier is appended as a level, the compiled levels still
      partition what has been visited, edges still point forward, and the
      levels stay tight. */
  lemma AppendLevel(spec: SequenceSpec, levels: seq<seq<Id>>, vias: seq<map<Id, Id>>, visited: set<Id>,
                    current: seq<Id>, via: map<Id, Id>)
    requires Disjoint(levels) && Covers(levels, visited) && EdgesForward(spec, levels)
    requires RootsFirst(spec, levels) && TightBy(spec, levels, vias)
    requires |levels| == 0 ==> visited == {}
    requires |current| > 0 && Distinct(current)
    requires forall c :: c in current ==> c in spec.nodes && c !in visited
    requires forall p, c :: c in current && Edge(spec, p, c) ==> p in visited
    requires Closed(spec, visited)
    requires |levels| > 0 ==> FedBy(spec, levels[|levels| - 1], current, via)
    ensures Disjoint(levels + [current])
    ensures Covers(levels + [current], visited + Elems(current))
    ensures EdgesForward(spec, levels + [current])
    ensures RootsFirst(spec, levels + [current]) && TightBy(spec, levels + [current], vias + [via])
  {
    AppendDisjoint(levels, visited, current);
    AppendCovers(levels, visited, current);
    AppendForward(spec, levels, visited, current);
    AppendTight(spec, levels, vias, visited, current, via);
  }

  /** The invariant of the frontier loop; `via` names, for each node of the
      queue, a parent in the last level. */
  ghost predicate KahnInv(spec: SequenceSpec, levels: seq<seq<Id>>, vias: seq<map<Id, Id>>, visited: set<Id>,
                          deg: map<Id, int>, queue: seq<Id>, via: map<Id, Id>) {
    && visited <= Members(spec)
    && DegreesAt(spec, deg, visited)
    && Frontier(spec, visited, deg, queue)
    && Distinct(queue)
    && Closed(spec, visited)
    && Disjoint(levels) && Covers(levels, visited)
    && EdgesForward(spec, levels) && RootsFirst(spec, levels) && TightBy(spec, levels, vias)
    && (|levels| == 0 ==> visited == {})
    && (|levels| > 0 ==> FedBy(spec, levels[|levels| - 1], queue, via))
  }

  /** The members of a frontier are unvisited members whose member parents
      have all been visited. */
  lemma QueueReady(spec: SequenceSpec, visited: set<Id>, deg: map<Id, int>, queue: seq<Id>)
    requires DegreesAt(spec, deg, visited)
    requires Frontier(spec, visited, deg, queue)
    ensures forall c :: c in queue ==> c in spec.nodes && c !in visited
    ensures forall p, c :: c in queue && Edge(spec, p, c) ==> p in visited
  {
    forall c | c in queue
      ensures c in spec.nodes && c !in visited
      ensures forall p :: Edge(spec, p, c) ==> p in visited
    {
      assert Ready(spec, visited, deg, c);
      PendingZero(Declared(spec, c), spec.nodes, visited);
    }
  }

  /** Visiting a frontier whose parents were all visited keeps the visited set closed. */
  lemma ClosedGrows(spec: SequenceSpec, visited: set<Id>, queue: seq<Id>)
    requires Closed(spec, visited)
    requires forall p, c :: c in queue && Edge(spec, p, c) ==> p in visited
    ensures Closed(spec, visited + Elems(queue))
  {
  }

  /** The members that became ready during a pass are the frontier of the
      enlarged visited set. */
  lemma NextFrontier(spec: SequenceSpec, visited: set<Id>, queue: seq<Id>, seen: set<Id>, deg: map<Id, int>, next: seq<Id>)
    requires seen == visited + Elems(queue)
    requires forall c :: c in next <==> NewlyReady(spec, visited, queue, deg, c)
    ensures Frontier(spec, seen, deg, next)
  {
    forall c
      ensures c in next <==> Ready(spec, seen, deg, c)
    {
      assert c in next <==> NewlyReady(spec, visited, queue, deg, c);
    }
  }

  /** A frontier pass followed by appending the frontier as a level keeps the
      loop invariant and visits at least one more member. */
  lemma KahnStep(spec: SequenceSpec, levels: seq<seq<Id>>, vias: seq<map<Id, Id>>,
                 visited: set<Id>, deg: map<Id, int>, queue: seq<Id>, via: map<Id, Id>,
                 seen: set<Id>, deg': map<Id, int>, next: seq<Id>, via': map<Id, Id>)
    requires KahnInv(spec, levels, vias, visited, deg, queue, via)
    requires |queue| > 0
    requires PeelSoFar(spec, queue, visited, |queue|, seen, deg', next, via')
    ensures KahnInv(spec, levels + [queue], vias + [via], seen, deg', next, via')
    ensures visited < seen <= Members(spec)
  {
    assert queue[..|queue|] == queue;
    QueueReady(spec, visited, deg, queue);
    ClosedGrows(spec, visited, queue);
    AppendLevel(spec, levels, vias, visited, queue, via);
    assert queue[0] in seen - visited;
    NextFrontier(spec, visited, queue, seen, deg', next);
    assert (levels + [queue])[|levels|] == queue;
  }

  /** The frontier loop. On exit the levels partition the visited members,
      edges point forward, levels are tight, and every member left unvisited
      still waits for an unvisited member parent. */
  method Kahn(spec: SequenceSpec, keys: seq<Id>, inDegree: map<Id, int>, adj: map<Id, seq<Id>>)
    returns (levels: seq<seq<Id>>, visited: set<Id>)
    requires Distinct(keys) && Elems(keys) == Members(spec)
    requires DegreesAt(spec, inDegree, {})
    requires AdjacencyOf(spec, adj)
    ensures visited <= Members(spec)
    ensures Disjoint(levels) && Covers(levels, visited)
    ensures EdgesForward(spec, levels) && Tight(spec, levels)
    ensures forall c :: c in spec.nodes && c !in visited ==> Pending(Declared(spec, c), spec.nodes, visited) > 0
  {
    var deg := inDegree;
    // `Object.keys(inDegree).filter((node) => inDegree[node] === 0)`
    var queue := ZeroDegree(keys, deg);
    levels, visited := [], {};
    ghost var vias: seq<map<Id, Id>> := [];
    ghost var via: map<Id, Id> := map[];
    forall c
      ensures c in queue <==> Ready(spec, visited, deg, c)
    {
    }
    while |queue| > 0
      invariant KahnInv(spec, levels, vias, visited, deg, queue, via)
      decreases Members(spec) - visited
    {
      var seen, deg', next, via' := PeelLevel(spec, adj, queue, visited, deg);
      KahnStep(spec, levels, vias, visited, deg, queue, via, seen, deg', next, via');
      levels, vias := levels + [queue], vias + [via];
      visited, deg, queue, via := seen, deg', next, via';
    }
    forall c | c in spec.nodes && c !in visited
      ensures Pending(Declared(spec, c), spec.nodes, visited) > 0
    {
      assert !Ready(spec, visited, deg, c);
    }
  }

  /** The members of `keys`, in order, whose in-degree is zero. */
  function ZeroDegree(keys: seq<Id>, deg: map<Id, int>): (r: seq<Id>)
    requires forall x :: x in keys ==> x in deg
    requires Distinct(keys)
    ensures forall c :: c in r <==> c in keys && deg[c] == 0
    ensures Distinct(r)
  {
    if |keys| == 0 then []
    else
      var rest := ZeroDegree(keys[1..], deg);
      assert keys[0] !in keys[1..];
      if deg[keys[0]] == 0 then [keys[0]] + rest else rest
  }

  // ---------------------------------------------------------------------------
  // Cycles
  // ---------------------------------------------------------------------------

  /** An unvisited member parent of a member whose in-degree is still positive. */
  ghost function BlockingParent(spec: SequenceSpec, visited: set<Id>, c: Id): (p: Id)
    requires c in spec.nodes && Pending(Declared(spec, c), spec.nodes, visited) > 0
    ensures Edge(spec, p, c) && p !in visited
  {
    PendingZero(Declared(spec, c), spec.nodes, visited);
    var p :| p in Declared(spec, c) && p in spec.nodes && p !in visited; p
  }

  /** Closing a walk at the first repeat: if the walk's head has a parent `p`
      that already occurs on the walk at `k`, the walk from `p` to `p` is a cycle. */
  lemma CloseWalk(spec: SequenceSpec, walk: seq<Id>, p: Id, k: nat)
    requires k < |walk| && walk[k] == p && Edge(spec, p, walk[0])
    requires forall m :: 0 <= m < |walk| - 1 ==> Edge(spec, walk[m], walk[m + 1])
    ensures IsCycle(spec, [p] + walk[..k + 1])
  {
    var cycle := [p] + walk[..k + 1];
    forall m | 0 <= m < |cycle| - 1
      ensures Edge(spec, cycle[m], cycle[m + 1])
    {
      if m > 0 {
        assert cycle[m] == walk[m - 1] && cycle[m + 1] == walk[m];
      }
    }
  }

  /** Walking back from blocked member to unvisited parent must repeat a
      member, because there are only finitely many. */
  lemma {:induction false} CycleFromBlocked(spec: SequenceSpec, visited: set<Id>, walk: seq<Id>)
    requires forall c :: c in spec.nodes && c !in visited ==> Pending(Declared(spec, c), spec.nodes, visited) > 0
    requires |walk| > 0 && Distinct(walk)
    requires forall k :: 0 <= k < |walk| ==> walk[k] in spec.nodes && walk[k] !in visited
    requires forall k :: 0 <= k < |walk| - 1 ==> Edge(spec, walk[k], walk[k + 1])
    ensures HasCycle(spec)
    decreases Members(spec) - visited - Elems(walk)
  {
    var p := BlockingParent(spec, visited, walk[0]);
    if p in walk {
      var k :| 0 <= k < |walk| && walk[k] == p;
      CloseWalk(spec, walk, p, k);
    } else {
      var walk' := [p] + walk;
      assert Elems(walk') == Elems(walk) + {p} by {
        assert forall x :: x in walk' <==> x == p || x in walk;
      }
      forall k | 0 <= k < |walk'| - 1
        ensures Edge(spec, walk'[k], walk'[k + 1])
      {
        if k > 0 {
          assert walk'[k] == walk[k - 1] && walk'[k + 1] == walk[k];
        }
      }
      CycleFromBlocked(spec, visited, walk');
    }
  }

  /** The index of the level that holds `n`. */
  ghost function LevelIndex(levels: seq<seq<Id>>, ids: set<Id>, n: Id): (i: nat)
    requires Covers(levels, ids) && n in ids
    ensures i < |levels| && n in levels[i]
  {
    var i :| 0 <= i < |levels| && n in levels[i]; i
  }

  /** Along a walk of resolved edges the level index grows by at least one per step. */
  lemma {:induction false} WalkClimbs(spec: SequenceSpec, levels: seq<seq<Id>>, walk: seq<Id>, k: nat)
    requires Covers(levels, Members(spec)) && EdgesForward(spec, levels)
    requires |walk| >= 2 && k < |walk|
    requires forall m :: 0 <= m < |walk| - 1 ==> Edge(spec, walk[m], walk[m + 1])
    ensures walk[0] in Members(spec) && walk[k] in Members(spec)
    ensures LevelIndex(levels, Members(spec), walk[k]) >= LevelIndex(levels, Members(spec), walk[0]) + k
  {
    assert Edge(spec, walk[0], walk[1]);
    if k > 0 {
      WalkClimbs(spec, levels, walk, k - 1);
      assert Edge(spec, walk[k - 1], walk[k]);
    }
  }

  /** When the levels cover all members and edges point forward, there is no
      cycle: along a walk the level index only grows. */
  lemma NoCycleInLevels(spec: SequenceSpec, levels: seq<seq<Id>>)
    requires Covers(levels, Members(spec)) && EdgesForward(spec, levels)
    ensures !HasCycle(spec)
  {
    if walk :| IsCycle(spec, walk) {
      WalkClimbs(spec, levels, walk, |walk| - 1);
    }
  }

  /** In levels that share no id, the level found for `n` is the one it is in. */
  lemma LevelIndexAt(levels: seq<seq<Id>>, ids: set<Id>, n: Id, i: nat)
    requires Disjoint(levels) && Covers(levels, ids)
    requires i < |levels| && n in levels[i]
    ensures n in ids && LevelIndex(levels, ids, n) == i
  {
  }

  /** A member's level in tight levels is a lower bound for its level in any
      levels whose edges point forward: it is the length of its longest chain
      of resolved parents. */
  lemma {:induction false} LevelAtLeast(spec: SequenceSpec, l1: seq<seq<Id>>, l2: seq<seq<Id>>, n: Id, k: nat)
    requires IsLevelPartition(spec, l1)
    requires Disjoint(l2) && Covers(l2, Members(spec)) && EdgesForward(spec, l2)
    requires n in Members(spec) && k == LevelIndex(l1, Members(spec), n)
    ensures LevelIndex(l2, Members(spec), n) >= k
    decreases k
  {
    if k > 0 {
      var vias :| TightBy(spec, l1, vias);
      assert FedBy(spec, l1[k - 1], l1[k], vias[k]);
      var p := vias[k][n];
      LevelIndexAt(l1, Members(spec), p, k - 1);
      LevelAtLeast(spec, l1, l2, p, k - 1);
      var i2, j2 := LevelIndex(l2, Members(spec), p), LevelIndex(l2, Members(spec), n);
      assert p in l2[i2] && n in l2[j2] && Edge(spec, p, n);
    }
  }

  /** The levels of a compiled sequence are determined by the sequence: any two
      level lists meeting the invariant have the same number of levels and
      the same members in each level; only the order inside a level can differ. */
  lemma LevelsUnique(spec: SequenceSpec, l1: seq<seq<Id>>, l2: seq<seq<Id>>)
    requires IsLevelPartition(spec, l1) && IsLevelPartition(spec, l2)
    ensures |l1| == |l2|
    ensures forall i :: 0 <= i < |l1| ==> Elems(l1[i]) == Elems(l2[i])
  {
    var m := Members(spec);
    forall n | n in m
      ensures LevelIndex(l1, m, n) == LevelIndex(l2, m, n)
    {
      LevelAtLeast(spec, l1, l2, n, LevelIndex(l1, m, n));
      LevelAtLeast(spec, l2, l1, n, LevelIndex(l2, m, n));
    }
    if |l1| > 0 {
      LevelIndexAt(l1, m, l1[|l1| - 1][0], |l1| - 1);
    }
    if |l2| > 0 {
      LevelIndexAt(l2, m, l2[|l2| - 1][0], |l2| - 1);
    }
    forall i | 0 <= i < |l1|
      ensures Elems(l1[i]) == Elems(l2[i])
    {
      forall n | n in l1[i]
        ensures n in l2[i]
      {
        LevelIndexAt(l1, m, n, i);
      }
      forall n | n in l2[i]
        ensures n in l1[i]
      {
        LevelIndexAt(l2, m, n, i);
      }
    }
  }

  // ---------------------------------------------------------------------------
  // The compiler
  // ---------------------------------------------------------------------------

  /** `makeDags` for one sequence. It fails exactly when the resolved edges
      contain a cycle (a member listed as its own parent included); otherwise
      the levels partition the members, every resolved edge points to a
      strictly later level, and each member sits right after its latest parent. */
  method CompileDag(spec: SequenceSpec) returns (r: Result<seq<seq<Id>>>)
    ensures r.Ok? ==> IsLevelPartition(spec, r.value)
    ensures r.Err? <==> HasCycle(spec)
    ensures r.Err? ==> r.error == CycleError
  {
    var keys, inDegree, adj := BuildGraph(spec);
    var levels, visited := Kahn(spec, keys, inDegree, adj);
    DistinctCard(keys);
    if |visited| != |keys| {
      assert visited != Members(spec);
      var c := Unvisited(Members(spec), visited);
      CycleFromBlocked(spec, visited, [c]);
      r := Err(CycleError);
    } else {
      SubsetSameCard(visited, Members(spec));
      NoCycleInLevels(spec, levels);
      r := Ok(levels);
    }
  }

  /** Some element of `b` outside its proper subset `a`. */
  ghost function Unvisited(b: set<Id>, a: set<Id>): (x: Id)
    requires a <= b && a != b
    ensures x in b && x !in a
  {
    assert !(b <= a);
    var x :| x in b && x !in a; x
  }

  /** A member declared as its own parent makes compilation fail. */
  lemma SelfParentIsCycle(spec: SequenceSpec, n: Id)
    requires n in spec.nodes && n in Declared(spec, n)
    ensures HasCycle(spec)
  {
    assert IsCycle(spec, [n, n]);
  }

  /** Two roots and a child of both. */
  const JoinSpec := SequenceSpec(["A", "B", "C"], map["C" := ["A", "B"]])

  /** The only resolved edges of `JoinSpec` lead from a root to the child. */
  lemma JoinEdgesForward()
    ensures EdgesForward(JoinSpec, [["A", "B"], ["C"]])
  {
    var levels := [["A", "B"], ["C"]];
    forall p, c | Edge(JoinSpec, p, c)
      ensures c == "C" && (p == "A" || p == "B")
    {
    }
    forall i, j, p, c | 0 <= i < 2 && 0 <= j < 2 && p in levels[i] && c in levels[j] && Edge(JoinSpec, p, c)
      ensures i < j
    {
      assert c in levels[1] && p in levels[0];
    }
  }

  lemma JoinCovers()
    ensures Covers([["A", "B"], ["C"]], Members(JoinSpec))
  {
    var expected := [["A", "B"], ["C"]];
    forall n | n in Members(JoinSpec)
      ensures n in expected[0] || n in expected[1]
    {
    }
  }

  lemma JoinTight()
    ensures Tight(JoinSpec, [["A", "B"], ["C"]])
  {
    var spec, expected := JoinSpec, [["A", "B"], ["C"]];
    assert Edge(spec, "A", "C");
    assert FedBy(spec, expected[0], expected[1], map["C" := "A"]);
    assert TightBy(spec, expected, [map[], map["C" := "A"]]);
  }

  /** The roots of `JoinSpec` followed by its child meet the invariant. */
  lemma JoinLevels()
    ensures IsLevelPartition(JoinSpec, [["A", "B"], ["C"]])
  {
    assert Disjoint([["A", "B"], ["C"]]);
    JoinCovers();
    JoinEdgesForward();
    JoinTight();
  }

  /** Whatever levels meet the invariant for `JoinSpec`, the roots form the
      first level and the child the second. */
  lemma JoinExample(levels: seq<seq<Id>>)
    requires IsLevelPartition(JoinSpec, levels)
    ensures |levels| == 2 && Elems(levels[0]) == {"A", "B"} && Elems(levels[1]) == {"C"}
  {
    var expected := [["A", "B"], ["C"]];
    JoinLevels();
    LevelsUnique(JoinSpec, expected, levels);
    assert Elems(expected[0]) == {"A", "B"} && Elems(expected[1]) == {"C"};
  }

  /** A declared parent that is not a member is skipped, not an error: the
      sequence compiles to a single level. */
  lemma UnknownParentExample(levels: seq<seq<Id>>)
    requires IsLevelPartition(SequenceSpec(["A", "B"], map["B" := ["Z"]]), levels)
    ensures |levels| == 1 && Elems(levels[0]) == {"A", "B"}
  {
    var spec := SequenceSpec(["A", "B"], map["B" := ["Z"]]);
    var expected := [["A", "B"]];
    forall p, c | Edge(spec, p, c)
      ensures false
    {
    }
    assert Covers(expected, Members(spec)) by {
      forall n | n in Members(spec)
        ensures n in expected[0]
      {
      }
    }
    assert TightBy(spec, expected, [map[]]);
    LevelsUnique(spec, expected, levels);
  }

  /** Two members that name each other as parents make compilation fail. */
  lemma MutualParentsAreCycle()
    ensures HasCycle(SequenceSpec(["A", "B"], map["A" := ["B"], "B" := ["A"]]))
  {
    var spec := SequenceSpec(["A", "B"], map["A" := ["B"], "B" := ["A"]]);
    assert Edge(spec, "A", "B") && Edge(spec, "B", "A");
    assert IsCycle(spec, ["A", "B", "A"]);
  }
}
