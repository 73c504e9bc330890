/** Topic candidates: the connected components of the mutual top-k neighbour graph
    (internal/topic/topic.go). */
module Topic {
  import opened Sorting
  import opened Text

  datatype Neighbor = Neighbor(issueID: int, neighborID: int, rank: int, similarity: real)

  datatype Candidate = Candidate(projectID: int, members: seq<int>, algorithmVersion: string)

  datatype Error = ErrInvalid

  type Edge = (int, int)

  predicate ValidRequest(projectID: int, k: int, version: string) {
    projectID > 0 && 1 <= k <= 100 && !Blank(version)
  }

  predicate ValidNeighbor(n: Neighbor, k: int) {
    && n.issueID > 0 && n.neighborID > 0 && n.issueID != n.neighborID
    && 1 <= n.rank <= k && 0.0 <= n.similarity <= 1.0
  }

  // ----- what the candidates mean -----

  /** The directed graph that a neighbour list draws; order and repetition are already forgotten. */
  function Directed(neighbors: seq<Neighbor>): (d: set<Edge>) {
    set n | n in neighbors :: (n.issueID, n.neighborID)
  }

  predicate Mutual(d: set<Edge>, a: int, b: int) { (a, b) in d && (b, a) in d }

  ghost predicate Linked(d: set<Edge>, p: seq<int>, i: int)
    requires 0 <= i < |p| - 1
  {
    Mutual(d, p[i], p[i + 1])
  }

  ghost predicate IsPath(d: set<Edge>, p: seq<int>) {
    p != [] && forall i :: 0 <= i < |p| - 1 ==> Linked(d, p, i)
  }

  ghost predicate Connected(d: set<Edge>, a: int, b: int) {
    exists p :: IsPath(d, p) && p[0] == a && p[|p| - 1] == b
  }

  predicate Ascending(s: seq<int>) { forall i, j :: 0 <= i < j < |s| ==> s[i] < s[j] }

  /** Strictly ascending, at least two issues, and exactly one connection class. */
  ghost predicate IsComponent(d: set<Edge>, members: seq<int>) {
    && |members| >= 2
    && Ascending(members)
    && forall x, y :: x in members ==> (y in members <==> Connected(d, x, y))
  }

  /** The lists are the components of size at least two, all of them, in ascending order. */
  ghost predicate AreComponents(d: set<Edge>, groups: seq<seq<int>>) {
    && (forall g :: g in groups ==> IsComponent(d, g))
    && (forall a, b :: Mutual(d, a, b) && a != b ==> exists g :: g in groups && a in g)
    && (forall i, j :: 0 <= i < j < |groups| ==> Compare(groups[i], groups[j]) < 0)
  }

  ghost predicate Loopless(d: set<Edge>) { forall a :: (a, a) !in d }

  function Groups(values: seq<Candidate>): (g: seq<seq<int>>)
    ensures |g| == |values|
  {
    seq(|values|, i requires 0 <= i < |values| => values[i].members)
  }

  // ----- compareMembers -----

  /** Lexicographic comparison: -1, 0 or 1. */
  function Compare(left: seq<int>, right: seq<int>): (r: int) {
    if left == [] then (if right == [] then 0 else -1)
    else if right == [] then 1
    else if left[0] < right[0] then -1
    else if left[0] > right[0] then 1
    else Compare(left[1..], right[1..])
  }

  /** The first list precedes the second: they agree up to a place where the first ends or has the smaller member. */
  predicate Precedes(left: seq<int>, right: seq<int>, n: nat) {
    && n <= |left| && n <= |right| && left[..n] == right[..n]
    && ((n == |left| && n < |right|) || (n < |left| && n < |right| && left[n] < right[n]))
  }

  method CompareMembers(left: seq<int>, right: seq<int>) returns (r: int)
    ensures r == Compare(left, right) && -1 <= r <= 1
    ensures r < 0 <==> exists n: nat :: Precedes(left, right, n)
    ensures r > 0 <==> exists n: nat :: Precedes(right, left, n)
  {
    CompareIs(left, right);
    var shorter := if |left| < |right| then |left| else |right|;
    for index := 0 to shorter
      invariant Compare(left, right) == Compare(left[index..], right[index..])
    {
      if left[index] < right[index] { return -1; }
      if left[index] > right[index] { return 1; }
      assert left[index..][1..] == left[index + 1..] && right[index..][1..] == right[index + 1..];
    }
    if |left| < |right| { return -1; }
    if |left| > |right| { return 1; }
    return 0;
  }

  /** Comparison is lexicographic, smaller members and shorter lists first. */
  lemma {:induction false} CompareIs(a: seq<int>, b: seq<int>)
    ensures -1 <= Compare(a, b) <= 1
    ensures Compare(a, b) < 0 <==> exists n: nat :: Precedes(a, b, n)
    ensures Compare(a, b) > 0 <==> exists n: nat :: Precedes(b, a, n)
  {
    if a == [] || b == [] || a[0] != b[0] {
      assert Precedes(a, b, 0) || Precedes(b, a, 0) || a == b;
      DifferAtOnce(a, b);
    } else {
      CompareIs(a[1..], b[1..]);
      PrecedesTail(a, b);
      PrecedesTail(b, a);
    }
  }

  lemma PrecedesTail(a: seq<int>, b: seq<int>)
    requires a != [] && b != [] && a[0] == b[0]
    ensures (exists n: nat :: Precedes(a, b, n)) <==> exists n: nat :: Precedes(a[1..], b[1..], n)
  {
    if exists n: nat :: Precedes(a, b, n) {
      var n: nat :| Precedes(a, b, n);
      assert n > 0 && a[1..][..n - 1] == a[..n][1..] && b[1..][..n - 1] == b[..n][1..];
      assert Precedes(a[1..], b[1..], n - 1);
    }
    if exists n: nat :: Precedes(a[1..], b[1..], n) {
      var n: nat :| Precedes(a[1..], b[1..], n);
      assert a[..n + 1] == [a[0]] + a[1..][..n] && b[..n + 1] == [b[0]] + b[1..][..n];
      assert Precedes(a, b, n + 1);
    }
  }

  lemma DifferAtOnce(a: seq<int>, b: seq<int>)
    requires a == [] || b == [] || a[0] != b[0]
    ensures forall n: nat :: Precedes(a, b, n) || Precedes(b, a, n) ==> n == 0
  {
    hide Precedes;
    forall n: nat | Precedes(a, b, n) || Precedes(b, a, n) ensures n == 0 {
      if n > 0 { FirstShared(a, b, n); }
    }
  }

  lemma FirstShared(a: seq<int>, b: seq<int>, n: nat)
    requires (Precedes(a, b, n) || Precedes(b, a, n)) && n > 0
    ensures a != [] && b != [] && a[0] == b[0]
  {
    assert a[..n][0] == b[..n][0];
  }

  /** Comparison is antisymmetric, transitive, and equal only on equal lists. */
  lemma {:induction false} CompareOrders(a: seq<int>, b: seq<int>, c: seq<int>)
    ensures Compare(a, b) == -Compare(b, a)
    ensures Compare(a, b) == 0 <==> a == b
    ensures Compare(a, b) <= 0 && Compare(b, c) <= 0 ==> Compare(a, c) <= 0
  {
    if a != [] && b != [] {
      if c != [] { CompareOrders(a[1..], b[1..], c[1..]); } else { CompareOrders(a[1..], b[1..], c); }
      assert a == [a[0]] + a[1..] && b == [b[0]] + b[1..];
    }
  }

  predicate MembersLeq(a: Candidate, b: Candidate) { Compare(a.members, b.members) <= 0 }

  lemma MembersLeqTotal()
    ensures TotalPreorder(MembersLeq)
  {
    forall a: Candidate, b: Candidate ensures MembersLeq(a, b) || MembersLeq(b, a) {
      CompareOrders(a.members, b.members, []);
    }
    forall a: Candidate, b: Candidate, c: Candidate | MembersLeq(a, b) && MembersLeq(b, c) ensures MembersLeq(a, c) {
      CompareOrders(a.members, b.members, c.members);
    }
  }

  // ----- connection classes -----

  lemma ConnectedReflexive(d: set<Edge>, a: int)
    ensures Connected(d, a, a)
  {
    assert IsPath(d, [a]) && [a][0] == a && [a][|[a]| - 1] == a;
  }

  lemma ConnectedStep(d: set<Edge>, a: int, b: int, c: int)
    requires Connected(d, a, b) && Mutual(d, b, c)
    ensures Connected(d, a, c)
  {
    var p :| IsPath(d, p) && p[0] == a && p[|p| - 1] == b;
    var q := p + [c];
    forall i | 0 <= i < |q| - 1 ensures Linked(d, q, i) {
      if i < |p| - 1 { assert Linked(d, p, i); }
    }
    assert IsPath(d, q) && q[0] == a && q[|q| - 1] == c;
  }

  lemma ConnectedSymmetric(d: set<Edge>, a: int, b: int)
    requires Connected(d, a, b)
    ensures Connected(d, b, a)
  {
    var p :| IsPath(d, p) && p[0] == a && p[|p| - 1] == b;
    var q := seq(|p|, i requires 0 <= i < |p| => p[|p| - 1 - i]);
    forall i | 0 <= i < |q| - 1 ensures Linked(d, q, i) { assert Linked(d, p, |p| - 2 - i); }
    assert IsPath(d, q) && q[0] == b && q[|q| - 1] == a;
  }

  lemma ConnectedTransitive(d: set<Edge>, a: int, b: int, c: int)
    requires Connected(d, a, b) && Connected(d, b, c)
    ensures Connected(d, a, c)
  {
    var p :| IsPath(d, p) && p[0] == a && p[|p| - 1] == b;
    var q :| IsPath(d, q) && q[0] == b && q[|q| - 1] == c;
    var r := p + q[1..];
    forall i | 0 <= i < |r| - 1 ensures Linked(d, r, i) {
      if i < |p| - 1 { assert Linked(d, p, i); } else { assert Linked(d, q, i - (|p| - 1)); }
    }
    assert IsPath(d, r) && r[0] == a && r[|r| - 1] == c;
  }

  /** A path never leaves a set that is closed under mutual edges. */
  lemma {:induction false} PathStays(d: set<Edge>, s: seq<int>, p: seq<int>)
    requires forall x, y :: x in s && Mutual(d, x, y) ==> y in s
    requires IsPath(d, p) && p[0] in s
    ensures p[|p| - 1] in s
    decreases |p|
  {
    if |p| > 1 {
      assert Linked(d, p, 0);
      var q := p[1..];
      forall i | 0 <= i < |q| - 1 ensures Linked(d, q, i) { assert Linked(d, p, i + 1); }
      PathStays(d, s, q);
    }
  }

  /** Whatever the search collected from a root, once closed, is exactly the root's class. */
  lemma ClosedIsClass(d: set<Edge>, s: seq<int>, root: int)
    requires root in s
    requires forall x :: x in s ==> Connected(d, root, x)
    requires forall x, y :: x in s && Mutual(d, x, y) ==> y in s
    ensures forall x, y :: x in s ==> (y in s <==> Connected(d, x, y))
  {
    forall x, y | x in s ensures y in s <==> Connected(d, x, y) {
      if y in s {
        ConnectedSymmetric(d, root, x);
        ConnectedTransitive(d, x, root, y);
      }
      if Connected(d, x, y) {
        var p :| IsPath(d, p) && p[0] == x && p[|p| - 1] == y;
        PathStays(d, s, p);
      }
    }
  }

  // ----- the search -----

  /** Adjacency lists over mutual edges, filled in the arbitrary order of a map iteration. */
  method BuildAdjacency(directed: set<Edge>) returns (adjacency: map<int, seq<int>>)
    ensures forall a :: a in adjacency ==> adjacency[a] != [] && Distinct(adjacency[a])
    ensures forall a, b :: Mutual(directed, a, b) <==> a in adjacency && b in adjacency[a]
  {
    adjacency := map[];
    var rest := directed;
    while rest != {}
      invariant rest <= directed
      invariant forall a :: a in adjacency ==> adjacency[a] != [] && Distinct(adjacency[a])
      invariant forall a, b :: Mutual(directed, a, b) && (a, b) !in rest <==> a in adjacency && b in adjacency[a]
      decreases rest
    {
      var edge :| edge in rest;
      assert (edge.0, edge.1) in rest;
      rest := rest - {edge};
      if (edge.1, edge.0) in directed {
        var current := if edge.0 in adjacency then adjacency[edge.0] else [];
        assert Mutual(directed, edge.0, edge.1) && edge.1 !in current;
        adjacency := adjacency[edge.0 := current + [edge.1]];
      }
    }
  }

  /** Marks and pushes every unvisited neighbour. */
  method Push(next: seq<int>, visited: set<int>, stack: seq<int>) returns (marked: set<int>, grown: seq<int>)
    ensures marked == visited + set x | x in next
    ensures stack <= grown && Distinct(grown[|stack|..])
    ensures forall x :: x in grown[|stack|..] <==> x in next && x !in visited
  {
    marked, grown := visited, stack;
    ghost var added: seq<int> := [];
    for i := 0 to |next|
      invariant marked == visited + set x | x in next[..i]
      invariant grown == stack + added && Distinct(added)
      invariant forall x :: x in added <==> x in next[..i] && x !in visited
    {
      assert next[..i + 1] == next[..i] + [next[i]];
      if next[i] !in marked {
        marked := marked + {next[i]};
        grown := grown + [next[i]];
        added := added + [next[i]];
      }
    }
    assert next[..|next|] == next && grown[|stack|..] == added;
  }

  /** The explicit-stack search from one root: the root's whole connection class, in visiting order. */
  method Search(ghost d: set<Edge>, adjacency: map<int, seq<int>>, ghost nodes: set<int>, root: int, visited: set<int>)
    returns (members: seq<int>, marked: set<int>)
    requires forall a, b :: Mutual(d, a, b) <==> a in adjacency && b in adjacency[a]
    requires forall a, b :: Mutual(d, a, b) ==> a in nodes && b in nodes
    requires root in nodes && root !in visited
    requires forall x, y :: x in visited && Mutual(d, x, y) ==> y in visited
    ensures Distinct(members)
    ensures forall x :: x in members <==> x in marked && x !in visited
    ensures visited <= marked && root in members
    ensures forall x, y :: x in members ==> (y in members <==> Connected(d, x, y))
  {
    var stack := [root];
    members, marked := [], visited + {root};
    ConnectedReflexive(d, root);
    while stack != []
      invariant Distinct(members) && Distinct(stack) && forall x :: x in members ==> x !in stack
      invariant forall x :: x in members || x in stack <==> x in marked && x !in visited
      invariant visited <= marked && root in marked
      invariant forall x :: x in marked && x !in visited ==> x in nodes && Connected(d, root, x)
      invariant forall x, y :: x in members && Mutual(d, x, y) ==> y in marked && y !in visited
      decreases nodes - set x | x in members
    {
      var node := stack[|stack| - 1];
      assert node in stack && node in nodes && node !in members;
      stack := stack[..|stack| - 1];
      ghost var before, popped := members, stack;
      members := members + [node];
      assert (set x | x in members) == (set x | x in before) + {node};
      var next := SortFunc(if node in adjacency then adjacency[node] else [], IntLeq);
      forall y ensures y in next <==> Mutual(d, node, y) { assert y in next <==> y in multiset(next); }
      forall y | Mutual(d, node, y) ensures Connected(d, root, y) && y !in visited {
        ConnectedStep(d, root, node, y);
        assert Mutual(d, y, node);
      }
      marked, stack := Push(next, marked, stack);
      ghost var added := stack[|popped|..];
      assert stack == popped + added;
      DistinctConcat(popped, added);
    }
    ClosedIsClass(d, members, root);
  }

  /** One candidate's member list: the class of its root, sorted. */
  method Component(ghost d: set<Edge>, adjacency: map<int, seq<int>>, ghost nodes: set<int>, root: int, visited: set<int>)
    returns (members: seq<int>, marked: set<int>)
    requires forall a, b :: Mutual(d, a, b) <==> a in adjacency && b in adjacency[a]
    requires forall a, b :: Mutual(d, a, b) ==> a in nodes && b in nodes && a != b
    requires root in adjacency && adjacency[root] != [] && root !in visited
    requires forall x, y :: x in visited && Mutual(d, x, y) ==> y in visited
    ensures IsComponent(d, members) && root in members
    ensures visited <= marked && forall x :: x in members <==> x in marked && x !in visited
  {
    assert Mutual(d, root, adjacency[root][0]);
    members, marked := Search(d, adjacency, nodes, root, visited);
    ghost var unsorted := members;
    members := SortFunc(members, IntLeq);
    PermutationDistinct(unsorted, members);
    assert Connected(d, root, adjacency[root][0]) by {
      ConnectedReflexive(d, root);
      ConnectedStep(d, root, root, adjacency[root][0]);
    }
    TwoMembers(members, root, adjacency[root][0]);
  }

  lemma TwoMembers(s: seq<int>, a: int, b: int)
    requires a in s && b in s && a != b
    ensures |s| >= 2
  {
    var i :| 0 <= i < |s| && s[i] == a;
    var j :| 0 <= j < |s| && s[j] == b;
  }

  // ----- Candidates -----


  ghost predicate PartialComponents(d: set<Edge>, values: seq<Candidate>, visited: set<int>) {
    && (forall c :: c in values ==> IsComponent(d, c.members))
    && (forall x :: x in visited <==> exists c :: c in values && x in c.members)
    && (forall i, j, x :: 0 <= i < j < |values| && x in values[i].members ==> x !in values[j].members)
  }

  lemma VisitedClosed(d: set<Edge>, values: seq<Candidate>, visited: set<int>)
    requires PartialComponents(d, values, visited)
    ensures forall x, y :: x in visited && Mutual(d, x, y) ==> y in visited
  {
    forall x, y | x in visited && Mutual(d, x, y) ensures y in visited {
      var c :| c in values && x in c.members;
      ConnectedReflexive(d, x);
      ConnectedStep(d, x, x, y);
    }
  }

  /** The sweep over all nodes in ascending order, one search for each unvisited root that has an edge. */
  method Sweep(projectID: int, version: string, ghost d: set<Edge>, adjacency: map<int, seq<int>>,
               ghost nodes: set<int>, ordered: seq<int>)
    returns (values: seq<Candidate>, ghost visited: set<int>)
    requires forall a, b :: Mutual(d, a, b) <==> a in adjacency && b in adjacency[a]
    requires forall a, b :: Mutual(d, a, b) ==> a in nodes && b in nodes && a != b
    requires forall a :: a in adjacency ==> adjacency[a] != []
    requires forall x :: x in nodes ==> x in ordered
    ensures PartialComponents(d, values, visited)
    ensures forall a, b :: Mutual(d, a, b) ==> a in visited
    ensures forall c :: c in values ==> c.projectID == projectID && c.algorithmVersion == version
  {
    values := [];
    var marked: set<int> := {};
    for i := 0 to |ordered|
      invariant PartialComponents(d, values, marked)
      invariant forall a, b :: Mutual(d, a, b) && a in ordered[..i] ==> a in marked
      invariant forall c :: c in values ==> c.projectID == projectID && c.algorithmVersion == version
    {
      var root := ordered[i];
      assert ordered[..i + 1] == ordered[..i] + [root];
      if root !in marked && root in adjacency {
        VisitedClosed(d, values, marked);
        var members, grown := Component(d, adjacency, nodes, root, marked);
        ExtendComponents(d, values, marked, Candidate(projectID, members, version), grown);
        marked := grown;
        values := values + [Candidate(projectID, members, version)];
      }
    }
    visited := marked;
  }

  lemma ExtendComponents(d: set<Edge>, values: seq<Candidate>, visited: set<int>, c: Candidate, grown: set<int>)
    requires PartialComponents(d, values, visited) && IsComponent(d, c.members)
    requires visited <= grown && forall x :: x in c.members <==> x in grown && x !in visited
    ensures PartialComponents(d, values + [c], grown)
  {
    var longer := values + [c];
    forall x ensures x in grown <==> exists e :: e in longer && x in e.members {
      if x in visited {
        var e :| e in values && x in e.members;
        assert e in longer;
      } else if x in grown {
        assert c in longer;
      }
    }
    forall i, j, x | 0 <= i < j < |longer| && x in longer[i].members ensures x !in longer[j].members {
      if j == |values| { assert longer[i] in values; }
    }
  }

  lemma SortedComponents(d: set<Edge>, values: seq<Candidate>, visited: set<int>, sorted: seq<Candidate>)
    requires PartialComponents(d, values, visited)
    requires forall a, b :: Mutual(d, a, b) ==> a in visited
    requires multiset(sorted) == multiset(values) && Sorted(sorted, MembersLeq)
    ensures AreComponents(d, Groups(sorted))
    ensures forall c :: c in sorted ==> c in values
  {
    forall i, j | 0 <= i < j < |values| ensures values[i].members != values[j].members {
      assert values[i].members[0] in values[i].members;
    }
    PermutationDistinct(values, sorted);
    var groups := Groups(sorted);
    forall g | g in groups ensures IsComponent(d, g) {
      var i :| 0 <= i < |groups| && groups[i] == g;
      assert sorted[i] in sorted;
    }
    forall a, b | Mutual(d, a, b) && a != b ensures exists g :: g in groups && a in g {
      var c :| c in values && a in c.members;
      var i :| 0 <= i < |sorted| && sorted[i] == c;
      assert groups[i] in groups;
    }
    forall i, j | 0 <= i < j < |groups| ensures Compare(groups[i], groups[j]) < 0 {
      CompareOrders(groups[i], groups[j], []);
      assert MembersLeq(sorted[i], sorted[j]);
      assert sorted[i] in values && sorted[j] in values;
    }
  }

  method Candidates(projectID: int, neighbors: seq<Neighbor>, k: int, version: string)
    returns (r: Result<seq<Candidate>, Error>)
    ensures r.Ok? <==> && projectID > 0 && 1 <= k <= 100 && !Blank(version)
                       && forall n :: n in neighbors ==>
                            && n.issueID > 0 && n.neighborID > 0 && n.issueID != n.neighborID
                            && 1 <= n.rank <= k && 0.0 <= n.similarity <= 1.0
    ensures r.Ok? ==> AreComponents(Directed(neighbors), Groups(r.value))
    ensures r.Ok? ==> forall i, j :: 0 <= i < j < |r.value| ==> FirstSmaller(r.value[i], r.value[j])
    ensures r.Ok? ==> forall c :: c in r.value ==> c.projectID == projectID && c.algorithmVersion == version
  {
    if !ValidRequest(projectID, k, version) { return Err(ErrInvalid); }
    var directed: set<Edge>, nodes: set<int> := {}, {};
    for i := 0 to |neighbors|
      invariant forall n :: n in neighbors[..i] ==> ValidNeighbor(n, k)
      invariant directed == Directed(neighbors[..i])
      invariant forall a, b :: (a, b) in directed ==> a in nodes && b in nodes && a != b
    {
      var n := neighbors[i];
      assert neighbors[..i + 1] == neighbors[..i] + [n];
      if !ValidNeighbor(n, k) { return Err(ErrInvalid); }
      directed := directed + {(n.issueID, n.neighborID)};
      nodes := nodes + {n.issueID, n.neighborID};
    }
    assert neighbors[..|neighbors|] == neighbors;
    var adjacency := BuildAdjacency(directed);
    var ordered := Elements(nodes);
    ghost var collected := ordered;
    ordered := SortFunc(ordered, IntLeq);
    PermutationDistinct(collected, ordered);
    var values, visited := Sweep(projectID, version, directed, adjacency, nodes, ordered);
    ghost var unsorted := values;
    MembersLeqTotal();
    values := SortFunc(values, MembersLeq);
    SortedComponents(directed, unsorted, visited, values);
    FirstMembers(directed, values);
    return Ok(values);
  }

  /** The earlier candidate has the smallest issue of both. */
  predicate FirstSmaller(c: Candidate, d: Candidate) {
    c.members != [] && d.members != [] && c.members[0] < d.members[0]
  }

  lemma FirstMembers(d: set<Edge>, values: seq<Candidate>)
    requires AreComponents(d, Groups(values))
    ensures forall i, j :: 0 <= i < j < |values| ==> FirstSmaller(values[i], values[j])
  {
    var groups := Groups(values);
    forall i, j | 0 <= i < j < |values| ensures FirstSmaller(values[i], values[j]) {
      assert groups[i] in groups && groups[j] in groups;
      FirstDecides(d, groups, i, j);
    }
  }

  /** Components share no member, so the smallest members decide their order. */
  lemma FirstDecides(d: set<Edge>, groups: seq<seq<int>>, i: nat, j: nat)
    requires AreComponents(d, groups) && i < j < |groups| && groups[i] in groups && groups[j] in groups
    ensures groups[i] != [] && groups[j] != [] && groups[i][0] < groups[j][0]
  {
    var a, b := groups[i], groups[j];
    assert a[0] in a && b[0] in b;
    ComponentsDisjoint(d, groups, i, j, a[0]);
    assert a[0] != b[0];
    CompareIs(a, b);
    DifferAtOnce(a, b);
  }

  /** What the answer means for the neighbour list itself: issues that list each other are together, and every member
      is listed by another member that it lists. */
  lemma MutualPairs(neighbors: seq<Neighbor>, k: int, groups: seq<seq<int>>)
    requires (forall n :: n in neighbors ==> ValidNeighbor(n, k)) && AreComponents(Directed(neighbors), groups)
    ensures forall n, m :: n in neighbors && m in neighbors && n.issueID == m.neighborID && n.neighborID == m.issueID ==>
              exists g :: g in groups && n.issueID in g && m.issueID in g
    ensures forall g, x :: g in groups && x in g ==> exists y :: y in g && y != x && Lists(neighbors, x, y) && Lists(neighbors, y, x)
  {
    var d := Directed(neighbors);
    forall n, m | n in neighbors && m in neighbors && n.issueID == m.neighborID && n.neighborID == m.issueID
      ensures exists g :: g in groups && n.issueID in g && m.issueID in g
    {
      Together(d, groups, n.issueID, m.issueID);
    }
    forall g, x | g in groups && x in g ensures exists y :: y in g && y != x && Lists(neighbors, x, y) && Lists(neighbors, y, x) {
      var y := Partner(d, g, x);
      assert Mutual(d, x, y);
    }
  }

  predicate Lists(neighbors: seq<Neighbor>, a: int, b: int) { exists n :: n in neighbors && n.issueID == a && n.neighborID == b }

  lemma Together(d: set<Edge>, groups: seq<seq<int>>, a: int, b: int)
    requires AreComponents(d, groups) && Mutual(d, a, b) && a != b
    ensures exists g :: g in groups && a in g && b in g
  {
    var g :| g in groups && a in g;
    ConnectedReflexive(d, a);
    ConnectedStep(d, a, a, b);
  }

  lemma Partner(d: set<Edge>, g: seq<int>, x: int) returns (y: int)
    requires Loopless(d) && IsComponent(d, g) && x in g
    ensures y in g && y != x && Mutual(d, x, y)
  {
    var z := if g[0] == x then g[1] else g[0];
    assert z in g && z != x && Connected(d, x, z);
    var p :| IsPath(d, p) && p[0] == x && p[|p| - 1] == z;
    assert Linked(d, p, 0);
    y := p[1];
    ConnectedReflexive(d, x);
    ConnectedStep(d, x, x, y);
  }

  // ----- the components are determined by the graph alone -----

  lemma AscendingUnique(a: seq<int>, b: seq<int>)
    requires Ascending(a) && Ascending(b) && forall x :: x in a <==> x in b
    ensures a == b
  {
    assert forall x: int :: x in a <==> x in b;
    DistinctPermutation(a, b);
    SortedUnique(a, b, IntLeq);
  }

  lemma GroupOccurs(d: set<Edge>, groups: seq<seq<int>>, other: seq<seq<int>>, g: seq<int>)
    requires Loopless(d) && AreComponents(d, groups) && AreComponents(d, other) && g in groups
    ensures g in other
  {
    var x, y := g[0], g[1];
    assert x in g && y in g;
    assert Connected(d, x, y);
    var p :| IsPath(d, p) && p[0] == x && p[|p| - 1] == y;
    assert Linked(d, p, 0);
    var h :| h in other && x in h;
    forall z ensures z in g <==> z in h {
      assert z in g <==> Connected(d, x, z);
      assert z in h <==> Connected(d, x, z);
    }
    AscendingUnique(g, h);
  }

  predicate SeqLeq(a: seq<int>, b: seq<int>) { Compare(a, b) <= 0 }

  lemma ComponentsUnique(d: set<Edge>, groups: seq<seq<int>>, other: seq<seq<int>>)
    requires Loopless(d) && AreComponents(d, groups) && AreComponents(d, other)
    ensures groups == other
  {
    forall a, b, c ensures SeqLeq(a, b) || SeqLeq(b, a)
                   ensures SeqLeq(a, b) && SeqLeq(b, c) ==> SeqLeq(a, c)
                   ensures SeqLeq(a, b) && SeqLeq(b, a) ==> a == b
    {
      CompareOrders(a, b, c);
    }
    forall g ensures g in groups <==> g in other {
      if g in groups { GroupOccurs(d, groups, other, g); }
      if g in other { GroupOccurs(d, other, groups, g); }
    }
    forall i, j | 0 <= i < j < |groups| ensures groups[i] != groups[j] { CompareOrders(groups[i], groups[j], []); }
    forall i, j | 0 <= i < j < |other| ensures other[i] != other[j] { CompareOrders(other[i], other[j], []); }
    DistinctPermutation(groups, other);
    SortedUnique(groups, other, SeqLeq);
  }

  /** Reordering or repeating the input, or iterating the maps in another order, changes nothing:
      two answers for lists that draw the same graph are the same list of member lists. */
  lemma CandidatesDetermined(k: int, first: seq<Neighbor>, second: seq<Neighbor>, groups: seq<seq<int>>, other: seq<seq<int>>)
    requires forall n :: n in first ==> ValidNeighbor(n, k)
    requires forall n :: n in first <==> n in second
    requires AreComponents(Directed(first), groups) && AreComponents(Directed(second), other)
    ensures groups == other
  {
    assert Directed(first) == Directed(second);
    ComponentsUnique(Directed(first), groups, other);
  }

  /** No issue belongs to two candidates. */
  lemma ComponentsDisjoint(d: set<Edge>, groups: seq<seq<int>>, i: nat, j: nat, x: int)
    requires AreComponents(d, groups) && i < j < |groups| && x in groups[i]
    ensures x !in groups[j]
  {
    if x in groups[j] {
      assert groups[i] in groups && groups[j] in groups;
      forall z ensures z in groups[i] <==> z in groups[j] {
        assert z in groups[i] <==> Connected(d, x, z);
        assert z in groups[j] <==> Connected(d, x, z);
      }
      AscendingUnique(groups[i], groups[j]);
      CompareOrders(groups[i], groups[j], []);
    }
  }
}
