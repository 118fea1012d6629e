/**
 Connected components of the tree window: an explicit-stack depth-first search over the edges
 whose two ends are both in the window.
 */
module TreeComponents {

  type Hash = string

  datatype Edge = Edge(from: Hash, to: Hash)

  // ----- Paths -----

  /** An in-window edge joins `a` and `b`, in either direction. */
  predicate Adjacent(nodes: seq<Hash>, edges: seq<Edge>, a: Hash, b: Hash) {
    a in nodes && b in nodes && (Edge(a, b) in edges || Edge(b, a) in edges)
  }

  ghost predicate IsPath(nodes: seq<Hash>, edges: seq<Edge>, p: seq<Hash>) {
    && p != []
    && p[0] in nodes
    && forall i :: 0 <= i < |p| - 1 ==> Adjacent(nodes, edges, p[i], p[i + 1])
  }

  ghost predicate Joins(nodes: seq<Hash>, edges: seq<Edge>, p: seq<Hash>, a: Hash, b: Hash) {
    IsPath(nodes, edges, p) && p[0] == a && p[|p| - 1] == b
  }

  ghost predicate Connected(nodes: seq<Hash>, edges: seq<Edge>, a: Hash, b: Hash) {
    exists p :: Joins(nodes, edges, p, a, b)
  }

  lemma ConnectedReflexive(nodes: seq<Hash>, edges: seq<Edge>, a: Hash)
    requires a in nodes
    ensures Connected(nodes, edges, a, a)
  {
    assert Joins(nodes, edges, [a], a, a);
  }

  lemma ConnectedStep(nodes: seq<Hash>, edges: seq<Edge>, a: Hash, b: Hash, c: Hash)
    requires Connected(nodes, edges, a, b) && Adjacent(nodes, edges, b, c)
    ensures Connected(nodes, edges, a, c)
  {
    var p :| Joins(nodes, edges, p, a, b);
    assert Joins(nodes, edges, p + [c], a, c);
  }

  lemma {:induction false} ConnectedReverses(nodes: seq<Hash>, edges: seq<Edge>, p: seq<Hash>, a: Hash, b: Hash)
    requires Joins(nodes, edges, p, a, b)
    ensures Connected(nodes, edges, b, a)
    decreases |p|
  {
    if |p| == 1 {
      ConnectedReflexive(nodes, edges, a);
    } else {
      var rest := p[1..];
      assert Adjacent(nodes, edges, p[0], p[0 + 1]);
      assert Joins(nodes, edges, rest, p[1], b);
      ConnectedReverses(nodes, edges, rest, p[1], b);
      ConnectedStep(nodes, edges, b, p[1], a);
    }
  }

  lemma ConnectedSymmetric(nodes: seq<Hash>, edges: seq<Edge>, a: Hash, b: Hash)
    requires Connected(nodes, edges, a, b)
    ensures Connected(nodes, edges, b, a)
  {
    var p :| Joins(nodes, edges, p, a, b);
    ConnectedReverses(nodes, edges, p, a, b);
  }

  lemma ConnectedTransitive(nodes: seq<Hash>, edges: seq<Edge>, a: Hash, b: Hash, c: Hash)
    requires Connected(nodes, edges, a, b) && Connected(nodes, edges, b, c)
    ensures Connected(nodes, edges, a, c)
  {
    var q :| Joins(nodes, edges, q, b, c);
    ConnectedAlong(nodes, edges, a, b, q);
  }

  lemma {:induction false} ConnectedAlong(nodes: seq<Hash>, edges: seq<Edge>, a: Hash, b: Hash, q: seq<Hash>)
    requires Connected(nodes, edges, a, b)
    requires IsPath(nodes, edges, q) && q[0] == b
    ensures Connected(nodes, edges, a, q[|q| - 1])
    decreases |q|
  {
    if |q| > 1 {
      var init := q[..|q| - 1];
      ConnectedAlong(nodes, edges, a, b, init);
      assert Adjacent(nodes, edges, q[|q| - 2], q[|q| - 2 + 1]);
      ConnectedStep(nodes, edges, a, q[|q| - 2], q[|q| - 1]);
    }
  }

  // ----- Adjacency -----

  /** `adjacency` lists, for every window node, exactly its neighbours. */
  ghost predicate ListsNeighbours(nodes: seq<Hash>, edges: seq<Edge>, adjacency: map<Hash, seq<Hash>>) {
    && (forall a :: a in adjacency <==> a in nodes)
    && (forall a, b :: a in adjacency ==> (b in adjacency[a] <==> Adjacent(nodes, edges, a, b)))
  }

  /** Insert into an insertion-ordered set. */
  function Added(s: seq<Hash>, h: Hash): (r: seq<Hash>)
    ensures forall x :: x in r <==> x in s || x == h
  {
    if h in s then s else s + [h]
  }

  method BuildAdjacency(nodes: seq<Hash>, edges: seq<Edge>) returns (adjacency: map<Hash, seq<Hash>>)
    ensures ListsNeighbours(nodes, edges, adjacency)
  {
    adjacency := map h | h in nodes :: [];
    var k := 0;
    while k < |edges|
      invariant 0 <= k <= |edges|
      invariant ListsNeighbours(nodes, edges[..k], adjacency)
    {
      var e := edges[k];
      assert edges[..k + 1] == edges[..k] + [e];
      if e.from in adjacency && e.to in adjacency {
        adjacency := adjacency[e.from := Added(adjacency[e.from], e.to)];
        adjacency := adjacency[e.to := Added(adjacency[e.to], e.from)];
      }
      k := k + 1;
    }
    assert edges[..|edges|] == edges;
  }

  // ----- The search -----

  /** Nodes labelled below `id` form whole components. */
  ghost predicate ClosedBelow(nodes: seq<Hash>, edges: seq<Edge>, component: map<Hash, nat>, id: nat) {
    && (forall a :: a in component ==> a in nodes)
    && (forall a, b :: a in component && component[a] < id && Adjacent(nodes, edges, a, b) ==>
          b in component && component[b] == component[a])
    && (forall a, b :: a in component && b in component && component[a] == component[b] < id ==>
          Connected(nodes, edges, a, b))
  }

  /** The component labelled `id` while the search from `root` is running. */
  ghost predicate Searching(nodes: seq<Hash>, edges: seq<Edge>, component: map<Hash, nat>, id: nat,
                            root: Hash, stack: seq<Hash>) {
    && (forall a :: a in component ==> component[a] <= id)
    && (forall a :: a in component && component[a] == id ==> Connected(nodes, edges, root, a))
    && (forall a, b :: a in component && component[a] == id && Adjacent(nodes, edges, a, b) ==>
          b in component || b in stack)
    && (forall i :: 0 <= i < |stack| ==> stack[i] in nodes && Connected(nodes, edges, root, stack[i]))
    && (root in component || root in stack)
    && root in nodes
  }

  /** Labels in first-seen order: each node's label is an earlier one or the next unused one. */
  function NextLabel(nodes: seq<Hash>, component: map<Hash, nat>, i: nat): nat
    requires i <= |nodes|
    requires forall k :: 0 <= k < i ==> nodes[k] in component
  {
    if i == 0 then 0
    else
      var before := NextLabel(nodes, component, i - 1);
      if component[nodes[i - 1]] == before then before + 1 else before
  }

  ghost predicate FirstSeenOrder(nodes: seq<Hash>, component: map<Hash, nat>, i: nat)
    requires i <= |nodes|
    requires forall k :: 0 <= k < i ==> nodes[k] in component
  {
    forall k :: 0 <= k < i ==> component[nodes[k]] <= NextLabel(nodes, component, k)
  }

  lemma {:induction false} NextLabelUnchanged(nodes: seq<Hash>, before: map<Hash, nat>, after: map<Hash, nat>, i: nat)
    requires i <= |nodes|
    requires forall k :: 0 <= k < i ==> nodes[k] in before
    requires forall h :: h in before ==> h in after && after[h] == before[h]
    ensures NextLabel(nodes, after, i) == NextLabel(nodes, before, i)
  {
    if i > 0 {
      NextLabelUnchanged(nodes, before, after, i - 1);
    }
  }

  lemma FirstSeenUnchanged(nodes: seq<Hash>, before: map<Hash, nat>, after: map<Hash, nat>, i: nat)
    requires i <= |nodes|
    requires forall k :: 0 <= k < i ==> nodes[k] in before
    requires forall h :: h in before ==> h in after && after[h] == before[h]
    requires FirstSeenOrder(nodes, before, i)
    ensures FirstSeenOrder(nodes, after, i)
  {
    hide NextLabel;
    forall k | 0 <= k < i ensures after[nodes[k]] <= NextLabel(nodes, after, k) {
      NextLabelUnchanged(nodes, before, after, k);
    }
  }

  lemma NextLabelStep(nodes: seq<Hash>, component: map<Hash, nat>, i: nat)
    requires i < |nodes| && forall k :: 0 <= k < i + 1 ==> nodes[k] in component
    ensures NextLabel(nodes, component, i + 1) ==
            NextLabel(nodes, component, i) + if component[nodes[i]] == NextLabel(nodes, component, i) then 1 else 0
  {
  }

  lemma FirstSeenStep(nodes: seq<Hash>, component: map<Hash, nat>, i: nat)
    requires i < |nodes| && forall k :: 0 <= k < i + 1 ==> nodes[k] in component
    requires FirstSeenOrder(nodes, component, i) && component[nodes[i]] <= NextLabel(nodes, component, i)
    ensures FirstSeenOrder(nodes, component, i + 1)
  {
    hide NextLabel;
  }

  /** The first `i` nodes are labelled in first-seen order, with the labels below `id`. */
  ghost predicate LabelledUpTo(nodes: seq<Hash>, component: map<Hash, nat>, i: nat, id: nat)
    requires i <= |nodes|
  {
    && (forall k :: 0 <= k < i ==> nodes[k] in component)
    && (forall h :: h in component ==> component[h] < id)
    && NextLabel(nodes, component, i) == id
    && FirstSeenOrder(nodes, component, i)
  }

  lemma LabelSeen(nodes: seq<Hash>, component: map<Hash, nat>, i: nat, id: nat)
    requires i < |nodes| && LabelledUpTo(nodes, component, i, id) && nodes[i] in component
    ensures LabelledUpTo(nodes, component, i + 1, id)
  {
    hide NextLabel, FirstSeenOrder;
    NextLabelStep(nodes, component, i);
    FirstSeenStep(nodes, component, i);
  }

  lemma LabelNew(nodes: seq<Hash>, before: map<Hash, nat>, after: map<Hash, nat>, i: nat, id: nat)
    requires i < |nodes| && LabelledUpTo(nodes, before, i, id)
    requires forall h :: h in before ==> h in after && after[h] == before[h]
    requires forall h :: h in after ==> after[h] <= id
    requires nodes[i] in after && after[nodes[i]] == id
    ensures LabelledUpTo(nodes, after, i + 1, id + 1)
  {
    hide NextLabel, FirstSeenOrder;
    NextLabelUnchanged(nodes, before, after, i);
    FirstSeenUnchanged(nodes, before, after, i);
    NextLabelStep(nodes, after, i);
    FirstSeenStep(nodes, after, i);
  }

  /** Take the top of the stack: label it and push its unlabelled neighbours, unless it is labelled. */
  lemma VisitKeepsSearching(nodes: seq<Hash>, edges: seq<Edge>, component: map<Hash, nat>, id: nat, root: Hash,
                            stack: seq<Hash>, hash: Hash, pushed: seq<Hash>)
    requires ClosedBelow(nodes, edges, component, id)
    requires Searching(nodes, edges, component, id, root, stack + [hash])
    requires hash !in component
    requires forall b :: b in pushed <==> b !in component && b != hash && Adjacent(nodes, edges, hash, b)
    ensures ClosedBelow(nodes, edges, component[hash := id], id)
    ensures Searching(nodes, edges, component[hash := id], id, root, stack + pushed)
  {
    var all := stack + [hash];
    assert all[|stack|] == hash;
    var labelled := component[hash := id];
    var more := stack + pushed;
    forall a, b | a in labelled && labelled[a] < id && Adjacent(nodes, edges, a, b)
      ensures b in labelled && labelled[b] == labelled[a]
    {
      assert a in component;
    }
    forall i | 0 <= i < |more| ensures more[i] in nodes && Connected(nodes, edges, root, more[i]) {
      if i < |stack| {
        assert all[i] == stack[i];
      } else {
        assert more[i] in pushed;
        ConnectedStep(nodes, edges, root, hash, more[i]);
      }
    }
    forall a, b | a in labelled && labelled[a] == id && Adjacent(nodes, edges, a, b)
      ensures b in labelled || b in more
    {
      if a == hash {
        assert b in labelled || b in pushed;
      } else {
        assert b in component || b in all;
      }
    }
  }

  lemma SearchDone(nodes: seq<Hash>, edges: seq<Edge>, component: map<Hash, nat>, id: nat, root: Hash)
    requires ClosedBelow(nodes, edges, component, id)
    requires Searching(nodes, edges, component, id, root, [])
    ensures ClosedBelow(nodes, edges, component, id + 1)
  {
    forall a, b | a in component && component[a] < id + 1 && Adjacent(nodes, edges, a, b)
      ensures b in component && component[b] == component[a]
    {
      if component[a] == id && component[b] < id {
        assert Adjacent(nodes, edges, b, a);
      }
    }
    forall a, b | a in component && b in component && component[a] == component[b] < id + 1
      ensures Connected(nodes, edges, a, b)
    {
      if component[a] == id {
        ConnectedSymmetric(nodes, edges, root, a);
        ConnectedTransitive(nodes, edges, a, root, b);
      }
    }
  }

  method PushUnlabelled(neighbours: seq<Hash>, component: map<Hash, nat>, stack: seq<Hash>)
    returns (r: seq<Hash>, ghost pushed: seq<Hash>)
    ensures r == stack + pushed
    ensures forall b :: b in pushed <==> b in neighbours && b !in component
  {
    r, pushed := stack, [];
    var k := 0;
    while k < |neighbours|
      invariant 0 <= k <= |neighbours|
      invariant r == stack + pushed
      invariant forall b :: b in pushed <==> b in neighbours[..k] && b !in component
    {
      assert neighbours[..k + 1] == neighbours[..k] + [neighbours[k]];
      if neighbours[k] !in component {
        r, pushed := r + [neighbours[k]], pushed + [neighbours[k]];
      }
      k := k + 1;
    }
    assert neighbours[..|neighbours|] == neighbours;
  }

  /** Label the whole component of an unlabelled `root` with `id`. */
  method SearchFrom(nodes: seq<Hash>, ghost edges: seq<Edge>, adjacency: map<Hash, seq<Hash>>,
                    labelled: map<Hash, nat>, id: nat, root: Hash) returns (component: map<Hash, nat>)
    requires ListsNeighbours(nodes, edges, adjacency)
    requires ClosedBelow(nodes, edges, labelled, id)
    requires forall h :: h in labelled ==> labelled[h] < id
    requires root in nodes && root !in labelled
    ensures ClosedBelow(nodes, edges, component, id + 1)
    ensures forall h :: h in component ==> component[h] <= id
    ensures forall h :: h in labelled ==> h in component && component[h] == labelled[h]
    ensures root in component && component[root] == id
  {
    component := labelled;
    var stack := [root];
    ConnectedReflexive(nodes, edges, root);
    while stack != []
      invariant ClosedBelow(nodes, edges, component, id)
      invariant Searching(nodes, edges, component, id, root, stack)
      invariant forall h :: h in labelled ==> h in component && component[h] == labelled[h]
      invariant root in component ==> component[root] == id
      decreases (set h | h in nodes) - component.Keys, |stack|
    {
      var top := |stack| - 1;
      var hash := stack[top];
      var rest := stack[..top];
      assert stack == rest + [hash];
      if hash in component {
        PopKeepsSearching(nodes, edges, component, id, root, rest, hash);
        stack := rest;
      } else {
        ghost var before := component;
        ghost var pushed;
        component := component[hash := id];
        stack, pushed := PushUnlabelled(adjacency[hash], component, rest);
        VisitKeepsSearching(nodes, edges, before, id, root, rest, hash, pushed);
        assert hash in nodes;
        assert (set h | h in nodes) - component.Keys < (set h | h in nodes) - before.Keys by {
          assert hash in (set h | h in nodes) - before.Keys;
        }
      }
    }
    SearchDone(nodes, edges, component, id, root);
  }

  lemma PopKeepsSearching(nodes: seq<Hash>, edges: seq<Edge>, component: map<Hash, nat>, id: nat, root: Hash,
                          stack: seq<Hash>, hash: Hash)
    requires Searching(nodes, edges, component, id, root, stack + [hash])
    requires hash in component
    ensures Searching(nodes, edges, component, id, root, stack)
  {
    var all := stack + [hash];
    forall i | 0 <= i < |stack| ensures stack[i] in nodes && Connected(nodes, edges, root, stack[i]) {
      assert all[i] == stack[i];
    }
  }

  lemma {:induction false} PathKeepsLabel(nodes: seq<Hash>, edges: seq<Edge>, component: map<Hash, nat>, id: nat,
                                          p: seq<Hash>)
    requires ClosedBelow(nodes, edges, component, id)
    requires forall h :: h in component ==> component[h] < id
    requires IsPath(nodes, edges, p) && p[0] in component
    ensures p[|p| - 1] in component && component[p[|p| - 1]] == component[p[0]]
    decreases |p|
  {
    if |p| > 1 {
      PathKeepsLabel(nodes, edges, component, id, p[..|p| - 1]);
      assert Adjacent(nodes, edges, p[|p| - 2], p[|p| - 2 + 1]);
    }
  }

  lemma NothingLabelled(nodes: seq<Hash>, edges: seq<Edge>)
    ensures ClosedBelow(nodes, edges, map[], 0)
    ensures LabelledUpTo(nodes, map[], 0, 0)
  {
  }

  lemma LabelsAreComponents(nodes: seq<Hash>, edges: seq<Edge>, component: map<Hash, nat>, id: nat)
    requires ClosedBelow(nodes, edges, component, id)
    requires forall h :: h in component ==> component[h] < id
    requires forall h :: h in nodes ==> h in component
    ensures forall h :: h in component <==> h in nodes
    ensures forall a, b :: a in nodes && b in nodes ==>
              (component[a] == component[b] <==> Connected(nodes, edges, a, b))
  {
    hide Adjacent;
    forall a, b | a in nodes && b in nodes
      ensures component[a] == component[b] <==> Connected(nodes, edges, a, b)
    {
      if Connected(nodes, edges, a, b) {
        var p :| Joins(nodes, edges, p, a, b);
        PathKeepsLabel(nodes, edges, component, id, p);
      }
    }
  }

  /**
   Two nodes get the same label exactly when a path of in-window edges joins them, and labels
   count up from 0 in the order components are first seen.
   */
  method AssignComponents(nodes: seq<Hash>, edges: seq<Edge>) returns (component: map<Hash, nat>)
    ensures forall h :: h in component <==> h in nodes
    ensures forall a, b :: a in nodes && b in nodes ==>
              (component[a] == component[b] <==> Connected(nodes, edges, a, b))
    ensures FirstSeenOrder(nodes, component, |nodes|)
  {
    hide ClosedBelow, Connected, ListsNeighbours, FirstSeenOrder, NextLabel;
    var adjacency := BuildAdjacency(nodes, edges);
    component := map[];
    NothingLabelled(nodes, edges);
    var id := 0;
    var i := 0;
    while i < |nodes|
      invariant 0 <= i <= |nodes|
      invariant ClosedBelow(nodes, edges, component, id)
      invariant LabelledUpTo(nodes, component, i, id)
    {
      if nodes[i] in component {
        LabelSeen(nodes, component, i, id);
      } else {
        ghost var before := component;
        component := SearchFrom(nodes, edges, adjacency, component, id, nodes[i]);
        LabelNew(nodes, before, component, i, id);
        id := id + 1;
      }
      i := i + 1;
    }
    LabelsAreComponents(nodes, edges, component, id);
  }
}
