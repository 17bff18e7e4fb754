/**
  Walks over the relationship graph, named by the edge index taken at each step, and their shortlex order:
  shorter walks first, and among walks of one length the one that takes the earlier declared edge first.
  The least walk to a table is the canonical shortest path that breadth-first search has to find.
 */
module Walks {
  import opened Wrappers
  import opened RelationshipGraph

  type Walk = seq<nat>

  function Init(w: Walk): Walk
    requires w != []
  {
    w[..|w| - 1]
  }

  function Last(w: Walk): nat
    requires w != []
  {
    w[|w| - 1]
  }

  /** The table a walk ends in, or None when some step names an edge that does not exist. */
  function Follow(g: Graph, source: string, w: Walk): Option<string> {
    if w == [] then Some(source)
    else
      match Follow(g, source, Init(w))
      case None => None
      case Some(table) =>
        var edges := g.EdgesFrom(table);
        if Last(w) < |edges| then Some(edges[Last(w)].target) else None
  }

  function Edges(g: Graph, source: string, w: Walk): (path: seq<Edge>)
    requires Follow(g, source, w).Some?
    ensures |path| == |w|
  {
    if w == [] then []
    else
      var table := Follow(g, source, Init(w)).value;
      Edges(g, source, Init(w)) + [g.EdgesFrom(table)[Last(w)]]
  }

  predicate Less(a: Walk, b: Walk) {
    || |a| < |b|
    || (|a| == |b| && a != [] && (Less(Init(a), Init(b)) || (Init(a) == Init(b) && Last(a) < Last(b))))
  }

  ghost predicate Least(g: Graph, source: string, target: string, w: Walk) {
    && Follow(g, source, w) == Some(target)
    && forall v :: Follow(g, source, v) == Some(target) ==> w == v || Less(w, v)
  }

  lemma {:induction false} LessTransitive(a: Walk, b: Walk, c: Walk)
    requires Less(a, b) && Less(b, c)
    ensures Less(a, c)
    decreases |a|
  {
    if |a| == |b| == |c| && Less(Init(a), Init(b)) && Less(Init(b), Init(c)) {
      LessTransitive(Init(a), Init(b), Init(c));
    }
  }

  lemma {:induction false} LessIrreflexive(a: Walk)
    ensures !Less(a, a)
    decreases |a|
  {
    if a != [] {
      LessIrreflexive(Init(a));
    }
  }

  lemma LeastUnique(g: Graph, source: string, target: string, v: Walk, w: Walk)
    requires Least(g, source, target, v) && Least(g, source, target, w)
    ensures v == w
  {
    if v != w {
      LessTransitive(v, w, v);
      LessIrreflexive(v);
    }
  }

  lemma LessThanExtension(a: Walk, w: Walk)
    requires w != [] && (a == Init(w) || Less(a, Init(w)))
    ensures Less(a, w)
  {
  }

  lemma LastStep(g: Graph, source: string, w: Walk)
    requires Follow(g, source, w).Some? && w != []
    ensures w == Init(w) + [Last(w)] && Follow(g, source, Init(w)).Some?
    ensures var edges := g.EdgesFrom(Follow(g, source, Init(w)).value);
            Last(w) < |edges| && edges[Last(w)].target == Follow(g, source, w).value
  {
  }

  lemma FollowExtend(g: Graph, source: string, w: Walk, k: nat)
    requires Follow(g, source, w).Some?
    ensures Init(w + [k]) == w && Last(w + [k]) == k
    ensures var edges := g.EdgesFrom(Follow(g, source, w).value);
            Follow(g, source, w + [k]) == if k < |edges| then Some(edges[k].target) else None
  {
    assert Init(w + [k]) == w;
  }

  /** Optimal substructure: cutting the last step off a least walk leaves a least walk. */
  lemma LeastInit(g: Graph, source: string, target: string, w: Walk)
    requires Least(g, source, target, w) && w != []
    ensures Follow(g, source, Init(w)).Some?
    ensures Least(g, source, Follow(g, source, Init(w)).value, Init(w))
  {
    var middle := Follow(g, source, Init(w)).value;
    forall v | Follow(g, source, v) == Some(middle)
      ensures Init(w) == v || Less(Init(w), v)
    {
      FollowExtend(g, source, v, Last(w));
      var other := v + [Last(w)];
      assert w == Init(w) + [Last(w)];
      assert w == other || Less(w, other);
    }
  }

  lemma {:induction false} LeastPrefix(g: Graph, source: string, target: string, w: Walk, n: nat)
    requires Least(g, source, target, w) && n <= |w|
    ensures Follow(g, source, w[..n]).Some?
    ensures Least(g, source, Follow(g, source, w[..n]).value, w[..n])
    decreases |w|
  {
    if n == |w| {
      assert w[..n] == w;
    } else {
      LeastInit(g, source, target, w);
      assert Init(w)[..n] == w[..n];
      LeastPrefix(g, source, Follow(g, source, Init(w)).value, Init(w), n);
    }
  }

  /** A least walk never comes back to its own source. */
  lemma LeastToSourceIsEmpty(g: Graph, source: string, w: Walk)
    requires Least(g, source, source, w)
    ensures w == []
  {
    assert Follow(g, source, []) == Some(source);
  }

  // ----- shortlex is well founded: a table that can be reached at all has a least walk

  lemma {:induction false} LeastNat(p: nat -> bool, n: nat) returns (m: nat)
    requires p(n)
    ensures p(m) && forall k: nat :: p(k) ==> m <= k
    decreases n
  {
    m := n;
    if k: nat :| p(k) && k < n {
      m := LeastNat(p, k);
    }
  }

  lemma {:induction false} LeastOfLength(p: Walk -> bool, w: Walk) returns (m: Walk)
    requires p(w)
    ensures |m| == |w| && p(m)
    ensures forall v :: |v| == |w| && p(v) ==> m == v || Less(m, v)
    decreases |w|
  {
    if w == [] {
      m := [];
    } else {
      var extendable := (u: Walk) => exists j: nat :: p(u + [j]);
      assert w == Init(w) + [Last(w)];
      var front := LeastOfLength(extendable, Init(w));
      var step :| p(front + [step]);
      var continues := (j: nat) => p(front + [j]);
      var last := LeastNat(continues, step);
      m := front + [last];
      assert Init(m) == front;
      forall v | |v| == |w| && p(v)
        ensures m == v || Less(m, v)
      {
        assert v == Init(v) + [Last(v)];
        assert p(Init(v) + [Last(v)]);
        assert extendable(Init(v));
        assert front == Init(v) || Less(front, Init(v));
        assert front == Init(v) ==> continues(Last(v));
      }
    }
  }

  lemma LeastExists(g: Graph, source: string, target: string, w: Walk) returns (m: Walk)
    requires Follow(g, source, w) == Some(target)
    ensures Least(g, source, target, m)
  {
    var leads := (v: Walk) => Follow(g, source, v) == Some(target);
    var hasLength := (n: nat) => exists v :: |v| == n && leads(v);
    assert hasLength(|w|);
    var n := LeastNat(hasLength, |w|);
    var shortest: Walk :| |shortest| == n && leads(shortest);
    m := LeastOfLength(leads, shortest);
    forall v | Follow(g, source, v) == Some(target)
      ensures m == v || Less(m, v)
    {
      assert hasLength(|v|);
    }
  }

  // ----- chains: the same walks seen as edges, with no mention of indices

  ghost predicate IsChain(g: Graph, source: string, target: string, path: seq<Edge>)
    decreases |path|
  {
    if path == [] then source == target
    else
      var last := path[|path| - 1];
      && last in g.EdgesFrom(last.source)
      && last.target == target
      && IsChain(g, source, last.source, path[..|path| - 1])
  }

  lemma {:induction false} WalkIsChain(g: Graph, source: string, w: Walk)
    requires Follow(g, source, w).Some?
    ensures IsChain(g, source, Follow(g, source, w).value, Edges(g, source, w))
    decreases |w|
  {
    if w != [] {
      WalkIsChain(g, source, Init(w));
      assert Edges(g, source, w)[..|w| - 1] == Edges(g, source, Init(w));
    }
  }

  lemma {:induction false} ChainIsWalk(g: Graph, source: string, target: string, path: seq<Edge>) returns (w: Walk)
    requires IsChain(g, source, target, path)
    ensures Follow(g, source, w) == Some(target) && Edges(g, source, w) == path
    decreases |path|
  {
    if path == [] {
      w := [];
    } else {
      var last := path[|path| - 1];
      var v := ChainIsWalk(g, source, last.source, path[..|path| - 1]);
      var k :| 0 <= k < |g.EdgesFrom(last.source)| && g.EdgesFrom(last.source)[k] == last;
      FollowExtend(g, source, v, k);
      w := v + [k];
    }
  }
}
