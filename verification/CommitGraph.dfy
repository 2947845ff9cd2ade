/** The commit graph: parents never change, so one graph holds every commit ever pushed. */
module CommitGraph {
  type Sha = string
  type Graph = map<Sha, set<Sha>>

  predicate IsPath(g: Graph, path: seq<Sha>, from: Sha, to: Sha) {
    && path != []
    && path[0] == from && path[|path| - 1] == to
    && forall i | 0 <= i < |path| - 1 :: path[i] in g && path[i + 1] in g[path[i]]
  }

  /** `to` is `from` or one of its ancestors. */
  ghost predicate Reaches(g: Graph, from: Sha, to: Sha) {
    exists path :: IsPath(g, path, from, to)
  }

  /** `commit` is what `from..head` adds. */
  ghost predicate InRange(g: Graph, from: Sha, head: Sha, commit: Sha) {
    Reaches(g, head, commit) && !Reaches(g, from, commit)
  }

  lemma ReachesSelf(g: Graph, a: Sha)
    ensures Reaches(g, a, a)
  {
    assert IsPath(g, [a], a, a);
  }

  lemma ReachesParent(g: Graph, a: Sha, b: Sha)
    requires a in g && b in g[a]
    ensures Reaches(g, a, b)
  {
    assert IsPath(g, [a, b], a, b);
  }

  lemma ReachesTransitive(g: Graph, a: Sha, b: Sha, c: Sha)
    requires Reaches(g, a, b) && Reaches(g, b, c)
    ensures Reaches(g, a, c)
  {
    var p :| IsPath(g, p, a, b);
    var q :| IsPath(g, q, b, c);
    var path := p + q[1..];
    forall i | 0 <= i < |path| - 1
      ensures path[i] in g && path[i + 1] in g[path[i]]
    {
      if i >= |p| - 1 {
        assert path[i] == q[i - (|p| - 1)] && path[i + 1] == q[i + 1 - (|p| - 1)];
      }
    }
    assert IsPath(g, path, a, c);
  }

  lemma {:induction false} PathStaysClosed(g: Graph, closed: set<Sha>, path: seq<Sha>, n: nat)
    requires n < |path| && IsPath(g, path, path[0], path[|path| - 1]) && path[0] in closed
    requires forall x, y | x in closed && x in g && y in g[x] :: y in closed
    ensures path[n] in closed
  {
    if n == 0 {
    } else {
      PathStaysClosed(g, closed, path, n - 1);
    }
  }

  /** A set closed under parents that holds `a` holds every ancestor of `a`. */
  lemma ClosedSetHoldsAncestors(g: Graph, closed: set<Sha>, a: Sha, b: Sha)
    requires a in closed && Reaches(g, a, b)
    requires forall x, y | x in closed && x in g && y in g[x] :: y in closed
    ensures b in closed
  {
    var path :| IsPath(g, path, a, b);
    PathStaysClosed(g, closed, path, |path| - 1);
  }
}
