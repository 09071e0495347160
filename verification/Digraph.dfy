/** Finite directed graphs given by their successor sets: paths, reachability and
    cycles. Used for package dependencies, by name, by identity and by release. */
module Digraph {
  ghost predicate Edge<T(!new)>(g: map<T, set<T>>, a: T, b: T) {
    a in g && b in g[a]
  }

  ghost predicate IsPath<T(!new)>(g: map<T, set<T>>, p: seq<T>) {
    |p| > 0 && forall i :: 0 <= i < |p| - 1 ==> Edge(g, p[i], p[i + 1])
  }

  ghost predicate IsPathBetween<T(!new)>(g: map<T, set<T>>, p: seq<T>, a: T, b: T) {
    IsPath(g, p) && p[0] == a && p[|p| - 1] == b
  }

  ghost predicate Reaches<T(!new)>(g: map<T, set<T>>, a: T, b: T) {
    exists p :: IsPathBetween(g, p, a, b)
  }

  /** No path of at least one edge comes back to where it started. */
  ghost predicate Acyclic<T(!new)>(g: map<T, set<T>>) {
    forall p :: IsPath(g, p) && |p| >= 2 ==> p[0] != p[|p| - 1]
  }

  ghost predicate ClosedUnder<T(!new)>(g: map<T, set<T>>, s: set<T>) {
    forall a, b :: a in s && Edge(g, a, b) ==> b in s
  }

  lemma ReachesSelf<T(!new)>(g: map<T, set<T>>, a: T)
    ensures Reaches(g, a, a)
  {
    assert IsPathBetween(g, [a], a, a);
  }

  lemma PathsCompose<T(!new)>(g: map<T, set<T>>, p: seq<T>, q: seq<T>)
    requires IsPath(g, p) && IsPath(g, q) && p[|p| - 1] == q[0]
    ensures IsPathBetween(g, p + q[1..], p[0], q[|q| - 1])
  {
    var r := p + q[1..];
    forall i | 0 <= i < |r| - 1
      ensures Edge(g, r[i], r[i + 1])
    {
      if i >= |p| - 1 {
        assert r[i] == q[i - (|p| - 1)] && r[i + 1] == q[i + 1 - (|p| - 1)];
      }
    }
  }

  lemma ReachesTrans<T(!new)>(g: map<T, set<T>>, a: T, b: T, c: T)
    requires Reaches(g, a, b) && Reaches(g, b, c)
    ensures Reaches(g, a, c)
  {
    var p :| IsPathBetween(g, p, a, b);
    var q :| IsPathBetween(g, q, b, c);
    PathsCompose(g, p, q);
  }

  lemma ReachesEdge<T(!new)>(g: map<T, set<T>>, a: T, b: T)
    requires Edge(g, a, b)
    ensures Reaches(g, a, b)
  {
    assert IsPathBetween(g, [a, b], a, b);
  }

  /** An edge back to a node that reaches its source closes a cycle. */
  lemma BackEdgeIsCycle<T(!new)>(g: map<T, set<T>>, a: T, b: T)
    requires Edge(g, a, b) && Reaches(g, b, a)
    ensures !Acyclic(g)
  {
    var q :| IsPathBetween(g, q, b, a);
    assert IsPath(g, [a, b]);
    PathsCompose(g, [a, b], q);
    var r := [a, b] + q[1..];
    assert IsPath(g, r) && |r| >= 2 && r[0] == r[|r| - 1];
  }

  lemma {:induction false} ClosedKeepsPaths<T(!new)>(g: map<T, set<T>>, s: set<T>, p: seq<T>)
    requires ClosedUnder(g, s) && IsPath(g, p) && p[0] in s
    ensures p[|p| - 1] in s
  {
    if |p| > 1 {
      assert Edge(g, p[0], p[1]);
      var q := p[1..];
      assert IsPath(g, q) by {
        forall i | 0 <= i < |q| - 1 ensures Edge(g, q[i], q[i + 1]) {
          assert Edge(g, p[i + 1], p[i + 2]);
        }
      }
      ClosedKeepsPaths(g, s, q);
    }
  }

  lemma ClosedContainsReachable<T(!new)>(g: map<T, set<T>>, s: set<T>, a: T, b: T)
    requires ClosedUnder(g, s) && a in s && Reaches(g, a, b)
    ensures b in s
  {
    var p :| IsPathBetween(g, p, a, b);
    ClosedKeepsPaths(g, s, p);
  }

  lemma FewerEdgesStayAcyclic<T(!new)>(g: map<T, set<T>>, h: map<T, set<T>>)
    requires Acyclic(g)
    requires forall a, b :: Edge(h, a, b) ==> Edge(g, a, b)
    ensures Acyclic(h)
  {
    forall p | IsPath(h, p) && |p| >= 2
      ensures p[0] != p[|p| - 1]
    {
      assert IsPath(g, p);
    }
  }

  lemma FirstEdge<T(!new)>(g: map<T, set<T>>, p: seq<T>)
    requires IsPath(g, p)
    ensures |p| >= 2 ==> Edge(g, p[0], p[1])
  {
  }

  lemma NoEdgesIsAcyclic<T(!new)>(g: map<T, set<T>>)
    requires forall a, b :: !Edge(g, a, b)
    ensures Acyclic(g)
  {
    forall p | IsPath(g, p) ensures |p| < 2 {
      FirstEdge(g, p);
    }
  }

  /** Adding one edge gives only paths that existed before, or that pass through it. */
  lemma {:induction false} PathsWithNewEdge<T(!new)>(g: map<T, set<T>>, h: map<T, set<T>>, a: T, b: T, p: seq<T>)
    requires forall x, y :: Edge(h, x, y) ==> Edge(g, x, y) || (x == a && y == b)
    requires IsPath(h, p)
    ensures Reaches(g, p[0], p[|p| - 1]) || (Reaches(g, p[0], a) && Reaches(g, b, p[|p| - 1]))
  {
    if |p| == 1 {
      ReachesSelf(g, p[0]);
    } else {
      assert Edge(h, p[0], p[1]);
      var q := p[1..];
      assert IsPath(h, q) by {
        forall i | 0 <= i < |q| - 1 ensures Edge(h, q[i], q[i + 1]) {
          assert Edge(h, p[i + 1], p[i + 2]);
        }
      }
      PathsWithNewEdge(g, h, a, b, q);
      if Edge(g, p[0], p[1]) {
        ReachesEdge(g, p[0], p[1]);
        if Reaches(g, p[1], p[|p| - 1]) {
          ReachesTrans(g, p[0], p[1], p[|p| - 1]);
        } else {
          ReachesTrans(g, p[0], p[1], a);
        }
      } else {
        ReachesSelf(g, a);
      }
    }
  }

  /** A new edge keeps an acyclic graph acyclic exactly when its end does not reach its start. */
  lemma NewEdgeKeepsAcyclic<T(!new)>(g: map<T, set<T>>, h: map<T, set<T>>, a: T, b: T)
    requires Acyclic(g)
    requires forall x, y :: Edge(h, x, y) <==> Edge(g, x, y) || (x == a && y == b)
    ensures Acyclic(h) <==> !Reaches(g, b, a)
  {
    if Reaches(g, b, a) {
      var p :| IsPathBetween(g, p, b, a);
      assert IsPathBetween(h, p, b, a);
      BackEdgeIsCycle(h, a, b);
    } else {
      forall p | IsPath(h, p) && |p| >= 2
        ensures p[0] != p[|p| - 1]
      {
        if p[0] == p[|p| - 1] {
          assert Edge(h, p[0], p[1]);
          var q := p[1..];
          assert IsPath(h, q) by {
            forall i | 0 <= i < |q| - 1 ensures Edge(h, q[i], q[i + 1]) {
              assert Edge(h, p[i + 1], p[i + 2]);
            }
          }
          PathsWithNewEdge(g, h, a, b, q);
          if Edge(g, p[0], p[1]) {
            if Reaches(g, p[1], p[0]) {
              BackEdgeIsCycle(g, p[0], p[1]);
            } else {
              ReachesEdge(g, p[0], p[1]);
              ReachesTrans(g, b, p[0], p[1]);
              ReachesTrans(g, b, p[1], a);
            }
            assert false;
          }
        }
      }
    }
  }

  /** Whether a node is reached does not depend on the edges that leave it. */
  lemma ReachIgnoresEdgesOfGoal<T(!new)>(g: map<T, set<T>>, h: map<T, set<T>>, a: T, goal: T)
    requires forall x, y :: x != goal ==> (Edge(g, x, y) <==> Edge(h, x, y))
    ensures Reaches(g, a, goal) <==> Reaches(h, a, goal)
  {
    if Reaches(g, a, goal) {
      var p :| IsPathBetween(g, p, a, goal);
      var q := PathToFirst(g, h, p, goal);
    }
    if Reaches(h, a, goal) {
      var p :| IsPathBetween(h, p, a, goal);
      var q := PathToFirst(h, g, p, goal);
    }
  }

  lemma {:induction false} PathToFirst<T(!new)>(g: map<T, set<T>>, h: map<T, set<T>>, p: seq<T>, goal: T)
    returns (q: seq<T>)
    requires forall x, y :: x != goal ==> (Edge(g, x, y) <==> Edge(h, x, y))
    requires IsPath(g, p) && p[|p| - 1] == goal
    ensures IsPathBetween(h, q, p[0], goal)
  {
    if p[0] == goal {
      q := [goal];
    } else {
      assert Edge(g, p[0], p[1]);
      var rest := p[1..];
      assert IsPath(g, rest) by {
        forall i | 0 <= i < |rest| - 1 ensures Edge(g, rest[i], rest[i + 1]) {
          assert Edge(g, p[i + 1], p[i + 2]);
        }
      }
      var tail := PathToFirst(g, h, rest, goal);
      assert IsPath(h, [p[0], p[1]]);
      PathsCompose(h, [p[0], p[1]], tail);
      q := [p[0], p[1]] + tail[1..];
    }
  }

  ghost predicate Distinct<T(!new)>(s: seq<T>) {
    forall i, j :: 0 <= i < j < |s| ==> s[i] != s[j]
  }

  lemma {:induction false} DistinctSize<T(!new)>(p: seq<T>, s: set<T>)
    requires Distinct(p) && forall x :: x in p ==> x in s
    ensures |p| <= |s|
  {
    if p != [] {
      var last := p[|p| - 1];
      var q := p[..|p| - 1];
      assert last !in q;
      assert forall x :: x in q ==> x in p;
      DistinctSize(q, s - {last});
    }
  }

  ghost predicate HasSuccessorIn<T(!new)>(g: map<T, set<T>>, s: set<T>, a: T) {
    exists b :: b in s && Edge(g, a, b)
  }

  /** In a nonempty finite set whose members all have a successor inside it, some path returns. */
  lemma SuccessorsInsideMakeCycle<T(!new)>(g: map<T, set<T>>, s: set<T>)
    requires s != {}
    requires forall a {:trigger HasSuccessorIn(g, s, a)} :: a in s ==> HasSuccessorIn(g, s, a)
    ensures !Acyclic(g)
  {
    var a :| a in s;
    WalkUntilRepeat(g, s, [a]);
  }

  lemma WalkUntilRepeat<T(!new)>(g: map<T, set<T>>, s: set<T>, p: seq<T>)
    requires forall a {:trigger HasSuccessorIn(g, s, a)} :: a in s ==> HasSuccessorIn(g, s, a)
    requires IsPath(g, p) && Distinct(p) && forall x :: x in p ==> x in s
    ensures !Acyclic(g)
    decreases |s| + 1 - |p|
  {
    DistinctSize(p, s);
    var last := p[|p| - 1];
    assert HasSuccessorIn(g, s, last);
    var b :| b in s && Edge(g, last, b);
    if b in p {
      var i :| 0 <= i < |p| && p[i] == b;
      var q := p[i..];
      assert IsPathBetween(g, q, b, last) by {
        forall k | 0 <= k < |q| - 1 ensures Edge(g, q[k], q[k + 1]) {
          assert Edge(g, p[i + k], p[i + k + 1]);
        }
      }
      BackEdgeIsCycle(g, last, b);
    } else {
      var q := p + [b];
      forall k | 0 <= k < |q| - 1 ensures Edge(g, q[k], q[k + 1]) {
        if k < |p| - 1 {
          assert Edge(g, p[k], p[k + 1]);
        }
      }
      WalkUntilRepeat(g, s, q);
    }
  }
}
