/** Splitting a text at a separator, and the paths above it. */
module Paths {
  import opened Wrappers

  function Split<T(==)>(s: seq<T>, sep: T): (r: seq<seq<T>>)
    ensures r != []
  {
    if s == [] then [[]]
    else
      var rest := Split(s[1..], sep);
      if s[0] == sep then [[]] + rest else [[s[0]] + rest[0]] + rest[1..]
  }

  function Join<T>(p: seq<seq<T>>, sep: T): seq<T>
    requires p != []
  {
    if |p| == 1 then p[0] else p[0] + [sep] + Join(p[1..], sep)
  }

  /** No part contains the separator. */
  ghost predicate Parts<T>(p: seq<seq<T>>, sep: T) {
    p != [] && forall i :: 0 <= i < |p| ==> sep !in p[i]
  }

  lemma {:induction false} SplitParts<T>(s: seq<T>, sep: T)
    ensures Parts(Split(s, sep), sep) && Join(Split(s, sep), sep) == s
  {
    if s != [] {
      SplitParts(s[1..], sep);
      var rest := Split(s[1..], sep);
      if s[0] == sep {
        PartsAfter(rest, sep);
      } else {
        PartsLonger(s[0], rest, sep);
      }
      assert s == [s[0]] + s[1..];
    }
  }

  lemma PartsAfter<T>(rest: seq<seq<T>>, sep: T)
    requires Parts(rest, sep)
    ensures Parts([[]] + rest, sep) && Join([[]] + rest, sep) == [sep] + Join(rest, sep)
  {
    assert ([[]] + rest)[1..] == rest;
    assert [] + [sep] + Join(rest, sep) == [sep] + Join(rest, sep);
  }

  lemma PartsLonger<T>(c: T, rest: seq<seq<T>>, sep: T)
    requires Parts(rest, sep) && c != sep
    ensures Parts([[c] + rest[0]] + rest[1..], sep)
    ensures Join([[c] + rest[0]] + rest[1..], sep) == [c] + Join(rest, sep)
  {
    var r := [[c] + rest[0]] + rest[1..];
    assert r[1..] == rest[1..];
    if |rest| > 1 {
      assert [c] + (rest[0] + [sep] + Join(rest[1..], sep)) == r[0] + [sep] + Join(r[1..], sep);
    }
  }

  lemma {:induction false} SplitPlain<T>(s: seq<T>, sep: T)
    requires sep !in s
    ensures Split(s, sep) == [s]
  {
    if s != [] {
      assert s[0] in s;
      SplitPlain(s[1..], sep);
      assert [s[0]] + s[1..] == s;
    }
  }

  lemma {:induction false} SplitAt<T>(a: seq<T>, b: seq<T>, sep: T)
    ensures Split(a + [sep] + b, sep) == Split(a, sep) + Split(b, sep)
  {
    var s := a + [sep] + b;
    if a == [] {
      assert s[1..] == b && s[0] == sep;
    } else {
      assert s[1..] == a[1..] + [sep] + b && s[0] == a[0];
      SplitAt(a[1..], b, sep);
      if a[0] == sep {
        PartBefore(Split(a[1..], sep), Split(b, sep));
      } else {
        LongerPart(a[0], Split(a[1..], sep), Split(b, sep));
      }
    }
  }

  lemma PartBefore<T>(x: seq<seq<T>>, y: seq<seq<T>>)
    ensures [[]] + (x + y) == ([[]] + x) + y
  {
  }

  lemma LongerPart<T>(c: T, x: seq<seq<T>>, y: seq<seq<T>>)
    requires x != []
    ensures [[c] + (x + y)[0]] + (x + y)[1..] == ([[c] + x[0]] + x[1..]) + y
  {
    assert (x + y)[0] == x[0] && (x + y)[1..] == x[1..] + y;
  }

  lemma {:induction false} SplitJoin<T>(p: seq<seq<T>>, sep: T)
    requires Parts(p, sep)
    ensures Split(Join(p, sep), sep) == p
  {
    SplitPlain(p[0], sep);
    if |p| > 1 {
      assert Parts(p[1..], sep);
      SplitJoin(p[1..], sep);
      SplitAt(p[0], Join(p[1..], sep), sep);
    }
  }

  lemma SplitInjective<T>(s: seq<T>, t: seq<T>, sep: T)
    requires Split(s, sep) == Split(t, sep)
    ensures s == t
  {
    SplitParts(s, sep);
    SplitParts(t, sep);
  }

  /** Everything before the last separator. */
  function Parent<T(==)>(s: seq<T>, sep: T): (r: Option<seq<T>>)
    ensures r.None? <==> sep !in s
    ensures r.Some? ==>
      |r.value| < |s| && s[..|r.value|] == r.value && s[|r.value|] == sep && sep !in s[|r.value| + 1..]
  {
    if s == [] then None
    else if s[|s| - 1] == sep then Some(s[..|s| - 1])
    else
      var up := Parent(s[..|s| - 1], sep);
      if up.Some? then
        assert s[..|s| - 1][|up.value| + 1..] + [s[|s| - 1]] == s[|up.value| + 1..];
        up
      else
        assert s == s[..|s| - 1] + [s[|s| - 1]];
        None
  }

  lemma ParentDropsLast<T>(s: seq<T>, sep: T)
    ensures Parent(s, sep).Some? ==>
      |Split(s, sep)| > 1 && Split(Parent(s, sep).value, sep) == Split(s, sep)[..|Split(s, sep)| - 1]
    ensures Parent(s, sep).None? ==> |Split(s, sep)| == 1
  {
    var up := Parent(s, sep);
    if up.Some? {
      var last := s[|up.value| + 1..];
      assert s == up.value + [sep] + last;
      SplitAt(up.value, last, sep);
      SplitPlain(last, sep);
      assert (Split(up.value, sep) + [last])[..|Split(up.value, sep)|] == Split(up.value, sep);
    } else {
      SplitPlain(s, sep);
    }
  }

  ghost predicate ProperPrefix<T>(a: seq<T>, b: seq<T>) {
    |a| < |b| && b[..|a|] == a
  }

  /** The directories a file needs above it. */
  function Ancestors<T(==)>(s: seq<T>, sep: T): set<seq<T>>
    decreases |s|
  {
    match Parent(s, sep)
    case None => {}
    case Some(up) => {up} + Ancestors(up, sep)
  }

  lemma {:induction false} AncestorsArePrefixes<T>(s: seq<T>, sep: T, a: seq<T>)
    ensures a in Ancestors(s, sep) <==> ProperPrefix(Split(a, sep), Split(s, sep))
    decreases |s|
  {
    ParentDropsLast(s, sep);
    match Parent(s, sep) {
      case None =>
        assert |Split(a, sep)| >= 1;
      case Some(up) =>
        AncestorsArePrefixes(up, sep, a);
        var p, q, u := Split(s, sep), Split(a, sep), Split(up, sep);
        assert u == p[..|p| - 1];
        if q == u {
          SplitInjective(a, up, sep);
        }
        if ProperPrefix(q, p) && |q| < |u| {
          assert u[..|q|] == p[..|q|];
        }
        if ProperPrefix(q, u) {
          assert p[..|q|] == u[..|q|];
        }
    }
  }
}
