/** Spans of bytes and the test that they cover a range without gap or overlap. */
module Tiling {
  /** Each span stands for the bytes from its key up to its value. */
  ghost predicate Inside(spans: map<nat, nat>, lo: nat, hi: nat) {
    forall s :: s in spans ==> lo <= s < spans[s] <= hi
  }

  ghost predicate Disjoint(spans: map<nat, nat>) {
    forall s, t :: s in spans && t in spans && s < t ==> spans[s] <= t
  }

  predicate Covers(spans: map<nat, nat>, s: nat, k: nat) {
    s in spans && s <= k < spans[s]
  }

  ghost predicate Covered(spans: map<nat, nat>, k: nat) {
    exists s :: Covers(spans, s, k)
  }

  ghost predicate CoveredBut(spans: map<nat, nat>, rest: set<nat>, k: nat) {
    exists s :: s !in rest && Covers(spans, s, k)
  }

  /** Every byte of the range belongs to exactly one span and no span leaves the range. */
  ghost predicate Partition(spans: map<nat, nat>, lo: nat, hi: nat) {
    Inside(spans, lo, hi) && Disjoint(spans) && forall k :: lo <= k < hi ==> Covered(spans, k)
  }

  /** The spans already walked fill the range up to the cursor, and the rest lie after them. */
  ghost predicate Walked(spans: map<nat, nat>, rest: set<nat>, lo: nat, cursor: nat) {
    && rest <= spans.Keys && lo <= cursor
    && (forall s :: s in spans && s !in rest ==> lo <= s < spans[s] <= cursor)
    && (forall s, t :: s in spans && s !in rest && t in rest ==> s < t)
    && (forall s, t :: s in spans && t in spans && s !in rest && t !in rest && s < t ==> spans[s] <= t)
    && (forall k :: lo <= k < cursor ==> CoveredBut(spans, rest, k))
  }

  lemma MisfitBreaksPartition(spans: map<nat, nat>, rest: set<nat>, lo: nat, hi: nat, cursor: nat, start: nat)
    requires Walked(spans, rest, lo, cursor) && start in rest && start < spans[start]
    requires forall t :: t in rest ==> start <= t
    requires start != cursor
    ensures !Partition(spans, lo, hi)
  {
    if start > cursor {
      assert !Covered(spans, cursor);
    } else {
      assert lo <= start ==> CoveredBut(spans, rest, start);
    }
  }

  lemma WalkOne(spans: map<nat, nat>, rest: set<nat>, lo: nat, cursor: nat)
    requires Walked(spans, rest, lo, cursor) && cursor in rest && cursor < spans[cursor]
    requires forall t :: t in rest ==> cursor <= t
    ensures Walked(spans, rest - {cursor}, lo, spans[cursor])
  {
    var r, c := rest - {cursor}, spans[cursor];
    forall k | lo <= k < c ensures CoveredBut(spans, r, k) {
      if k < cursor {
        assert CoveredBut(spans, rest, k);
        var s :| s !in rest && Covers(spans, s, k);
      } else {
        assert cursor !in r && Covers(spans, cursor, k);
      }
    }
  }

  lemma WalkEnds(spans: map<nat, nat>, lo: nat, hi: nat, cursor: nat)
    requires Walked(spans, {}, lo, cursor) && lo <= hi
    ensures Partition(spans, lo, hi) <==> cursor == hi
  {
    if cursor == hi {
      forall k | lo <= k < hi ensures Covered(spans, k) {
        assert CoveredBut(spans, {}, k);
        var s :| s !in {} && Covers(spans, s, k);
      }
    } else if cursor < hi {
      assert forall s :: !Covers(spans, s, cursor);
      assert !Covered(spans, cursor);
    } else {
      assert lo <= hi < cursor;
      assert CoveredBut(spans, {}, hi);
      var s :| s !in {} && Covers(spans, s, hi);
      assert spans[s] > hi;
    }
  }

  /** Walk the spans in ascending order with a cursor; each must start where the last one stopped. */
  method CheckTiles(spans: map<nat, nat>, lo: nat, hi: nat) returns (ok: bool)
    requires lo <= hi && forall s :: s in spans ==> s < spans[s]
    ensures ok <==> Partition(spans, lo, hi)
  {
    var cursor := lo;
    var rest := spans.Keys;
    while rest != {}
      invariant Walked(spans, rest, lo, cursor)
      decreases rest
    {
      var start := Least(rest);
      if start != cursor {
        MisfitBreaksPartition(spans, rest, lo, hi, cursor, start);
        return false;
      }
      WalkOne(spans, rest, lo, cursor);
      rest := rest - {start};
      cursor := spans[start];
    }
    WalkEnds(spans, lo, hi, cursor);
    ok := cursor == hi;
  }

  /** The next key of an ordered map. */
  method Least(s: set<nat>) returns (m: nat)
    requires s != {}
    ensures m in s && forall k :: k in s ==> m <= k
  {
    m :| m in s;
    var rest := s - {m};
    while rest != {}
      invariant rest <= s && m in s && forall k :: k in s && k !in rest ==> m <= k
      decreases rest
    {
      var k :| k in rest;
      rest := rest - {k};
      if k < m { m := k; }
    }
  }
}
