/**
 * The bid ledger of src/App.tsx: the `Bid` record and the re-sort the ledger
 * undergoes on every insertion, `[...prev, newBid].sort((a, b) => a.timestamp - b.timestamp)`.
 * `Array.prototype.sort` is stable, so the sort is modelled as a stable
 * insertion sort on the timestamp key.
 */
module Ledger {

  /** One recorded bid. `price` is already rounded to hundredths when the bid is made. */
  datatype Bid = Bid(id: string, wallet: string, price: real, timestamp: int, slot: int)

  /** Ascending by timestamp. */
  predicate Sorted(s: seq<Bid>)
  {
    forall i, j | 0 <= i < j < |s| :: s[i].timestamp <= s[j].timestamp
  }

  /** The bids of `s` with timestamp `t`, in their order in `s`. */
  function WithTimestamp(s: seq<Bid>, t: int): seq<Bid>
  {
    if s == [] then []
    else (if s[0].timestamp == t then [s[0]] else []) + WithTimestamp(s[1..], t)
  }

  /**
   * `b` placed before the first bid with a later timestamp; in a sorted
   * ledger that is after every bid with the same or an earlier timestamp.
   */
  function Insert(b: Bid, s: seq<Bid>): (r: seq<Bid>)
    ensures |r| == |s| + 1
  {
    if s == [] then [b]
    else if b.timestamp < s[0].timestamp then [b] + s
    else [s[0]] + Insert(b, s[1..])
  }

  /** The stable sort by timestamp: insert each bid, in order, into the sorted prefix before it. */
  function SortByTimestamp(s: seq<Bid>): (r: seq<Bid>)
    ensures |r| == |s|
  {
    if s == [] then []
    else Insert(s[|s| - 1], SortByTimestamp(s[..|s| - 1]))
  }

  /** The ledger after an insertion: append, then re-sort. */
  function Submit(ledger: seq<Bid>, b: Bid): (r: seq<Bid>)
    ensures |r| == |ledger| + 1
  {
    SortByTimestamp(ledger + [b])
  }

  // ---------------------------------------------------------------- Insert

  /** Every bid of the insertion is `b` or a bid of `s`. */
  lemma {:induction false} InsertFrom(b: Bid, s: seq<Bid>)
    ensures forall x | x in Insert(b, s) :: x == b || x in s
  {
    if s != [] && b.timestamp >= s[0].timestamp {
      InsertFrom(b, s[1..]);
    }
  }

  lemma {:induction false} InsertMultiset(b: Bid, s: seq<Bid>)
    ensures multiset(Insert(b, s)) == multiset(s) + multiset{b}
    ensures |Insert(b, s)| == |s| + 1
  {
    if s != [] && b.timestamp >= s[0].timestamp {
      InsertMultiset(b, s[1..]);
      assert s == [s[0]] + s[1..];
    }
  }

  /** Dropping the first bid of a sorted ledger leaves it sorted. */
  lemma SortedTail(s: seq<Bid>)
    requires Sorted(s) && s != []
    ensures Sorted(s[1..])
  {
    var tail := s[1..];
    forall i, j | 0 <= i < j < |tail| ensures tail[i].timestamp <= tail[j].timestamp {
      assert tail[i] == s[i + 1] && tail[j] == s[j + 1];
    }
  }

  lemma {:induction false} InsertSorted(b: Bid, s: seq<Bid>)
    requires Sorted(s)
    ensures Sorted(Insert(b, s))
  {
    if s == [] {
    } else if b.timestamp < s[0].timestamp {
      var r := [b] + s;
      forall i, j | 0 <= i < j < |r| ensures r[i].timestamp <= r[j].timestamp {
        if i > 0 {
          assert r[i] == s[i - 1] && r[j] == s[j - 1];
        } else {
          assert r[j] == s[j - 1];
          assert s[0].timestamp <= s[j - 1].timestamp;
        }
      }
    } else {
      var tail := s[1..];
      SortedTail(s);
      InsertSorted(b, tail);
      InsertFrom(b, tail);
      var u := Insert(b, tail);
      var r := [s[0]] + u;
      forall i, j | 0 <= i < j < |r| ensures r[i].timestamp <= r[j].timestamp {
        if i > 0 {
          assert r[i] == u[i - 1] && r[j] == u[j - 1];
        } else {
          assert r[j] == u[j - 1];
          assert u[j - 1] in u;
          if u[j - 1] != b {
            var k :| 0 <= k < |tail| && tail[k] == u[j - 1];
            assert tail[k] == s[k + 1];
          }
        }
      }
    }
  }

  lemma InsertFacts(b: Bid, s: seq<Bid>)
    requires Sorted(s)
    ensures Sorted(Insert(b, s))
    ensures multiset(Insert(b, s)) == multiset(s) + multiset{b}
    ensures |Insert(b, s)| == |s| + 1
  {
    InsertSorted(b, s);
    InsertMultiset(b, s);
  }

  lemma {:induction false} WithTimestampAppend(s: seq<Bid>, u: seq<Bid>, t: int)
    ensures WithTimestamp(s + u, t) == WithTimestamp(s, t) + WithTimestamp(u, t)
  {
    if s == [] {
      assert s + u == u;
    } else {
      var head := if s[0].timestamp == t then [s[0]] else [];
      assert (s + u)[0] == s[0] && (s + u)[1..] == s[1..] + u;
      assert WithTimestamp(s + u, t) == head + WithTimestamp(s[1..] + u, t);
      WithTimestampAppend(s[1..], u, t);
      assert WithTimestamp(s, t) == head + WithTimestamp(s[1..], t);
    }
  }

  lemma {:induction false} WithTimestampNone(s: seq<Bid>, t: int)
    requires forall k | 0 <= k < |s| :: s[k].timestamp != t
    ensures WithTimestamp(s, t) == []
  {
    if s != [] {
      WithTimestampNone(s[1..], t);
    }
  }

  lemma WithTimestampHead(s: seq<Bid>)
    ensures s != [] ==> WithTimestamp(s, s[0].timestamp) != []
  {
  }

  /** Inserting into a sorted ledger adds `b` at the end of its own timestamp group only. */
  lemma {:induction false} InsertStable(b: Bid, s: seq<Bid>, t: int)
    requires Sorted(s)
    ensures WithTimestamp(Insert(b, s), t) == WithTimestamp(s, t) + (if b.timestamp == t then [b] else [])
  {
    var g := if b.timestamp == t then [b] else [];
    if s == [] {
      assert Insert(b, s) == [b] && [b][1..] == [];
      assert WithTimestamp([b], t) == g + WithTimestamp([], t);
    } else if b.timestamp < s[0].timestamp {
      var r := [b] + s;
      assert Insert(b, s) == r && r[0] == b && r[1..] == s;
      assert WithTimestamp(r, t) == g + WithTimestamp(s, t);
      if b.timestamp == t {
        assert forall k | 0 <= k < |s| :: s[0].timestamp <= s[k].timestamp;
        WithTimestampNone(s, t);
      }
    } else {
      var tail := s[1..];
      var f := if s[0].timestamp == t then [s[0]] else [];
      SortedTail(s);
      InsertStable(b, tail, t);
      var r := [s[0]] + Insert(b, tail);
      assert Insert(b, s) == r && r[0] == s[0] && r[1..] == Insert(b, tail);
      assert WithTimestamp(r, t) == f + WithTimestamp(Insert(b, tail), t);
      assert WithTimestamp(s, t) == f + WithTimestamp(tail, t);
    }
  }

  // ---------------------------------------------------------------- SortByTimestamp

  lemma {:induction false} SortSorted(s: seq<Bid>)
    ensures Sorted(SortByTimestamp(s))
  {
    if s != [] {
      SortSorted(s[..|s| - 1]);
      InsertSorted(s[|s| - 1], SortByTimestamp(s[..|s| - 1]));
    }
  }

  lemma {:induction false} SortPermutation(s: seq<Bid>)
    ensures multiset(SortByTimestamp(s)) == multiset(s)
    ensures |SortByTimestamp(s)| == |s|
  {
    if s != [] {
      var init := s[..|s| - 1];
      SortPermutation(init);
      InsertMultiset(s[|s| - 1], SortByTimestamp(init));
      assert s == init + [s[|s| - 1]];
    }
  }

  /** The sort yields a sorted permutation of its input. */
  lemma SortSortedPermutation(s: seq<Bid>)
    ensures Sorted(SortByTimestamp(s))
    ensures multiset(SortByTimestamp(s)) == multiset(s)
    ensures |SortByTimestamp(s)| == |s|
  {
    SortSorted(s);
    SortPermutation(s);
  }

  lemma WithTimestampSnoc(init: seq<Bid>, last: Bid, t: int)
    ensures WithTimestamp(init + [last], t) == WithTimestamp(init, t) + (if last.timestamp == t then [last] else [])
  {
    WithTimestampAppend(init, [last], t);
    assert [last][1..] == [];
  }

  /** The sort is stable: within each timestamp the bids keep their input order. */
  lemma {:induction false} SortStable(s: seq<Bid>, t: int)
    ensures WithTimestamp(SortByTimestamp(s), t) == WithTimestamp(s, t)
  {
    if s != [] {
      var init, last := s[..|s| - 1], s[|s| - 1];
      var sorted := SortByTimestamp(init);
      SortStable(init, t);
      SortSorted(init);
      InsertStable(last, sorted, t);
      assert s == init + [last];
      WithTimestampSnoc(init, last, t);
    }
  }

  /**
   * Sortedness and per-timestamp order determine a sequence: two sorted
   * ledgers that agree on every timestamp group are equal.
   */
  lemma {:induction false} SortedGroupsDetermine(r1: seq<Bid>, r2: seq<Bid>)
    requires Sorted(r1) && Sorted(r2)
    requires forall t :: WithTimestamp(r1, t) == WithTimestamp(r2, t)
    ensures r1 == r2
    decreases |r1| + |r2|
  {
    if r1 != [] && r2 != [] {
      var m1, m2 := r1[0].timestamp, r2[0].timestamp;
      if m1 < m2 {
        WithTimestampNone(r2, m1);
        assert false;
      }
      if m2 < m1 {
        WithTimestampNone(r1, m2);
        assert false;
      }
      assert r1[0] == WithTimestamp(r1, m1)[0] == WithTimestamp(r2, m1)[0] == r2[0];
      forall t ensures WithTimestamp(r1[1..], t) == WithTimestamp(r2[1..], t) {
        var g1, g2 := WithTimestamp(r1[1..], t), WithTimestamp(r2[1..], t);
        assert WithTimestamp(r1, t) == WithTimestamp(r2, t);
        if m1 == t {
          assert WithTimestamp(r1, t) == [r1[0]] + g1;
          assert WithTimestamp(r2, t) == [r1[0]] + g2;
          assert g1 == ([r1[0]] + g1)[1..];
          assert g2 == ([r1[0]] + g2)[1..];
        } else {
          assert WithTimestamp(r1, t) == [] + g1 == g1;
          assert WithTimestamp(r2, t) == [] + g2 == g2;
        }
      }
      SortedGroupsDetermine(r1[1..], r2[1..]);
      assert r1 == [r1[0]] + r1[1..] && r2 == [r2[0]] + r2[1..];
    } else {
      WithTimestampHead(r1);
      WithTimestampHead(r2);
    }
  }

  /** The sort is THE stable sort: any sorted ledger keeping each timestamp group's order is its result. */
  lemma SortUnique(s: seq<Bid>, r: seq<Bid>)
    requires Sorted(r)
    requires forall t :: WithTimestamp(r, t) == WithTimestamp(s, t)
    ensures r == SortByTimestamp(s)
  {
    SortSortedPermutation(s);
    forall t ensures WithTimestamp(r, t) == WithTimestamp(SortByTimestamp(s), t) {
      SortStable(s, t);
    }
    SortedGroupsDetermine(r, SortByTimestamp(s));
  }

  /** Re-sorting a sorted ledger changes nothing. */
  lemma SortOfSorted(s: seq<Bid>)
    requires Sorted(s)
    ensures SortByTimestamp(s) == s
  {
    SortUnique(s, s);
  }

  // ---------------------------------------------------------------- Submit

  /** On a sorted ledger, append-then-sort is the single insertion of the new bid. */
  lemma SubmitSorted(ledger: seq<Bid>, b: Bid)
    requires Sorted(ledger)
    ensures Submit(ledger, b) == Insert(b, ledger)
  {
    SortOfSorted(ledger);
    assert (ledger + [b])[..|ledger|] == ledger;
  }

  /**
   * One insertion: one more entry, a sorted permutation of the old ledger plus
   * the new bid, equal timestamps kept in insertion order (the new bid last
   * among its timestamp).
   */
  lemma SubmitFacts(ledger: seq<Bid>, b: Bid)
    ensures |Submit(ledger, b)| == |ledger| + 1
    ensures Sorted(Submit(ledger, b))
    ensures multiset(Submit(ledger, b)) == multiset(ledger) + multiset{b}
    ensures forall t :: WithTimestamp(Submit(ledger, b), t) == WithTimestamp(ledger, t) + (if b.timestamp == t then [b] else [])
  {
    SortSortedPermutation(ledger + [b]);
    forall t ensures WithTimestamp(Submit(ledger, b), t) == WithTimestamp(ledger, t) + (if b.timestamp == t then [b] else []) {
      SortStable(ledger + [b], t);
      WithTimestampAppend(ledger, [b], t);
      assert [b][1..] == [];
    }
  }

  /** The ledger after submitting `bs`, in order. */
  function SubmitAll(ledger: seq<Bid>, bs: seq<Bid>): seq<Bid>
    decreases |bs|
  {
    if bs == [] then ledger else SubmitAll(Submit(ledger, bs[0]), bs[1..])
  }

  /** After N insertions there are N more entries, sorted, none lost. */
  lemma {:induction false} SubmitAllFacts(ledger: seq<Bid>, bs: seq<Bid>)
    ensures |SubmitAll(ledger, bs)| == |ledger| + |bs|
    ensures bs != [] ==> Sorted(SubmitAll(ledger, bs))
    ensures multiset(SubmitAll(ledger, bs)) == multiset(ledger) + multiset(bs)
    decreases |bs|
  {
    if bs != [] {
      var l1 := Submit(ledger, bs[0]);
      SortSortedPermutation(ledger + [bs[0]]);
      assert multiset(l1) == multiset(ledger) + multiset{bs[0]};
      SubmitAllFacts(l1, bs[1..]);
      assert SubmitAll(ledger, bs) == SubmitAll(l1, bs[1..]);
      assert bs == [bs[0]] + bs[1..];
      assert multiset(bs) == multiset{bs[0]} + multiset(bs[1..]);
    }
  }

  /** Three bids submitted with timestamps t2, t1, t3 (t1 < t2 < t3) end up ordered t1, t2, t3. */
  lemma OutOfOrderScenario(b1: Bid, b2: Bid, b3: Bid)
    requires b1.timestamp < b2.timestamp < b3.timestamp
    ensures SubmitAll([], [b2, b1, b3]) == [b1, b2, b3]
  {
    var l1 := Submit([], b2);
    assert l1 == [b2] by {
      SubmitSorted([], b2);
    }
    var l2 := Submit(l1, b1);
    assert l2 == [b1, b2] by {
      SubmitSorted(l1, b1);
    }
    var l3 := Submit(l2, b3);
    assert l3 == [b1, b2, b3] by {
      SubmitSorted(l2, b3);
      assert [b1, b2][1..] == [b2] && [b2][1..] == [];
      assert Insert(b3, [b2]) == [b2, b3];
    }
    assert SubmitAll(l2, [b3]) == l3 by {
      assert [b3][1..] == [];
    }
    assert SubmitAll(l1, [b1, b3]) == SubmitAll(l2, [b3]) by {
      assert [b1, b3][1..] == [b3];
    }
    assert SubmitAll([], [b2, b1, b3]) == SubmitAll(l1, [b1, b3]) by {
      assert [b2, b1, b3][1..] == [b1, b3];
    }
  }

}
