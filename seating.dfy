/**
 * The table-assignment loop of `main`: participants, in shuffled order, are
 * each given a uniformly drawn table; a draw naming a table that already
 * holds `capacity` people is rejected and drawn again. With as many
 * participants as seats, every table ends up exactly full.
 *
 * The random source is an input: `draws` is the stream of values returned by
 * the successive `randint(0, T - 1)` calls. The rosters and the list of
 * recorded table ids, which the source grows in place, are the two fields of
 * a `SeatingState` value that the loop reassigns.
 */
module Seating {
  import opened Wrappers

  /**
   * The loop's state: `tables[t]` is the roster of table `t`, and
   * `tableIds[i]` the table recorded for the `i`-th participant seated.
   */
  datatype SeatingState = SeatingState(tables: seq<seq<nat>>, tableIds: seq<nat>)

  /** `ids` is an ordering of `0 .. n - 1`, as a shuffle of `range(n)` is. */
  ghost predicate IsPermutationOfRange(ids: seq<nat>, n: nat)
  {
    && |ids| == n
    && (forall i, j :: 0 <= i < j < n ==> ids[i] != ids[j])
    && (forall x: nat :: x in ids <==> x < n)
  }

  /**
   * Reference definition of the retry loop: the first `n` draws, in order,
   * less those rejected. A draw of table `t` is kept when fewer than
   * `capacity` earlier draws of `t` were kept.
   */
  function Kept(draws: seq<nat>, n: nat, capacity: nat): (kept: seq<nat>)
    requires n <= |draws|
    ensures |kept| <= n
  {
    if n == 0 then []
    else
      var before := Kept(draws, n - 1, capacity);
      var t := draws[n - 1];
      if multiset(before)[t] < capacity then before + [t] else before
  }

  /** No table is ever kept more than `capacity` times. */
  lemma {:induction false} KeptWithinCapacity(draws: seq<nat>, n: nat, capacity: nat)
    requires n <= |draws|
    ensures forall t :: multiset(Kept(draws, n, capacity))[t] <= capacity
  {
    if n > 0 {
      KeptWithinCapacity(draws, n - 1, capacity);
    }
  }

  /** The participants among the first `n` recorded at table `t`, in the order they were seated. */
  function RosterOf(ids: seq<nat>, tableIds: seq<nat>, n: nat, t: nat): (roster: seq<nat>)
    requires n <= |ids| && n <= |tableIds|
    ensures |roster| == multiset(tableIds[..n])[t]
  {
    if n == 0 then []
    else
      assert tableIds[..n] == tableIds[..n - 1] + [tableIds[n - 1]];
      RosterOf(ids, tableIds, n - 1, t) + (if tableIds[n - 1] == t then [ids[n - 1]] else [])
  }

  /** A participant is on the roster of table `t` exactly when `t` was recorded for them. */
  lemma {:induction false} RosterMembership(ids: seq<nat>, tableIds: seq<nat>, n: nat, t: nat, x: nat)
    requires n <= |ids| && n <= |tableIds|
    ensures x in RosterOf(ids, tableIds, n, t)
        <==> exists i :: 0 <= i < n && ids[i] == x && tableIds[i] == t
  {
    if n > 0 {
      RosterMembership(ids, tableIds, n - 1, t, x);
    }
  }

  /** A roster depends only on the table ids recorded for the participants it covers. */
  lemma {:induction false} RosterOfAgrees(ids: seq<nat>, a: seq<nat>, b: seq<nat>, n: nat, t: nat)
    requires n <= |ids| && n <= |a| && n <= |b|
    requires forall i :: 0 <= i < n ==> a[i] == b[i]
    ensures RosterOf(ids, a, n, t) == RosterOf(ids, b, n, t)
  {
    if n > 0 {
      RosterOfAgrees(ids, a, b, n - 1, t);
    }
  }

  /**
   * `s` is the state of the loop once the first `|s.tableIds|` participants
   * of `ids` are seated, in order.
   */
  ghost predicate Seated(s: SeatingState, tableCount: nat, ids: seq<nat>)
  {
    && |s.tables| == tableCount
    && |s.tableIds| <= |ids|
    && (forall i :: 0 <= i < |s.tableIds| ==> s.tableIds[i] < tableCount)
    && (forall t :: 0 <= t < tableCount ==> s.tables[t] == RosterOf(ids, s.tableIds, |s.tableIds|, t))
  }

  /**
   * Seating participant `p` at table `t`, once the draw found room there: `p`
   * joins the end of the roster of `t`, `t` is recorded, and no other roster
   * changes.
   */
  function Seat(s: SeatingState, p: nat, t: nat): (r: SeatingState)
    requires t < |s.tables|
    ensures r.tableIds == s.tableIds + [t]
    ensures |r.tables| == |s.tables| && r.tables[t] == s.tables[t] + [p]
    ensures forall u :: 0 <= u < |s.tables| && u != t ==> r.tables[u] == s.tables[u]
  {
    SeatingState(s.tables[t := s.tables[t] + [p]], s.tableIds + [t])
  }

  /** Seating someone at a table with room keeps every roster within capacity. */
  lemma SeatRespectsCapacity(s: SeatingState, capacity: nat, p: nat, t: nat)
    requires t < |s.tables| && |s.tables[t]| < capacity
    requires forall u :: 0 <= u < |s.tables| ==> |s.tables[u]| <= capacity
    ensures forall u :: 0 <= u < |s.tables| ==> |Seat(s, p, t).tables[u]| <= capacity
  {
  }

  /** Seating the next participant extends the seating by exactly that participant. */
  lemma SeatKeepsSeated(s: SeatingState, tableCount: nat, ids: seq<nat>, t: nat)
    requires Seated(s, tableCount, ids) && |s.tableIds| < |ids| && t < tableCount
    ensures Seated(Seat(s, ids[|s.tableIds|], t), tableCount, ids)
  {
    var n := |s.tableIds|;
    var next := Seat(s, ids[n], t);
    forall u | 0 <= u < tableCount
      ensures next.tables[u] == RosterOf(ids, next.tableIds, n + 1, u)
    {
      RosterOfAgrees(ids, s.tableIds, next.tableIds, n, u);
      assert next.tableIds[n] == t;
      assert RosterOf(ids, next.tableIds, n + 1, u)
          == s.tables[u] + (if t == u then [ids[n]] else []);
    }
  }

  /** Sum of the counts of `m` at `0 .. n - 1`. */
  function CountBelow(m: multiset<nat>, n: nat): nat
  {
    if n == 0 then 0 else CountBelow(m, n - 1) + m[n - 1]
  }

  lemma {:induction false} CountBelowAdd(m: multiset<nat>, x: nat, n: nat)
    ensures CountBelow(m + multiset{x}, n) == CountBelow(m, n) + (if x < n then 1 else 0)
  {
    if n > 0 {
      CountBelowAdd(m, x, n - 1);
    }
  }

  /** When every recorded table is below `n`, the counts of tables `0 .. n - 1` add up to all of them. */
  lemma {:induction false} CountBelowAll(tableIds: seq<nat>, n: nat)
    requires forall i :: 0 <= i < |tableIds| ==> tableIds[i] < n
    ensures CountBelow(multiset(tableIds), n) == |tableIds|
  {
    if tableIds == [] {
      CountBelowZero(n);
    } else {
      var k := |tableIds| - 1;
      assert tableIds == tableIds[..k] + [tableIds[k]];
      CountBelowAll(tableIds[..k], n);
      CountBelowAdd(multiset(tableIds[..k]), tableIds[k], n);
    }
  }

  lemma {:induction false} CountBelowZero(n: nat)
    ensures CountBelow(multiset{}, n) == 0
  {
    if n > 0 {
      CountBelowZero(n - 1);
    }
  }

  lemma {:induction false} CountBelowAtLeast(m: multiset<nat>, n: nat, capacity: nat)
    requires forall t :: 0 <= t < n ==> m[t] >= capacity
    ensures CountBelow(m, n) >= n * capacity
  {
    if n > 0 {
      CountBelowAtLeast(m, n - 1, capacity);
      assert n * capacity == (n - 1) * capacity + capacity;
    }
  }

  lemma {:induction false} CountBelowAtMost(m: multiset<nat>, n: nat, capacity: nat)
    requires forall t :: 0 <= t < n ==> m[t] <= capacity
    ensures CountBelow(m, n) <= n * capacity
  {
    if n > 0 {
      CountBelowAtMost(m, n - 1, capacity);
      assert n * capacity == (n - 1) * capacity + capacity;
    }
  }

  lemma {:induction false} CountBelowShort(m: multiset<nat>, n: nat, capacity: nat, u: nat)
    requires forall t :: 0 <= t < n ==> m[t] <= capacity
    requires u < n && m[u] < capacity
    ensures CountBelow(m, n) < n * capacity
  {
    assert n * capacity == (n - 1) * capacity + capacity;
    if u == n - 1 {
      CountBelowAtMost(m, n - 1, capacity);
    } else {
      CountBelowShort(m, n - 1, capacity, u);
    }
  }

  /**
   * With `tableCount * capacity` seats, while fewer participants than that
   * are seated some table still has room, so the retry loop can accept a draw.
   */
  lemma RoomWhileUnseated(s: SeatingState, tableCount: nat, capacity: nat, ids: seq<nat>)
    requires Seated(s, tableCount, ids)
    requires |s.tableIds| < tableCount * capacity
    ensures exists t :: 0 <= t < tableCount && |s.tables[t]| < capacity
  {
    SeatedSizesRecorded(s, tableCount, ids);
    var m := multiset(s.tableIds);
    CountBelowAll(s.tableIds, tableCount);
    if forall t :: 0 <= t < tableCount ==> m[t] >= capacity {
      CountBelowAtLeast(m, tableCount, capacity);
      assert false;
    }
    var t :| 0 <= t < tableCount && m[t] < capacity;
    assert |s.tables[t]| == m[t];
  }

  /** Once all `tableCount * capacity` seats are taken, every table holds exactly `capacity`. */
  lemma TablesFull(tableIds: seq<nat>, tableCount: nat, capacity: nat)
    requires forall i :: 0 <= i < |tableIds| ==> tableIds[i] < tableCount
    requires forall t :: multiset(tableIds)[t] <= capacity
    requires |tableIds| == tableCount * capacity
    ensures forall t :: 0 <= t < tableCount ==> multiset(tableIds)[t] == capacity
  {
    CountBelowAll(tableIds, tableCount);
    forall t | 0 <= t < tableCount
      ensures multiset(tableIds)[t] == capacity
    {
      if multiset(tableIds)[t] < capacity {
        CountBelowShort(multiset(tableIds), tableCount, capacity, t);
      }
    }
  }

  /** After every table is full, any further draw is rejected and the kept draws stay the same. */
  lemma {:induction false} KeptSaturated(draws: seq<nat>, n: nat, m: nat, capacity: nat, tableCount: nat)
    requires n <= m <= |draws|
    requires forall t :: 0 <= t < tableCount ==> multiset(Kept(draws, n, capacity))[t] >= capacity
    requires forall i :: 0 <= i < |draws| ==> draws[i] < tableCount
    ensures Kept(draws, m, capacity) == Kept(draws, n, capacity)
  {
    if m > n {
      KeptSaturated(draws, n, m - 1, capacity, tableCount);
      var before := Kept(draws, m - 1, capacity);
      assert draws[m - 1] < tableCount;
      assert multiset(before)[draws[m - 1]] >= capacity;
    }
  }

  /** The seating after the loop: what the master list and the cards are built from. */
  ghost predicate IsFinalSeating(s: SeatingState, tableCount: nat, capacity: nat, ids: seq<nat>)
  {
    && |s.tables| == tableCount
    && |s.tableIds| == |ids|
    && (forall i :: 0 <= i < |ids| ==> s.tableIds[i] < tableCount && ids[i] in s.tables[s.tableIds[i]])
    && (forall t :: 0 <= t < tableCount ==> |s.tables[t]| == capacity)
    && (forall t, u, x :: 0 <= t < u < tableCount && x in s.tables[t] ==> x !in s.tables[u])
    && (forall t, x :: 0 <= t < tableCount && x in s.tables[t] ==> x < |ids|)
  }

  /** Every participant is on the roster of the table recorded for them. */
  lemma SeatedAtRecordedTable(s: SeatingState, tableCount: nat, ids: seq<nat>)
    requires Seated(s, tableCount, ids) && |s.tableIds| == |ids|
    ensures forall i :: 0 <= i < |ids| ==> ids[i] in s.tables[s.tableIds[i]]
  {
    forall i | 0 <= i < |ids|
      ensures ids[i] in s.tables[s.tableIds[i]]
    {
      RosterMembership(ids, s.tableIds, |ids|, s.tableIds[i], ids[i]);
    }
  }

  /** Only participants `0 .. N - 1` appear on the rosters. */
  lemma RostersWithinRange(s: SeatingState, tableCount: nat, ids: seq<nat>, n: nat)
    requires Seated(s, tableCount, ids) && |s.tableIds| == |ids| && IsPermutationOfRange(ids, n)
    ensures forall t, x :: 0 <= t < tableCount && x in s.tables[t] ==> x < n
  {
    forall t, x | 0 <= t < tableCount && x in s.tables[t]
      ensures x < n
    {
      RosterMembership(ids, s.tableIds, |ids|, t, x);
      var i :| 0 <= i < |ids| && ids[i] == x && s.tableIds[i] == t;
      assert x in ids;
    }
  }

  /** No participant is on two rosters. */
  lemma RostersDisjoint(s: SeatingState, tableCount: nat, ids: seq<nat>, n: nat)
    requires Seated(s, tableCount, ids) && |s.tableIds| == |ids| && IsPermutationOfRange(ids, n)
    ensures forall t, u, x :: 0 <= t < u < tableCount && x in s.tables[t] ==> x !in s.tables[u]
  {
    forall t, u, x | 0 <= t < u < tableCount && x in s.tables[t]
      ensures x !in s.tables[u]
    {
      RosterMembership(ids, s.tableIds, |ids|, t, x);
      RosterMembership(ids, s.tableIds, |ids|, u, x);
      var i :| 0 <= i < |ids| && ids[i] == x && s.tableIds[i] == t;
      forall j | 0 <= j < |ids| && ids[j] == x
        ensures s.tableIds[j] == t
      {
        assert j == i;
      }
    }
  }

  /**
   * Seating a whole shuffled population: every participant sits at the table
   * recorded for them, every table is exactly full, the rosters are pairwise
   * disjoint and together hold exactly the participants `0 .. N - 1`.
   */
  lemma SeatingPartition(s: SeatingState, tableCount: nat, capacity: nat, ids: seq<nat>)
    requires IsPermutationOfRange(ids, tableCount * capacity)
    requires Seated(s, tableCount, ids) && |s.tableIds| == |ids|
    requires forall t :: multiset(s.tableIds)[t] <= capacity
    ensures IsFinalSeating(s, tableCount, capacity, ids)
  {
    TablesFull(s.tableIds, tableCount, capacity);
    SeatedSizesRecorded(s, tableCount, ids);
    SeatedAtRecordedTable(s, tableCount, ids);
    RostersWithinRange(s, tableCount, ids, |ids|);
    RostersDisjoint(s, tableCount, ids, |ids|);
  }

  /** Each roster is as long as the number of times its table was recorded. */
  ghost predicate SizesRecorded(s: SeatingState)
  {
    forall t :: 0 <= t < |s.tables| ==> |s.tables[t]| == multiset(s.tableIds)[t]
  }

  lemma SeatedSizesRecorded(s: SeatingState, tableCount: nat, ids: seq<nat>)
    requires Seated(s, tableCount, ids)
    ensures SizesRecorded(s)
  {
    assert s.tableIds[..|s.tableIds|] == s.tableIds;
  }

  /**
   * The retry loop for one participant: draw tables until one has room; a
   * draw naming a full table is rejected and changes nothing. Starting at draw
   * `pos`, returns the table accepted and the position after the draws used;
   * `None` if the draws run out first.
   */
  method DrawTable(s: SeatingState, capacity: nat, draws: seq<nat>, pos: nat) returns (t: Option<nat>, next: nat)
    requires SizesRecorded(s)
    requires pos <= |draws| && s.tableIds == Kept(draws, pos, capacity)
    requires forall i :: 0 <= i < |draws| ==> draws[i] < |s.tables|
    ensures pos <= next <= |draws|
    ensures t.None? ==> next == |draws| && Kept(draws, |draws|, capacity) == s.tableIds
    ensures t.Some? ==> t.value < |s.tables| && |s.tables[t.value]| < capacity
    ensures t.Some? ==> pos < next && draws[next - 1] == t.value
    ensures t.Some? ==> Kept(draws, next - 1, capacity) == s.tableIds
    ensures t.Some? ==> Kept(draws, next, capacity) == s.tableIds + [t.value]
  {
    next := pos;
    while true
      invariant pos <= next <= |draws|
      invariant s.tableIds == Kept(draws, next, capacity)
      decreases |draws| - next
    {
      if next == |draws| {
        return None, next;
      }
      var drawn := draws[next];
      next := next + 1;
      if |s.tables[drawn]| < capacity {
        return Some(drawn), next;
      }
    }
  }

  /**
   * The assignment loop of `main`, for `tableCount` tables of `capacity`
   * seats and a shuffle of `range(tableCount * capacity)`: returns the rosters
   * and the recorded table ids, or `None` if the draws run out first. It
   * succeeds exactly when the draws that found room seat everybody, and then
   * the recorded table ids are those draws.
   */
  method AssignTables(tableCount: nat, capacity: nat, participantIds: seq<nat>, draws: seq<nat>)
    returns (r: Option<SeatingState>)
    requires IsPermutationOfRange(participantIds, tableCount * capacity)
    requires forall i :: 0 <= i < |draws| ==> draws[i] < tableCount
    ensures r.Some? <==> |Kept(draws, |draws|, capacity)| == tableCount * capacity
    ensures r.Some? ==> r.value.tableIds == Kept(draws, |draws|, capacity)
    ensures r.Some? ==> Seated(r.value, tableCount, participantIds) && |r.value.tableIds| == |participantIds|
    ensures r.Some? ==> IsFinalSeating(r.value, tableCount, capacity, participantIds)
  {
    var s := SeatingState(seq(tableCount, _ => []), []);
    var pos: nat := 0;
    for k := 0 to |participantIds|
      invariant pos <= |draws|
      invariant s.tableIds == Kept(draws, pos, capacity)
      invariant Seated(s, tableCount, participantIds) && |s.tableIds| == k
      invariant forall u :: 0 <= u < tableCount ==> |s.tables[u]| <= capacity
    {
      SeatedSizesRecorded(s, tableCount, participantIds);
      var t;
      t, pos := DrawTable(s, capacity, draws, pos);
      if t.None? {
        return None;
      }
      SeatKeepsSeated(s, tableCount, participantIds, t.value);
      SeatRespectsCapacity(s, capacity, participantIds[k], t.value);
      s := Seat(s, participantIds[k], t.value);
    }
    KeptWithinCapacity(draws, pos, capacity);
    TablesFull(s.tableIds, tableCount, capacity);
    KeptSaturated(draws, pos, |draws|, capacity, tableCount);
    SeatingPartition(s, tableCount, capacity, participantIds);
    r := Some(s);
  }
}
