/** The dynamic-programming optimizer: weighted interval scheduling over a
    list of appointments, the weight of an appointment being its duration.
    The list is sorted by end time in place, `dp[i]` is the best total
    duration of a chain of compatible appointments ending with appointment
    `i`, `prev[i]` the appointment before `i` in such a chain, and the result
    is the chain behind the largest `dp`, latest appointment first. */
module Optimizer {
  import opened Entities

  /** Appointment `j` ends no later than appointment `i` starts. */
  predicate Fits(s: seq<Appointment>, j: nat, i: nat)
    requires j < |s| && i < |s|
  {
    s[j].endTime <= s[i].startTime
  }

  ghost predicate SortedByEnd(s: seq<Appointment>)
  {
    forall i, j :: 0 <= i < j < |s| ==> s[i].endTime <= s[j].endTime
  }

  // ---------------------------------------------------------------------
  // The tables, as functions of the sorted list

  /** The inner loop for appointment `i` after it has looked at every
      `k < j`: the best value so far and the appointment it extends (-1 for
      none). A later `k` replaces the current choice only when it is strictly
      better, so among equally good predecessors the first is kept. */
  function Relax(s: seq<Appointment>, dp: seq<int>, i: nat, j: nat): (r: (int, int))
    requires i < |s| && j <= i && j <= |dp|
    ensures r.1 == -1 ==>
      && r.0 == Duration(s[i])
      && forall k :: 0 <= k < j && Fits(s, k, i) ==> dp[k] <= 0
    ensures r.1 != -1 ==>
      && 0 <= r.1 < j && Fits(s, r.1, i)
      && dp[r.1] > 0 && r.0 == dp[r.1] + Duration(s[i])
      && (forall k :: 0 <= k < j && Fits(s, k, i) ==> dp[k] <= dp[r.1])
      && (forall k :: 0 <= k < r.1 && Fits(s, k, i) ==> dp[k] < dp[r.1])
  {
    if j == 0 then (Duration(s[i]), -1)
    else
      var r := Relax(s, dp, i, j - 1);
      if Fits(s, j - 1, i) && r.0 < dp[j - 1] + Duration(s[i]) then (dp[j - 1] + Duration(s[i]), j - 1)
      else r
  }

  datatype Tables = Tables(dp: seq<int>, prev: seq<int>)

  /** The first `n` entries of `dp` and `prev`, filled in index order. */
  function DpTables(s: seq<Appointment>, n: nat): (t: Tables)
    requires n <= |s|
    ensures |t.dp| == n && |t.prev| == n
  {
    if n == 0 then Tables([], [])
    else
      var t := DpTables(s, n - 1);
      var r := Relax(s, t.dp, n - 1, n - 1);
      Tables(t.dp + [r.0], t.prev + [r.1])
  }

  /** Every `prev` link points to an earlier appointment or is -1. */
  ghost predicate PrevLinks(prev: seq<int>)
  {
    forall i :: 0 <= i < |prev| ==> -1 <= prev[i] < i
  }

  /** Entry `i` of the tables: `prev[i]` is -1 or a compatible earlier
      appointment, `dp[i]` is the duration of `i` plus `dp[prev[i]]` (or
      plus nothing), which is at least the duration of `i` and at least the
      duration of `i` plus `dp[j]` for every compatible earlier `j`; `prev[i]`
      is the first compatible `j` with the largest positive `dp[j]`. */
  ghost predicate EntryOk(s: seq<Appointment>, dp: seq<int>, prev: seq<int>, i: nat)
    requires i < |s| && i < |dp| && |dp| == |prev|
  {
    && -1 <= prev[i] < i
    && (prev[i] == -1 ==>
          dp[i] == Duration(s[i]) && forall j :: 0 <= j < i && Fits(s, j, i) ==> dp[j] <= 0)
    && (prev[i] != -1 ==>
          && Fits(s, prev[i], i)
          && dp[i] == dp[prev[i]] + Duration(s[i]) && dp[prev[i]] > 0
          && (forall j :: 0 <= j < i && Fits(s, j, i) ==> dp[j] <= dp[prev[i]])
          && (forall j :: 0 <= j < prev[i] && Fits(s, j, i) ==> dp[j] < dp[prev[i]]))
  }

  ghost predicate TablesOk(s: seq<Appointment>, dp: seq<int>, prev: seq<int>)
  {
    && |dp| == |prev| <= |s|
    && forall i :: 0 <= i < |dp| ==> EntryOk(s, dp, prev, i)
  }

  /** The tables hold the recurrence `dp[i] = duration(i) + max(0, dp[j]
      over compatible j < i)`, with `prev` the first maximising `j`. */
  lemma {:induction false} DpTablesHoldRecurrence(s: seq<Appointment>, n: nat)
    requires n <= |s|
    ensures TablesOk(s, DpTables(s, n).dp, DpTables(s, n).prev)
  {
    if n > 0 {
      DpTablesHoldRecurrence(s, n - 1);
      var t := DpTables(s, n - 1);
      var u := DpTables(s, n);
      forall i | 0 <= i < n ensures EntryOk(s, u.dp, u.prev, i) {
        assert forall j :: 0 <= j < n - 1 ==> u.dp[j] == t.dp[j] && u.prev[j] == t.prev[j];
        if i < n - 1 {
          assert EntryOk(s, t.dp, t.prev, i);
        }
      }
    }
  }

  lemma TablesLinked(s: seq<Appointment>, dp: seq<int>, prev: seq<int>)
    requires TablesOk(s, dp, prev)
    ensures PrevLinks(prev)
  {
    forall i | 0 <= i < |prev| ensures -1 <= prev[i] < i {
      assert EntryOk(s, dp, prev, i);
    }
  }

  // ---------------------------------------------------------------------
  // Chains of appointments

  /** Indices into the sorted list, latest first: each one is earlier than
      and ends before the start of the one listed before it. */
  ghost predicate IsChain(s: seq<Appointment>, c: seq<nat>)
  {
    && (forall k :: 0 <= k < |c| ==> c[k] < |s|)
    && (forall k :: 0 <= k < |c| - 1 ==> c[k + 1] < c[k] && Fits(s, c[k + 1], c[k]))
  }

  function Pick(s: seq<Appointment>, c: seq<nat>): (picked: seq<Appointment>)
    requires forall k :: 0 <= k < |c| ==> c[k] < |s|
    ensures |picked| == |c| && forall k :: 0 <= k < |c| ==> picked[k] == s[c[k]]
  {
    seq(|c|, k requires 0 <= k < |c| => s[c[k]])
  }

  function TotalDuration(appointments: seq<Appointment>): int
  {
    if appointments == [] then 0 else Duration(appointments[0]) + TotalDuration(appointments[1..])
  }

  /** The chain the backtracking loop follows from `idx`. */
  function Backtrack(prev: seq<int>, idx: int): (c: seq<nat>)
    requires PrevLinks(prev) && -1 <= idx < |prev|
    ensures forall k :: 0 <= k < |c| ==> c[k] <= idx
    ensures idx == -1 <==> c == []
    decreases idx + 1
  {
    if idx == -1 then [] else [idx] + Backtrack(prev, prev[idx])
  }

  /** The backtrack from `i` is a chain starting at `i` whose total duration
      is `dp[i]`. */
  lemma {:induction false} BacktrackIsChain(s: seq<Appointment>, dp: seq<int>, prev: seq<int>, i: nat)
    requires TablesOk(s, dp, prev) && i < |dp|
    ensures PrevLinks(prev)
    ensures var c := Backtrack(prev, i);
      && c[0] == i && IsChain(s, c) && TotalDuration(Pick(s, c)) == dp[i]
    decreases i
  {
    TablesLinked(s, dp, prev);
    assert EntryOk(s, dp, prev, i);
    var c := Backtrack(prev, i);
    if prev[i] == -1 {
      assert c == [i];
      assert Pick(s, c)[1..] == [];
    } else {
      BacktrackIsChain(s, dp, prev, prev[i]);
      var rest := Backtrack(prev, prev[i]);
      assert c == [i] + rest;
      assert rest[0] == prev[i];
      forall k | 0 <= k < |c| - 1 ensures c[k + 1] < c[k] && Fits(s, c[k + 1], c[k]) {
        if k > 0 { assert c[k] == rest[k - 1] && c[k + 1] == rest[k]; }
      }
      assert Pick(s, c)[1..] == Pick(s, rest);
    }
  }

  /** No chain that starts at `c[0]` has a larger total duration than
      `dp[c[0]]`. */
  lemma {:induction false} ChainWithinDp(s: seq<Appointment>, dp: seq<int>, prev: seq<int>, c: seq<nat>)
    requires TablesOk(s, dp, prev) && |dp| == |s|
    requires IsChain(s, c) && c != []
    ensures TotalDuration(Pick(s, c)) <= dp[c[0]]
  {
    var i := c[0];
    assert EntryOk(s, dp, prev, i);
    if |c| > 1 {
      var rest := c[1..];
      assert IsChain(s, rest);
      ChainWithinDp(s, dp, prev, rest);
      assert Pick(s, c)[1..] == Pick(s, rest);
    } else {
      assert Pick(s, c)[1..] == [];
    }
  }

  // ---------------------------------------------------------------------
  // The argmax and the result

  /** The index the argmax loop settles on: the first largest entry, or 0
      for an empty table. */
  function BestIndex(dp: seq<int>): (k: nat)
    ensures |dp| == 0 ==> k == 0
    ensures |dp| > 0 ==>
      && k < |dp|
      && (forall i :: 0 <= i < |dp| ==> dp[i] <= dp[k])
      && (forall i :: 0 <= i < k ==> dp[i] < dp[k])
  {
    if |dp| <= 1 then 0
    else
      var k := BestIndex(dp[..|dp| - 1]);
      assert forall i :: 0 <= i < |dp| - 1 ==> dp[..|dp| - 1][i] == dp[i];
      if dp[|dp| - 1] > dp[k] then |dp| - 1 else k
  }

  /** What the optimizer returns for a list `s` already sorted in place. */
  ghost function Optimal(s: seq<Appointment>): seq<Appointment>
    requires |s| > 0
  {
    var t := DpTables(s, |s|);
    DpTablesHoldRecurrence(s, |s|);
    TablesLinked(s, t.dp, t.prev);
    Pick(s, Backtrack(t.prev, BestIndex(t.dp)))
  }

  /** The result is a chain, latest appointment first, each ending no later
      than the one before it starts, and its total duration is the largest
      `dp` entry. */
  lemma OptimalIsChain(s: seq<Appointment>)
    requires |s| > 0
    ensures var r := Optimal(s);
      && r != []
      && (forall k :: 0 <= k < |r| - 1 ==> r[k + 1].endTime <= r[k].startTime)
      && TotalDuration(r) == DpTables(s, |s|).dp[BestIndex(DpTables(s, |s|).dp)]
      && (forall i :: 0 <= i < |s| ==> DpTables(s, |s|).dp[i] <= TotalDuration(r))
  {
    var t := DpTables(s, |s|);
    DpTablesHoldRecurrence(s, |s|);
    var best := BestIndex(t.dp);
    BacktrackIsChain(s, t.dp, t.prev, best);
    var c := Backtrack(t.prev, best);
    var r := Pick(s, c);
    assert Optimal(s) == r;
    forall k | 0 <= k < |r| - 1 ensures r[k + 1].endTime <= r[k].startTime {
      assert Fits(s, c[k + 1], c[k]);
    }
  }

  /** No chain of the list has a larger total duration than the result. The
      empty chain is among them, hence the durations must not be negative. */
  lemma OptimalIsBestChain(s: seq<Appointment>, c: seq<nat>)
    requires |s| > 0
    requires IsChain(s, c)
    requires forall i :: 0 <= i < |s| ==> Duration(s[i]) >= 0
    ensures TotalDuration(Pick(s, c)) <= TotalDuration(Optimal(s))
  {
    var t := DpTables(s, |s|);
    DpTablesHoldRecurrence(s, |s|);
    OptimalIsChain(s);
    if c != [] {
      ChainWithinDp(s, t.dp, t.prev, c);
    } else {
      assert EntryOk(s, t.dp, t.prev, BestIndex(t.dp));
    }
  }

  // ---------------------------------------------------------------------
  // Conflict-free subsets

  /** Two appointments overlap as half-open intervals `[startTime, endTime)`. */
  predicate Overlap(a: Appointment, b: Appointment)
  {
    a.startTime < b.endTime && b.startTime < a.endTime
  }

  /** A subset of the list, as positions listed latest first, no two of which
      overlap. */
  ghost predicate ConflictFree(s: seq<Appointment>, c: seq<nat>)
  {
    && (forall k :: 0 <= k < |c| ==> c[k] < |s|)
    && (forall k, l :: 0 <= k < l < |c| ==> c[l] < c[k] && !Overlap(s[c[k]], s[c[l]]))
  }

  /** The positions of `c` whose appointment takes some time. */
  function WithoutEmpty(s: seq<Appointment>, c: seq<nat>): (r: seq<nat>)
    requires forall k :: 0 <= k < |c| ==> c[k] < |s|
    ensures forall k :: 0 <= k < |r| ==> r[k] in c && Duration(s[r[k]]) > 0
  {
    if c == [] then []
    else if Duration(s[c[0]]) > 0 then [c[0]] + WithoutEmpty(s, c[1..])
    else WithoutEmpty(s, c[1..])
  }

  lemma {:induction false} WithoutEmptyKeepsTotal(s: seq<Appointment>, c: seq<nat>)
    requires forall k :: 0 <= k < |c| ==> c[k] < |s| && Duration(s[c[k]]) >= 0
    ensures TotalDuration(Pick(s, WithoutEmpty(s, c))) == TotalDuration(Pick(s, c))
  {
    if c != [] {
      WithoutEmptyKeepsTotal(s, c[1..]);
      assert Pick(s, c)[1..] == Pick(s, c[1..]);
      if Duration(s[c[0]]) > 0 {
        var r := WithoutEmpty(s, c);
        assert Pick(s, r)[1..] == Pick(s, WithoutEmpty(s, c[1..]));
      }
    }
  }

  lemma ConflictFreeTail(s: seq<Appointment>, c: seq<nat>)
    requires ConflictFree(s, c) && c != []
    ensures ConflictFree(s, c[1..])
  {
    var tail := c[1..];
    forall k, l | 0 <= k < l < |tail| ensures tail[l] < tail[k] && !Overlap(s[tail[k]], s[tail[l]]) {
      assert tail[k] == c[k + 1] && tail[l] == c[l + 1];
    }
  }

  lemma ConflictFreeCons(s: seq<Appointment>, x: nat, tail: seq<nat>, rt: seq<nat>)
    requires ConflictFree(s, [x] + tail) && ConflictFree(s, rt)
    requires forall k :: 0 <= k < |rt| ==> rt[k] in tail
    ensures ConflictFree(s, [x] + rt)
  {
    var c, r := [x] + tail, [x] + rt;
    assert c[0] == x;
    forall k | 0 <= k < |r| ensures r[k] < |s| {
      if k > 0 { assert r[k] == rt[k - 1]; }
    }
    forall k, l | 0 <= k < l < |r| ensures r[l] < r[k] && !Overlap(s[r[k]], s[r[l]]) {
      if k > 0 {
        assert r[k] == rt[k - 1] && r[l] == rt[l - 1];
      } else {
        assert r[l] == rt[l - 1];
        var m :| 0 <= m < |tail| && tail[m] == r[l];
        assert c[m + 1] == r[l] && c[0] == x;
      }
    }
  }

  lemma {:induction false} WithoutEmptyKeepsConflictFree(s: seq<Appointment>, c: seq<nat>)
    requires ConflictFree(s, c)
    ensures ConflictFree(s, WithoutEmpty(s, c))
  {
    if c != [] {
      ConflictFreeTail(s, c);
      WithoutEmptyKeepsConflictFree(s, c[1..]);
      if Duration(s[c[0]]) > 0 {
        assert c == [c[0]] + c[1..];
        ConflictFreeCons(s, c[0], c[1..], WithoutEmpty(s, c[1..]));
      }
    }
  }

  /** In a list sorted by end time, conflict-free appointments that take some
      time form a chain. */
  lemma ConflictFreeIsChain(s: seq<Appointment>, c: seq<nat>)
    requires SortedByEnd(s) && ConflictFree(s, c)
    requires forall k :: 0 <= k < |c| ==> Duration(s[c[k]]) > 0
    ensures IsChain(s, c)
  {
    forall k | 0 <= k < |c| - 1 ensures c[k + 1] < c[k] && Fits(s, c[k + 1], c[k]) {
      assert !Overlap(s[c[k]], s[c[k + 1]]);
      assert s[c[k + 1]].endTime <= s[c[k]].endTime;
    }
  }

  /** Optimality against every subset: in a list sorted by end time whose
      appointments take no negative time, no set of pairwise non-overlapping
      appointments has a larger total duration than the optimizer's result. */
  lemma OptimalBeatsConflictFree(s: seq<Appointment>, c: seq<nat>)
    requires |s| > 0 && SortedByEnd(s)
    requires forall i :: 0 <= i < |s| ==> Duration(s[i]) >= 0
    requires ConflictFree(s, c)
    ensures TotalDuration(Pick(s, c)) <= TotalDuration(Optimal(s))
  {
    var r := WithoutEmpty(s, c);
    WithoutEmptyKeepsTotal(s, c);
    WithoutEmptyKeepsConflictFree(s, c);
    ConflictFreeIsChain(s, r);
    OptimalIsBestChain(s, r);
  }

  // ---------------------------------------------------------------------
  // The optimizer's loops

  /** Exchanges two neighbouring entries. */
  method SwapDown(a: array<Appointment>, j: nat)
    requires 0 < j < a.Length
    modifies a
    ensures a[j - 1] == old(a[j]) && a[j] == old(a[j - 1])
    ensures forall k :: 0 <= k < a.Length && k != j - 1 && k != j ==> a[k] == old(a[k])
    ensures multiset(a[..]) == multiset(old(a[..]))
  {
    a[j - 1], a[j] := a[j], a[j - 1];
  }

  /** Moves `a[i]` left past every entry that ends later. */
  method InsertByEndTime(a: array<Appointment>, i: nat)
    requires i < a.Length && SortedByEnd(a[..i])
    modifies a
    ensures SortedByEnd(a[..i + 1])
    ensures forall k :: i < k < a.Length ==> a[k] == old(a[k])
    ensures multiset(a[..]) == multiset(old(a[..]))
  {
    var j := i;
    while j > 0 && a[j - 1].endTime > a[j].endTime
      invariant 0 <= j <= i
      invariant forall p, q :: 0 <= p < q <= i && p != j && q != j ==> a[p].endTime <= a[q].endTime
      invariant forall q :: j < q <= i ==> a[j].endTime < a[q].endTime
      invariant forall k :: i < k < a.Length ==> a[k] == old(a[k])
      invariant multiset(a[..]) == multiset(old(a[..]))
    {
      SwapDown(a, j);
      j := j - 1;
    }
  }

  /** Sorts the caller's list by end time, in place. */
  method SortByEndTime(appointments: array<Appointment>)
    modifies appointments
    ensures SortedByEnd(appointments[..])
    ensures multiset(appointments[..]) == multiset(old(appointments[..]))
  {
    for i := 0 to appointments.Length
      invariant SortedByEnd(appointments[..i])
      invariant multiset(appointments[..]) == multiset(old(appointments[..]))
    {
      InsertByEndTime(appointments, i);
    }
    assert appointments[..] == appointments[..appointments.Length];
  }

  /** The inner loop for appointment `i`: starts from its own duration and
      no predecessor, then tries every earlier appointment that ends before
      `i` starts. */
  method RelaxEntry(appointments: array<Appointment>, dp: array<int>, prev: array<int>, i: nat)
    requires i < appointments.Length && dp.Length == appointments.Length && prev.Length == appointments.Length && dp != prev
    modifies dp, prev
    ensures (dp[i], prev[i]) == Relax(appointments[..], old(dp[..i]), i, i)
    ensures forall k :: 0 <= k < dp.Length && k != i ==> dp[k] == old(dp[k]) && prev[k] == old(prev[k])
  {
    ghost var s, d := appointments[..], dp[..i];
    dp[i] := appointments[i].endTime - appointments[i].startTime;
    prev[i] := -1;
    for j := 0 to i
      invariant forall k :: 0 <= k < dp.Length && k != i ==> dp[k] == old(dp[k]) && prev[k] == old(prev[k])
      invariant (dp[i], prev[i]) == Relax(s, d, i, j)
    {
      assert dp[j] == d[j];
      if appointments[j].endTime <= appointments[i].startTime {
        if dp[i] < dp[j] + (appointments[i].endTime - appointments[i].startTime) {
          dp[i] := dp[j] + (appointments[i].endTime - appointments[i].startTime);
          prev[i] := j;
        }
      }
    }
  }

  /** Fills `dp` and `prev` with two nested loops over the sorted list. */
  method FillTables(appointments: array<Appointment>, dp: array<int>, prev: array<int>)
    requires dp.Length == appointments.Length && prev.Length == appointments.Length && dp != prev
    modifies dp, prev
    ensures dp[..] == DpTables(appointments[..], appointments.Length).dp
    ensures prev[..] == DpTables(appointments[..], appointments.Length).prev
  {
    ghost var s := appointments[..];
    var n := appointments.Length;
    for i := 0 to n
      invariant dp[..i] == DpTables(s, i).dp && prev[..i] == DpTables(s, i).prev
    {
      ghost var d, p := dp[..i], prev[..i];
      RelaxEntry(appointments, dp, prev, i);
      assert dp[..i + 1] == d + [dp[i]] && prev[..i + 1] == p + [prev[i]];
    }
    assert dp[..] == dp[..n] && prev[..] == prev[..n];
  }

  /** The first index with the largest `dp` entry (0 when there is none). */
  method ArgMax(dp: array<int>) returns (idx: nat)
    ensures idx == BestIndex(dp[..])
    ensures dp.Length > 0 ==> idx < dp.Length && forall i :: 0 <= i < dp.Length ==> dp[i] <= dp[idx]
  {
    idx := 0;
    for i := 0 to dp.Length
      invariant idx == BestIndex(dp[..i]) && (i > 0 ==> idx < i)
    {
      assert dp[..i + 1][..i] == dp[..i];
      if dp[i] > dp[idx] {
        idx := i;
      }
    }
    assert dp[..] == dp[..dp.Length];
  }

  /** Follows the `prev` links from `idx` to -1, collecting the appointments
      met on the way. */
  method CollectChain(appointments: array<Appointment>, prev: array<int>, idx: int) returns (optimized: seq<Appointment>)
    requires prev.Length == appointments.Length && PrevLinks(prev[..]) && -1 <= idx < prev.Length
    ensures optimized == Pick(appointments[..], Backtrack(prev[..], idx))
  {
    optimized := [];
    var at := idx;
    while at != -1
      invariant -1 <= at < prev.Length
      invariant optimized + Pick(appointments[..], Backtrack(prev[..], at)) == Pick(appointments[..], Backtrack(prev[..], idx))
      decreases at + 1
    {
      ghost var rest := Backtrack(prev[..], prev[at]);
      assert Backtrack(prev[..], at) == [at] + rest;
      assert Pick(appointments[..], [at] + rest) == [appointments[at]] + Pick(appointments[..], rest);
      optimized := optimized + [appointments[at]];
      at := prev[at];
    }
  }

  /** The optimizer: sorts the caller's list by end time, fills the tables,
      picks the first index with the largest `dp` and returns the chain
      behind it, latest appointment first. On an empty list the source reads
      position 0 of the list and fails, hence the precondition. */
  method OptimizeScheduleWithDP(appointments: array<Appointment>) returns (optimized: seq<Appointment>)
    requires appointments.Length > 0
    modifies appointments
    ensures SortedByEnd(appointments[..])
    ensures multiset(appointments[..]) == multiset(old(appointments[..]))
    ensures optimized == Optimal(appointments[..])
  {
    SortByEndTime(appointments);
    var n := appointments.Length;
    var dp := new int[n](_ => 0);
    var prev := new int[n](_ => -1);
    FillTables(appointments, dp, prev);
    DpTablesHoldRecurrence(appointments[..], n);
    TablesLinked(appointments[..], dp[..], prev[..]);
    var idx := ArgMax(dp);
    optimized := CollectChain(appointments, prev, idx);
  }
}
