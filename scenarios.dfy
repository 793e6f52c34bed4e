/** The schedule that the program's own entry point builds: two doctors, two
    rooms, and three patients arriving at 0, 15 and 30 minutes. */
module Scenarios {
  import opened Entities
  import opened Allocator
  import opened Optimizer

  const alice := Patient("Alice", 0, 30, 0)
  const bob := Patient("Bob", 15, 45, 1)
  const charlie := Patient("Charlie", 30, 30, 2)

  lemma AliceFirst()
    ensures Step(Outcome([], [], [0, 0], [0, 0]), alice)
         == Outcome([Appointment(alice, 0, 0, 0, 30)], [], [30, 0], [30, 0])
  {
    assert [0, 0][..1] == [0];
    assert Earliest([0, 0], 0) == Some(0);
  }

  lemma BobSecond()
    ensures Step(Outcome([Appointment(alice, 0, 0, 0, 30)], [], [30, 0], [30, 0]), bob)
         == Outcome([Appointment(alice, 0, 0, 0, 30), Appointment(bob, 1, 1, 15, 60)], [], [30, 60], [30, 60])
  {
    assert [30, 0][..1] == [30];
    assert Earliest([30, 0], 15) == Some(1);
  }

  lemma CharlieThird()
    ensures Step(Outcome([Appointment(alice, 0, 0, 0, 30), Appointment(bob, 1, 1, 15, 60)], [], [30, 60], [30, 60]), charlie)
         == Outcome([Appointment(alice, 0, 0, 0, 30), Appointment(bob, 1, 1, 15, 60), Appointment(charlie, 0, 0, 30, 60)],
                    [], [60, 60], [60, 60])
  {
    assert [30, 60][..1] == [30];
    assert Earliest([30, 60], 30) == Some(0);
  }

  /** Alice takes the first doctor and room; Bob, arriving while they are
      busy, takes the second ones; Charlie, arriving as Alice leaves, takes
      the first ones again. Nobody is dropped. */
  lemma EntryPointAllocation()
    ensures Schedule([alice, bob, charlie], [0, 0], [0, 0])
         == Outcome([Appointment(alice, 0, 0, 0, 30), Appointment(bob, 1, 1, 15, 60), Appointment(charlie, 0, 0, 30, 60)],
                    [], [60, 60], [60, 60])
  {
    ScheduleSnoc([], alice, [0, 0], [0, 0]);
    ScheduleSnoc([alice], bob, [0, 0], [0, 0]);
    ScheduleSnoc([alice, bob], charlie, [0, 0], [0, 0]);
    assert [] + [alice] == [alice] && [alice] + [bob] == [alice, bob] && [alice, bob] + [charlie] == [alice, bob, charlie];
    AliceFirst();
    BobSecond();
    CharlieThird();
  }

  /** The queue has no choice to make on the entry point's patients: their
      arrival times differ, so the one order sorted by arrival is theirs. */
  lemma EntryPointOrderIsForced(order: seq<Patient>)
    requires multiset(order) == multiset([alice, bob, charlie]) && ArrivalSorted(order)
    ensures order == [alice, bob, charlie]
  {
    assert |order| == 3 by {
      assert |multiset(order)| == |order|;
    }
    forall k | 0 <= k < 3 ensures order[k] == alice || order[k] == bob || order[k] == charlie {
      assert order[k] in multiset(order);
    }
    assert alice in multiset(order) && bob in multiset(order) && charlie in multiset(order);
    assert order[0] == alice;
    assert order[2] == charlie;
  }

  /** The allocator on the entry point's patients books them all, whatever
      order its queue could hand them out in. */
  lemma EntryPointRunIsDetermined(order: seq<Patient>)
    requires multiset(order) == multiset([alice, bob, charlie]) && ArrivalSorted(order)
    ensures Schedule(order, [0, 0], [0, 0])
         == Outcome([Appointment(alice, 0, 0, 0, 30), Appointment(bob, 1, 1, 15, 60), Appointment(charlie, 0, 0, 30, 60)],
                    [], [60, 60], [60, 60])
  {
    EntryPointOrderIsForced(order);
    EntryPointAllocation();
  }

  const aliceVisit := Appointment(alice, 0, 0, 0, 30)
  const bobVisit := Appointment(bob, 1, 1, 15, 60)
  const charlieVisit := Appointment(charlie, 0, 0, 30, 60)
  const booked := [aliceVisit, bobVisit, charlieVisit]

  lemma EntryPointTables()
    ensures DpTables(booked, 3) == Tables([30, 45, 60], [-1, -1, 0])
  {
    assert DpTables(booked, 1) == Tables([30], [-1]);
    assert DpTables(booked, 2) == Tables([30, 45], [-1, -1]);
    assert Relax(booked, [30, 45], 2, 1) == (60, 0);
    assert Relax(booked, [30, 45], 2, 2) == (60, 0);
  }

  /** Sorted by end time the three appointments stay in that order; the best
      chain is Charlie after Alice, 60 minutes in all, which beats Bob alone
      (45 minutes). It is returned latest first. */
  lemma EntryPointOptimization()
    ensures Optimal(booked) == [Appointment(charlie, 0, 0, 30, 60), Appointment(alice, 0, 0, 0, 30)]
  {
    EntryPointTables();
    assert BestIndex([30, 45, 60]) == 2 by {
      assert [30, 45, 60][..2] == [30, 45];
      assert [30, 45][..1] == [30];
    }
    DpTablesHoldRecurrence(booked, 3);
    TablesLinked(booked, [30, 45, 60], [-1, -1, 0]);
    assert Backtrack([-1, -1, 0], 2) == [2, 0];
  }

  /** Bob and Charlie end at the same time, so a sort by end time may leave
      them in either order; Alice, ending first, comes first. */
  lemma EntryPointSortedOrders(s: seq<Appointment>)
    requires multiset(s) == multiset(booked) && SortedByEnd(s)
    ensures s == booked || s == [aliceVisit, charlieVisit, bobVisit]
  {
    assert |s| == 3 by {
      assert |multiset(s)| == |s|;
    }
    forall k | 0 <= k < 3 ensures s[k] == aliceVisit || s[k] == bobVisit || s[k] == charlieVisit {
      assert s[k] in multiset(s);
    }
    assert aliceVisit in multiset(s) && bobVisit in multiset(s) && charlieVisit in multiset(s);
    assert s[0] == aliceVisit;
  }

  lemma SwappedTables()
    ensures DpTables([aliceVisit, charlieVisit, bobVisit], 3) == Tables([30, 60, 45], [-1, 0, -1])
  {
    var s := [aliceVisit, charlieVisit, bobVisit];
    assert DpTables(s, 1) == Tables([30], [-1]);
    assert Relax(s, [30], 1, 1) == (60, 0);
    assert DpTables(s, 2) == Tables([30, 60], [-1, 0]);
    assert Relax(s, [30, 60], 2, 1) == (45, -1);
    assert Relax(s, [30, 60], 2, 2) == (45, -1);
  }

  /** Whichever order the sort leaves Bob and Charlie in, the optimized
      schedule of the entry point is Charlie then Alice. */
  lemma EntryPointOptimizationIsDetermined(s: seq<Appointment>)
    requires multiset(s) == multiset(booked) && SortedByEnd(s)
    ensures Optimal(s) == [charlieVisit, aliceVisit]
  {
    EntryPointSortedOrders(s);
    if s == booked {
      EntryPointOptimization();
    } else {
      SwappedTables();
      assert BestIndex([30, 60, 45]) == 1 by {
        assert [30, 60, 45][..2] == [30, 60];
        assert [30, 60][..1] == [30];
      }
      DpTablesHoldRecurrence(s, 3);
      TablesLinked(s, [30, 60, 45], [-1, 0, -1]);
      assert Backtrack([-1, 0, -1], 1) == [1, 0];
    }
  }
}
