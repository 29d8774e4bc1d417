/** What the round-robin generator of src/bfs_algorithm.py promises about its output:
    soundness of every name, exact per-day counts per muscle, the week-long rotation of
    each muscle's pool, and the shape of a day. */
module PlanProperties {
  import opened Exercises
  import opened Splits
  import opened RoundRobin
  import opened Slots

  /** The names of `s` that belong to `pool`, in order: one muscle's share of a plan. */
  function Picks<N(==)>(s: seq<N>, pool: seq<N>): (r: seq<N>)
    ensures |r| <= |s|
  {
    if s == [] then []
    else
      var last := s[|s| - 1];
      Picks(s[..|s| - 1], pool) + (if last in pool then [last] else [])
  }

  /** The days of a plan, one after the other. */
  function Flatten<N(==)>(days: seq<seq<N>>): seq<N>
  {
    if days == [] then [] else Flatten(days[..|days| - 1]) + days[|days| - 1]
  }

  /** Exercises a muscle list earns a day: the sum of the listed muscles' picks. */
  function ListedSize<N(==)>(pools: Pools<N>, quotas: map<N, nat>, ms: seq<N>): nat
  {
    if ms == [] then 0
    else ListedSize(pools, quotas, ms[..|ms| - 1]) + Effective(pools, quotas, ms[|ms| - 1])
  }

  // ---------------------------------------------------------------- helpers on Picks and Run

  lemma {:induction false} PicksAppend<N>(a: seq<N>, b: seq<N>, pool: seq<N>)
    ensures Picks(a + b, pool) == Picks(a, pool) + Picks(b, pool)
  {
    if b == [] {
      assert a + b == a;
    } else {
      var init := b[..|b| - 1];
      assert (a + b)[..|a + b| - 1] == a + init;
      assert (a + b)[|a + b| - 1] == b[|b| - 1];
      PicksAppend(a, init, pool);
    }
  }

  lemma {:induction false} PicksAll<N>(s: seq<N>, pool: seq<N>)
    requires forall x :: x in s ==> x in pool
    ensures Picks(s, pool) == s
  {
    if s != [] {
      var init := s[..|s| - 1];
      assert forall x :: x in init ==> x in s;
      PicksAll(init, pool);
      assert s == init + [s[|s| - 1]];
    }
  }

  lemma {:induction false} PicksNone<N>(s: seq<N>, pool: seq<N>)
    requires forall x :: x in s ==> x !in pool
    ensures Picks(s, pool) == []
  {
    if s != [] {
      var init := s[..|s| - 1];
      assert forall x :: x in init ==> x in s;
      assert s[|s| - 1] in s;
      PicksNone(init, pool);
    }
  }

  /** Pick `i` of a run is the pool entry at slot `start + i`. */
  lemma {:induction false} RunIndex<N>(pool: seq<N>, start: nat, count: nat, i: nat)
    requires pool != [] && i < count
    ensures Run(pool, start, count)[i] == pool[Slot(start + i, |pool|)]
  {
    if i < count - 1 {
      RunIndex(pool, start, count - 1, i);
    }
  }

  lemma RunInPool<N>(pool: seq<N>, start: nat, count: nat)
    ensures forall x :: x in Run(pool, start, count) ==> x in pool
  {
    var r := Run(pool, start, count);
    forall x | x in r ensures x in pool {
      var i :| 0 <= i < |r| && r[i] == x;
      RunIndex(pool, start, count, i);
    }
  }

  /** Two runs back to back are one run: the second starts where the first left the
      pointer (`mid`), and the counts add up to `total`. */
  lemma {:induction false} RunJoin<N>(pool: seq<N>, start: nat, a: nat, mid: nat, b: nat, total: nat)
    requires mid == start + a && total == a + b
    ensures Run(pool, start, a) + Run(pool, mid, b) == Run(pool, start, total)
  {
    if pool != [] && b > 0 {
      RunJoin(pool, start, a, mid, b - 1, total - 1);
      assert mid + b - 1 == start + total - 1;
    }
  }

  /** No more picks than the pool has: the run repeats nothing. */
  lemma RunDistinct<N>(pool: seq<N>, start: nat, count: nat)
    requires Distinct(pool) && count <= |pool|
    ensures Distinct(Run(pool, start, count))
  {
    var r := Run(pool, start, count);
    forall i, j | 0 <= i < j < |r| ensures r[i] != r[j] {
      RunIndex(pool, start, count, i);
      RunIndex(pool, start, count, j);
      SlotsDiffer(start, i, j, |pool|);
    }
  }

  // ---------------------------------------------------------------- pools

  /** A pool holds exactly the names of the catalog entries training its muscle. */
  lemma {:induction false} PoolMembers(c: Catalog, muscle: string, x: string)
    ensures x in Pool(c, muscle) <==> exists e :: e in c && e.name == x && e.ex.muscle == muscle
  {
    if c != [] {
      var init, last := c[..|c| - 1], c[|c| - 1];
      assert c == init + [last];
      PoolMembers(init, muscle, x);
    }
  }

  /** With unique keys, the entry a pool name comes from is the only entry of that name. */
  lemma PoolEntry(c: Catalog, muscle: string, x: string)
    requires DistinctNames(c) && x in Pool(c, muscle)
    ensures forall e :: e in c && e.name == x ==> e.ex.muscle == muscle
  {
    PoolMembers(c, muscle, x);
    var e1 :| e1 in c && e1.name == x && e1.ex.muscle == muscle;
    var i :| 0 <= i < |c| && c[i] == e1;
    forall e | e in c && e.name == x ensures e == e1 {
      var j :| 0 <= j < |c| && c[j] == e;
      assert c[i].name == c[j].name;
    }
  }

  /** With unique keys, two muscles never share a pool entry. */
  lemma PoolsDisjoint(c: Catalog, m1: string, m2: string, x: string)
    requires DistinctNames(c) && m1 != m2 && x in Pool(c, m1)
    ensures x !in Pool(c, m2)
  {
    PoolEntry(c, m1, x);
    PoolMembers(c, m2, x);
  }

  /** With unique keys, a pool lists each exercise once. */
  lemma {:induction false} PoolDistinct(c: Catalog, muscle: string)
    requires DistinctNames(c)
    ensures Distinct(Pool(c, muscle))
  {
    if c != [] {
      var init, last := c[..|c| - 1], c[|c| - 1];
      assert DistinctNames(init);
      PoolDistinct(init, muscle);
      PoolMembers(init, muscle, last.name);
      forall e | e in init ensures e.name != last.name {
        var i :| 0 <= i < |init| && init[i] == e;
        assert c[i] == e;
      }
    }
  }

  /** No name is in two pools. */
  ghost predicate Exclusive<N(!new)>(pools: Pools<N>)
  {
    forall m1, m2, x {:trigger x in PoolOf(pools, m1), x in PoolOf(pools, m2)} ::
      x in PoolOf(pools, m1) && x in PoolOf(pools, m2) ==> m1 == m2
  }

  /** What unique catalog keys give the grouped pools: no name is in two pools, and no
      pool lists a name twice. */
  lemma PoolMapSeparated(c: Catalog)
    requires DistinctNames(c)
    ensures Exclusive(PoolMap(c))
    ensures forall m :: Distinct(PoolOf(PoolMap(c), m))
  {
    var pools := PoolMap(c);
    forall m ensures Distinct(PoolOf(pools, m)) {
      PoolMapIsPool(c, m);
      PoolDistinct(c, m);
    }
    forall m1, m2, x | x in PoolOf(pools, m1) && x in PoolOf(pools, m2) ensures m1 == m2 {
      PoolMapIsPool(c, m1);
      PoolMapIsPool(c, m2);
      if m1 != m2 {
        PoolsDisjoint(c, m1, m2, x);
      }
    }
  }

  // ---------------------------------------------------------------- per-muscle picks

  /** A muscle listed at most once is served its effective quota if listed, else nothing. */
  lemma {:induction false} ListedPicksDistinct<N>(pools: Pools<N>, quotas: map<N, nat>, ms: seq<N>, muscle: N)
    requires Distinct(ms)
    ensures ListedPicks(pools, quotas, ms, muscle) == if muscle in ms then Effective(pools, quotas, muscle) else 0
  {
    if ms != [] {
      var init := ms[..|ms| - 1];
      assert ms == init + [ms[|ms| - 1]];
      assert Distinct(init);
      ListedPicksDistinct(pools, quotas, init, muscle);
      if ms[|ms| - 1] == muscle {
        assert muscle !in init;
      }
    }
  }

  /** The picks one listed muscle contributes to `muscle`'s share: when it is `muscle`, a
      run of the pool of its effective quota from where the pointer stands; else nothing. */
  lemma SegmentPicks<N(!new)>(pools: Pools<N>, schedule: seq<seq<N>>, quotas: map<N, nat>,
                     day: nat, j: nat, muscle: N)
    requires Exclusive(pools) && day < |schedule| && j < |schedule[day]|
    ensures Picks(Segment(pools, schedule, quotas, day, j), PoolOf(pools, muscle))
         == Run(PoolOf(pools, muscle),
                Served(pools, schedule, quotas, muscle, day) + ListedPicks(pools, quotas, schedule[day][..j], muscle),
                if schedule[day][j] == muscle then Effective(pools, quotas, muscle) else 0)
  {
    var listed := schedule[day][j];
    var seg := Segment(pools, schedule, quotas, day, j);
    var pool := PoolOf(pools, muscle);
    var start := Served(pools, schedule, quotas, listed, day) + ListedPicks(pools, quotas, schedule[day][..j], listed);
    assert seg == Run(PoolOf(pools, listed), start, QuotaFor(quotas, listed));
    RunInPool(PoolOf(pools, listed), start, QuotaFor(quotas, listed));
    if listed == muscle {
      PicksAll(seg, pool);
    } else {
      forall x | x in seg ensures x !in pool {
        assert x in PoolOf(pools, listed);
      }
      PicksNone(seg, pool);
    }
  }

  /** Appending the `j`-th muscle's picks appends its share to each muscle's picks. */
  lemma DayPicksStep<N(!new)>(pools: Pools<N>, schedule: seq<seq<N>>, quotas: map<N, nat>,
                              day: nat, j: nat, k: nat, muscle: N)
    requires Exclusive(pools) && day < |schedule| && j < |schedule[day]| && k == j + 1
    ensures Picks(DayPrefix(pools, schedule, quotas, day, k), PoolOf(pools, muscle))
         == Picks(DayPrefix(pools, schedule, quotas, day, j), PoolOf(pools, muscle))
            + Run(PoolOf(pools, muscle),
                  Served(pools, schedule, quotas, muscle, day) + ListedPicks(pools, quotas, schedule[day][..j], muscle),
                  if schedule[day][j] == muscle then Effective(pools, quotas, muscle) else 0)
  {
    SegmentPicks(pools, schedule, quotas, day, j, muscle);
    PicksAppend(DayPrefix(pools, schedule, quotas, day, j), Segment(pools, schedule, quotas, day, j), PoolOf(pools, muscle));
  }

  /** Within a day, one muscle's picks so far are one run of its pool, starting where the
      pointer stood when the day began. */
  lemma {:induction false} DayPicks<N(!new)>(pools: Pools<N>, schedule: seq<seq<N>>, quotas: map<N, nat>,
                                    day: nat, k: nat, muscle: N)
    requires Exclusive(pools) && day < |schedule| && k <= |schedule[day]|
    ensures Picks(DayPrefix(pools, schedule, quotas, day, k), PoolOf(pools, muscle))
         == Run(PoolOf(pools, muscle), Served(pools, schedule, quotas, muscle, day),
                ListedPicks(pools, quotas, schedule[day][..k], muscle))
    decreases k, 1
  {
    if k == 0 {
      assert schedule[day][..0] == [];
    } else {
      DayPicksExtend(pools, schedule, quotas, day, k - 1, k, muscle);
    }
  }

  /** The inductive step of DayPicks: the `j`-th listed muscle extends the run. */
  lemma DayPicksExtend<N(!new)>(pools: Pools<N>, schedule: seq<seq<N>>, quotas: map<N, nat>,
                                day: nat, j: nat, k: nat, muscle: N)
    requires Exclusive(pools) && day < |schedule| && j < |schedule[day]| && k == j + 1
    ensures Picks(DayPrefix(pools, schedule, quotas, day, k), PoolOf(pools, muscle))
         == Run(PoolOf(pools, muscle), Served(pools, schedule, quotas, muscle, day),
                ListedPicks(pools, quotas, schedule[day][..k], muscle))
    decreases k, 0
  {
    DayPicks(pools, schedule, quotas, day, j, muscle);
    DayPicksStep(pools, schedule, quotas, day, j, k, muscle);
    ServedRunsJoin(pools, schedule, quotas, day, j, k, muscle);
  }

  /** The run before the `j`-th listed muscle and that muscle's share join into the run
      up to and including it. */
  lemma ServedRunsJoin<N>(pools: Pools<N>, schedule: seq<seq<N>>, quotas: map<N, nat>,
                          day: nat, j: nat, k: nat, muscle: N)
    requires day < |schedule| && j < |schedule[day]| && k == j + 1
    ensures Run(PoolOf(pools, muscle), Served(pools, schedule, quotas, muscle, day),
                ListedPicks(pools, quotas, schedule[day][..j], muscle))
          + Run(PoolOf(pools, muscle),
                Served(pools, schedule, quotas, muscle, day) + ListedPicks(pools, quotas, schedule[day][..j], muscle),
                if schedule[day][j] == muscle then Effective(pools, quotas, muscle) else 0)
         == Run(PoolOf(pools, muscle), Served(pools, schedule, quotas, muscle, day),
                ListedPicks(pools, quotas, schedule[day][..k], muscle))
  {
    ListedPicksStep(pools, quotas, schedule[day], j, muscle);
    RunJoin(PoolOf(pools, muscle), Served(pools, schedule, quotas, muscle, day),
            ListedPicks(pools, quotas, schedule[day][..j], muscle),
            Served(pools, schedule, quotas, muscle, day) + ListedPicks(pools, quotas, schedule[day][..j], muscle),
            if schedule[day][j] == muscle then Effective(pools, quotas, muscle) else 0,
            ListedPicks(pools, quotas, schedule[day][..k], muscle));
  }

  /** The rotation across the week: a muscle's picks over the first `days` days, read in
      plan order, are one run of its pool from slot 0. */
  lemma {:induction false} WeekPicks<N(!new)>(pools: Pools<N>, schedule: seq<seq<N>>, quotas: map<N, nat>,
                                     days: nat, muscle: N)
    requires Exclusive(pools) && days <= |schedule|
    ensures Picks(Flatten(Week(pools, schedule, quotas)[..days]), PoolOf(pools, muscle))
         == Run(PoolOf(pools, muscle), 0, Served(pools, schedule, quotas, muscle, days))
    decreases days, 1
  {
    if days > 0 {
      WeekPicksExtend(pools, schedule, quotas, days - 1, days, muscle);
    }
  }

  /** The inductive step of WeekPicks: day `d` extends the run of the days before it. */
  lemma WeekPicksExtend<N(!new)>(pools: Pools<N>, schedule: seq<seq<N>>, quotas: map<N, nat>,
                                 d: nat, days: nat, muscle: N)
    requires Exclusive(pools) && d < |schedule| && days == d + 1
    ensures Picks(Flatten(Week(pools, schedule, quotas)[..days]), PoolOf(pools, muscle))
         == Run(PoolOf(pools, muscle), 0, Served(pools, schedule, quotas, muscle, days))
    decreases days, 0
  {
    WeekPicks(pools, schedule, quotas, d, muscle);
    WeekPicksStep(pools, schedule, quotas, d, days, muscle);
    DayPlanPicks(pools, schedule, quotas, d, muscle);
    DaysRunsJoin(pools, schedule, quotas, d, days, muscle);
  }

  /** Appending day `d` appends that day's share to each muscle's picks. */
  lemma WeekPicksStep<N>(pools: Pools<N>, schedule: seq<seq<N>>, quotas: map<N, nat>, d: nat, days: nat, muscle: N)
    requires d < |schedule| && days == d + 1
    ensures Picks(Flatten(Week(pools, schedule, quotas)[..days]), PoolOf(pools, muscle))
         == Picks(Flatten(Week(pools, schedule, quotas)[..d]), PoolOf(pools, muscle))
            + Picks(DayPlan(pools, schedule, quotas, d), PoolOf(pools, muscle))
  {
    var week := Week(pools, schedule, quotas);
    FlattenStep(week, d);
    PicksAppend(Flatten(week[..d]), week[d], PoolOf(pools, muscle));
  }

  /** A whole day's share of a muscle is one run from where its pointer stood that morning. */
  lemma DayPlanPicks<N(!new)>(pools: Pools<N>, schedule: seq<seq<N>>, quotas: map<N, nat>, d: nat, muscle: N)
    requires Exclusive(pools) && d < |schedule|
    ensures Picks(DayPlan(pools, schedule, quotas, d), PoolOf(pools, muscle))
         == Run(PoolOf(pools, muscle), Served(pools, schedule, quotas, muscle, d),
                ListedPicks(pools, quotas, schedule[d], muscle))
  {
    DayPicks(pools, schedule, quotas, d, |schedule[d]|, muscle);
    assert schedule[d][..|schedule[d]|] == schedule[d];
  }

  /** The run of the days before day `d` and day `d`'s run join into one run. */
  lemma DaysRunsJoin<N>(pools: Pools<N>, schedule: seq<seq<N>>, quotas: map<N, nat>, d: nat, days: nat, muscle: N)
    requires d < |schedule| && days == d + 1
    ensures Run(PoolOf(pools, muscle), 0, Served(pools, schedule, quotas, muscle, d))
          + Run(PoolOf(pools, muscle), Served(pools, schedule, quotas, muscle, d),
                ListedPicks(pools, quotas, schedule[d], muscle))
         == Run(PoolOf(pools, muscle), 0, Served(pools, schedule, quotas, muscle, days))
  {
    RunJoin(PoolOf(pools, muscle), 0, Served(pools, schedule, quotas, muscle, d),
            Served(pools, schedule, quotas, muscle, d), ListedPicks(pools, quotas, schedule[d], muscle),
            Served(pools, schedule, quotas, muscle, days));
  }

  lemma FlattenStep<N>(days: seq<seq<N>>, d: nat)
    requires d < |days|
    ensures Flatten(days[..d + 1]) == Flatten(days[..d]) + days[d]
  {
    assert days[..d + 1][..d] == days[..d];
  }

  /** The rotation of one pool: pick k is `pool[k % |pool|]`, and pick |pool| is pick 0 again. */
  lemma RunRotation<N>(pool: seq<N>, count: nat)
    ensures var picks := Run(pool, 0, count);
            && (pool != [] ==> |picks| == count)
            && (forall k :: 0 <= k < |picks| ==> pool != [] && picks[k] == pool[k % |pool|])
            && (|picks| > |pool| > 0 ==> picks[|pool|] == picks[0])
  {
    var picks := Run(pool, 0, count);
    forall k | 0 <= k < |picks| ensures pool != [] && picks[k] == pool[k % |pool|] {
      RunIndex(pool, 0, count, k);
      SlotIsMod(k, |pool|);
    }
    if |picks| > |pool| > 0 {
      SlotAdvance(0, |pool| - 1, |pool|);
      SlotSucc(|pool| - 1, |pool|);
      RunIndex(pool, 0, count, |pool|);
      RunIndex(pool, 0, count, 0);
    }
  }

  /** With a duplicate-free pool, the first |pool| picks are pairwise different and, once
      there are that many, every pool entry has been picked. */
  lemma RunVariety<N>(pool: seq<N>, count: nat)
    requires Distinct(pool)
    ensures var picks := Run(pool, 0, count);
            && (forall i, j :: 0 <= i < j < |picks| && j < |pool| ==> picks[i] != picks[j])
            && (|picks| >= |pool| ==> forall x :: x in pool ==> x in picks)
  {
    var picks := Run(pool, 0, count);
    forall i, j | 0 <= i < j < |picks| && j < |pool| ensures picks[i] != picks[j] {
      RunIndex(pool, 0, count, i);
      RunIndex(pool, 0, count, j);
      SlotsDiffer(0, i, j, |pool|);
    }
    if |picks| >= |pool| {
      RunCovers(pool, count);
    }
  }

  lemma RunCovers<N>(pool: seq<N>, count: nat)
    requires |Run(pool, 0, count)| >= |pool|
    ensures forall x :: x in pool ==> x in Run(pool, 0, count)
  {
    var picks := Run(pool, 0, count);
    forall x | x in pool ensures x in picks {
      var i :| 0 <= i < |pool| && pool[i] == x;
      SlotAdvance(0, i, |pool|);
      RunIndex(pool, 0, count, i);
    }
  }

  /** The k-th pick of a muscle over the whole plan, counted from the first day, is
      `pool[k % |pool|]`: the first |pool| picks are pairwise different, every pool entry
      is used before any repeats, and pick |pool| is pick 0 again. */
  lemma RotationOrder<N(!new)>(pools: Pools<N>, schedule: seq<seq<N>>, quotas: map<N, nat>, muscle: N)
    requires Exclusive(pools) && Distinct(PoolOf(pools, muscle))
    ensures var picks := Picks(Flatten(Week(pools, schedule, quotas)), PoolOf(pools, muscle));
            var pool := PoolOf(pools, muscle);
            && (pool != [] ==> |picks| == Served(pools, schedule, quotas, muscle, |schedule|))
            && (forall k :: 0 <= k < |picks| ==> pool != [] && picks[k] == pool[k % |pool|])
            && (forall i, j :: 0 <= i < j < |picks| && j < |pool| ==> picks[i] != picks[j])
            && (|picks| >= |pool| ==> forall x :: x in pool ==> x in picks)
            && (|picks| > |pool| > 0 ==> picks[|pool|] == picks[0])
  {
    var week := Week(pools, schedule, quotas);
    assert week[..|schedule|] == week;
    WeekPicks(pools, schedule, quotas, |schedule|, muscle);
    RunRotation(PoolOf(pools, muscle), Served(pools, schedule, quotas, muscle, |schedule|));
    RunVariety(PoolOf(pools, muscle), Served(pools, schedule, quotas, muscle, |schedule|));
  }

  /** A day's contributions per muscle: the muscle's quota if the day lists it and its pool
      is non-empty, nothing otherwise, and never a repeated name when the pool is at
      least as large as the quota. */
  lemma DayQuota<N(!new)>(pools: Pools<N>, schedule: seq<seq<N>>, quotas: map<N, nat>, day: nat, muscle: N)
    requires Exclusive(pools) && Distinct(PoolOf(pools, muscle)) && day < |schedule| && Distinct(schedule[day])
    ensures var mine := Picks(DayPlan(pools, schedule, quotas, day), PoolOf(pools, muscle));
            && |mine| == (if muscle in schedule[day] && PoolOf(pools, muscle) != [] then QuotaFor(quotas, muscle) else 0)
            && (QuotaFor(quotas, muscle) <= |PoolOf(pools, muscle)| ==> Distinct(mine))
  {
    var pool := PoolOf(pools, muscle);
    var ms := schedule[day];
    DayPicks(pools, schedule, quotas, day, |ms|, muscle);
    assert ms[..|ms|] == ms;
    ListedPicksDistinct(pools, quotas, ms, muscle);
    if QuotaFor(quotas, muscle) <= |pool| {
      RunDistinct(pool, Served(pools, schedule, quotas, muscle, day), ListedPicks(pools, quotas, ms, muscle));
    }
  }

  // ---------------------------------------------------------------- shape of a day

  /** A day's plan is its muscles' picks laid end to end in list order, so its length is
      the sum of their effective quotas. */
  lemma {:induction false} DayLength<N>(pools: Pools<N>, schedule: seq<seq<N>>, quotas: map<N, nat>, day: nat, j: nat)
    requires day < |schedule| && j <= |schedule[day]|
    ensures |DayPrefix(pools, schedule, quotas, day, j)| == ListedSize(pools, quotas, schedule[day][..j])
  {
    if j > 0 {
      DayLength(pools, schedule, quotas, day, j - 1);
      var m := schedule[day][j - 1];
      assert schedule[day][..j][..j - 1] == schedule[day][..j - 1];
    }
  }

  lemma DayPlanLength<N>(pools: Pools<N>, schedule: seq<seq<N>>, quotas: map<N, nat>, day: nat)
    requires day < |schedule|
    ensures |DayPlan(pools, schedule, quotas, day)| == ListedSize(pools, quotas, schedule[day])
  {
    DayLength(pools, schedule, quotas, day, |schedule[day]|);
    assert schedule[day][..|schedule[day]|] == schedule[day];
  }

  /** Every name in a day's plan comes from the pool of a muscle listed for that day. */
  lemma {:induction false} DaySound<N>(pools: Pools<N>, schedule: seq<seq<N>>, quotas: map<N, nat>,
                                    day: nat, j: nat, x: N)
    requires day < |schedule| && j <= |schedule[day]|
    requires x in DayPrefix(pools, schedule, quotas, day, j)
    ensures exists m :: m in schedule[day] && x in PoolOf(pools, m)
  {
    if x in DayPrefix(pools, schedule, quotas, day, j - 1) {
      DaySound(pools, schedule, quotas, day, j - 1, x);
    } else {
      var m := schedule[day][j - 1];
      RunInPool(PoolOf(pools, m), Served(pools, schedule, quotas, m, day)
                + ListedPicks(pools, quotas, schedule[day][..j - 1], m), QuotaFor(quotas, m));
    }
  }

  // ---------------------------------------------------------------- the generator's week

  /** Day `d` of the generator's week is the day plan for the split's muscle list of day d + 1. */
  lemma WeekPlanDay(avail: Catalog, split: Split, days: nat, d: nat)
    requires d < days
    ensures Schedule(split, days)[d] == MuscleGroups(split, d + 1)
    ensures WeekPlan(avail, split, days)[d] == DayPlan(PoolMap(avail), Schedule(split, days), MuscleQuotas(split), d)
  {
  }

  /** Filter soundness: every exercise of the generated plan is in the catalog, suits the
      user's level and equipment, and trains a muscle the split lists for that day; in
      particular an unknown split, or a catalog with nothing eligible, yields empty days. */
  lemma PlanSound(catalog: Catalog, userLevel: Level, userEquipment: seq<string>, split: Split, days: nat,
                  d: nat, x: string)
    requires d < days
    requires x in WeekPlan(Available(catalog, userLevel, userEquipment), split, days)[d]
    ensures exists e :: && e in catalog && e.name == x && Eligible(e.ex, userLevel, userEquipment)
                        && e.ex.muscle in MuscleGroups(split, d + 1)
  {
    var avail := Available(catalog, userLevel, userEquipment);
    var schedule := Schedule(split, days);
    var pools := PoolMap(avail);
    WeekPlanDay(avail, split, days, d);
    DaySound(pools, schedule, MuscleQuotas(split), d, |schedule[d]|, x);
    var m :| m in schedule[d] && x in PoolOf(pools, m);
    PoolMapIsPool(avail, m);
    PoolMembers(avail, m, x);
  }

  /** Exact per-day counts for the generator: `quota(m)` exercises of muscle m on each day
      whose list names m, provided some eligible exercise trains m; none otherwise; and no
      repeat within the day when the muscle has at least its quota of exercises. */
  lemma PlanDayQuota(catalog: Catalog, userLevel: Level, userEquipment: seq<string>, split: Split, days: nat,
                     d: nat, muscle: string)
    requires DistinctNames(catalog) && d < days
    ensures var avail := Available(catalog, userLevel, userEquipment);
            var mine := Picks(WeekPlan(avail, split, days)[d], Pool(avail, muscle));
            && |mine| == (if muscle in MuscleGroups(split, d + 1) && Pool(avail, muscle) != [] then Quota(split, muscle) else 0)
            && (Quota(split, muscle) <= |Pool(avail, muscle)| ==> Distinct(mine))
  {
    var avail := Available(catalog, userLevel, userEquipment);
    AvailableDistinct(catalog, userLevel, userEquipment);
    PoolMapSeparated(avail);
    PoolMapIsPool(avail, muscle);
    MuscleGroupsDistinct(split, d + 1);
    WeekPlanDay(avail, split, days, d);
    DayQuota(PoolMap(avail), Schedule(split, days), MuscleQuotas(split), d, muscle);
  }

  /** The rotation for the generator: over the whole plan, a muscle's k-th exercise is
      `pool[k % |pool|]` of its catalog-ordered pool, so every eligible exercise of the
      muscle is used once before any is used twice. */
  lemma PlanRotation(catalog: Catalog, userLevel: Level, userEquipment: seq<string>, split: Split, days: nat,
                     muscle: string)
    requires DistinctNames(catalog)
    ensures var avail := Available(catalog, userLevel, userEquipment);
            var picks := Picks(Flatten(WeekPlan(avail, split, days)), Pool(avail, muscle));
            var pool := Pool(avail, muscle);
            && (forall k :: 0 <= k < |picks| ==> pool != [] && picks[k] == pool[k % |pool|])
            && (forall i, j :: 0 <= i < j < |picks| && j < |pool| ==> picks[i] != picks[j])
            && (|picks| >= |pool| ==> forall x :: x in pool ==> x in picks)
  {
    var avail := Available(catalog, userLevel, userEquipment);
    AvailableDistinct(catalog, userLevel, userEquipment);
    PoolMapSeparated(avail);
    PoolMapIsPool(avail, muscle);
    RotationOrder(PoolMap(avail), Schedule(split, days), MuscleQuotas(split), muscle);
  }

  /** With every full-body muscle represented, each FB day has 2+2+2+1+1+1+1 = 10 exercises. */
  lemma FullBodyDaySize(avail: Catalog, days: nat, d: nat)
    requires d < days
    requires forall m :: m in FullBodyDay ==> Pool(avail, m) != []
    ensures |WeekPlan(avail, FB, days)[d]| == 10
  {
    var pools := PoolMap(avail);
    var quotas := MuscleQuotas(FB);
    forall m | m in FullBodyDay ensures PoolOf(pools, m) != [] {
      PoolMapIsPool(avail, m);
    }
    WeekPlanDay(avail, FB, days, d);
    DayPlanLength(pools, Schedule(FB, days), quotas, d);
    FullBodySum(pools, quotas);
  }

  /** Under FB with no empty pool, the first three listed muscles get two picks, the rest one. */
  lemma FullBodyShares(pools: Pools<string>, quotas: map<string, nat>)
    requires quotas == MuscleQuotas(FB)
    requires forall m :: m in FullBodyDay ==> PoolOf(pools, m) != []
    ensures forall k :: 0 <= k < |FullBodyDay| ==> Effective(pools, quotas, FullBodyDay[k]) == if k < 3 then 2 else 1
  {
    forall k | 0 <= k < |FullBodyDay| ensures Effective(pools, quotas, FullBodyDay[k]) == if k < 3 then 2 else 1 {
      assert FullBodyDay[k] in FullBodyDay;
    }
  }

  lemma FullBodySum(pools: Pools<string>, quotas: map<string, nat>)
    requires quotas == MuscleQuotas(FB)
    requires forall m :: m in FullBodyDay ==> PoolOf(pools, m) != []
    ensures ListedSize(pools, quotas, FullBodyDay) == 10
  {
    var s := FullBodyDay;
    FullBodyShares(pools, quotas);
    forall k | 0 <= k < |s| ensures s[..k + 1][..k] == s[..k] {
    }
    assert ListedSize(pools, quotas, s[..1]) == 2;
    assert ListedSize(pools, quotas, s[..3]) == 6 by {
      assert ListedSize(pools, quotas, s[..2]) == 4;
    }
    assert ListedSize(pools, quotas, s[..6]) == 9 by {
      assert ListedSize(pools, quotas, s[..4]) == 7;
      assert ListedSize(pools, quotas, s[..5]) == 8;
    }
    assert ListedSize(pools, quotas, s[..7]) == 10;
    assert s[..7] == s;
  }
}
