/** The current generator, bfs_reserve_workout_plan of src/bfs_algorithm.py: per-muscle
    pools, and a per-muscle rotation pointer shared by all days of one run.

    The specification is stated for any schedule (the list of muscle lists, one per day)
    and any quota table; WeekPlan instantiates it with the split planner's tables. */
module RoundRobin {
  import opened Exercises
  import opened Splits
  import opened Slots

  /** `muscle_pools`: a defaultdict(list) from muscle to exercise names. */
  type Pools<N> = map<N, seq<N>>

  /** `muscle_pools.get(muscle, [])`. */
  function PoolOf<N(==)>(pools: Pools<N>, muscle: N): seq<N>
  {
    if muscle in pools then pools[muscle] else []
  }

  /** `muscle_pointers[muscle]` of a defaultdict(int). */
  function Pointer<N(==)>(pointers: map<N, nat>, muscle: N): nat
  {
    if muscle in pointers then pointers[muscle] else 0
  }

  /** The pool of a muscle: names of the entries training it, in catalog order. */
  function Pool(c: Catalog, muscle: string): seq<string>
  {
    if c == [] then []
    else
      var last := c[|c| - 1];
      Pool(c[..|c| - 1], muscle) + (if last.ex.muscle == muscle then [last.name] else [])
  }

  /** The pools the grouping loop builds: each entry's name appended to its muscle's list,
      in catalog order; a muscle gets a key only once it has an entry. */
  function PoolMap(c: Catalog): (pools: Pools<string>)
    ensures forall m :: m in pools ==> pools[m] != []
  {
    if c == [] then map[]
    else
      var pools := PoolMap(c[..|c| - 1]);
      var last := c[|c| - 1];
      pools[last.ex.muscle := PoolOf(pools, last.ex.muscle) + [last.name]]
  }

  /** Picks a muscle receives each time it is listed: its quota, or none if its pool is empty. */
  function Effective<N(==)>(pools: Pools<N>, quotas: map<N, nat>, muscle: N): nat
  {
    if PoolOf(pools, muscle) == [] then 0 else QuotaFor(quotas, muscle)
  }

  /** Picks made for `muscle` while walking the muscle list `ms`. */
  function ListedPicks<N(==)>(pools: Pools<N>, quotas: map<N, nat>, ms: seq<N>, muscle: N): nat
  {
    if ms == [] then 0
    else ListedPicks(pools, quotas, ms[..|ms| - 1], muscle)
         + (if ms[|ms| - 1] == muscle then Effective(pools, quotas, muscle) else 0)
  }

  /** The value of the muscle's pointer when day `day` (0-based) starts: the picks made
      for it on the days before. */
  function Served<N(==)>(pools: Pools<N>, schedule: seq<seq<N>>, quotas: map<N, nat>, muscle: N, day: nat): nat
    requires day <= |schedule|
  {
    if day == 0 then 0
    else Served(pools, schedule, quotas, muscle, day - 1) + ListedPicks(pools, quotas, schedule[day - 1], muscle)
  }

  /** `count` consecutive round-robin picks from `pool`, the pointer starting at `start`. */
  function Run<N(==)>(pool: seq<N>, start: nat, count: nat): (picks: seq<N>)
    ensures |picks| == if pool == [] then 0 else count
  {
    if pool == [] || count == 0 then [] else Run(pool, start, count - 1) + [pool[Slot(start + count - 1, |pool|)]]
  }

  /** The picks for the `j`-th muscle of day `day`: its quota, from where its pointer stands. */
  function Segment<N(==)>(pools: Pools<N>, schedule: seq<seq<N>>, quotas: map<N, nat>, day: nat, j: nat): seq<N>
    requires day < |schedule| && j < |schedule[day]|
  {
    var m := schedule[day][j];
    Run(PoolOf(pools, m),
        Served(pools, schedule, quotas, m, day) + ListedPicks(pools, quotas, schedule[day][..j], m),
        QuotaFor(quotas, m))
  }

  /** The plan of day `day` (0-based) after its first `j` muscles. */
  function DayPrefix<N(==)>(pools: Pools<N>, schedule: seq<seq<N>>, quotas: map<N, nat>, day: nat, j: nat): seq<N>
    requires day < |schedule| && j <= |schedule[day]|
  {
    if j == 0 then []
    else DayPrefix(pools, schedule, quotas, day, j - 1) + Segment(pools, schedule, quotas, day, j - 1)
  }

  function DayPlan<N(==)>(pools: Pools<N>, schedule: seq<seq<N>>, quotas: map<N, nat>, day: nat): seq<N>
    requires day < |schedule|
  {
    DayPrefix(pools, schedule, quotas, day, |schedule[day]|)
  }

  /** One plan per scheduled day, in day order. */
  function Week<N(==)>(pools: Pools<N>, schedule: seq<seq<N>>, quotas: map<N, nat>): seq<seq<N>>
  {
    seq(|schedule|, d requires 0 <= d < |schedule| => DayPlan(pools, schedule, quotas, d))
  }

  /** `[get_muscle_groups(split, i+1) for i in range(days)]`. */
  function Schedule(split: Split, days: nat): seq<seq<string>>
  {
    seq(days, i requires 0 <= i < days => MuscleGroups(split, i + 1))
  }

  /** The week the generator promises for a split, from the pools of the filtered catalog. */
  function WeekPlan(avail: Catalog, split: Split, days: nat): seq<seq<string>>
  {
    Week(PoolMap(avail), Schedule(split, days), MuscleQuotas(split))
  }

  /** The grouping loop yields the filter-defined pools: each muscle's list holds the
      names of the entries training it, in catalog order. */
  lemma {:induction false} PoolMapIsPool(c: Catalog, muscle: string)
    ensures PoolOf(PoolMap(c), muscle) == Pool(c, muscle)
  {
    if c != [] {
      PoolMapIsPool(c[..|c| - 1], muscle);
    }
  }

  /** The pool-building loop: append each available name to its muscle's list. */
  method BuildPools(avail: Catalog) returns (pools: Pools<string>)
    ensures pools == PoolMap(avail)
    ensures forall m :: PoolOf(pools, m) == Pool(avail, m)
  {
    pools := map[];
    var i := 0;
    while i < |avail|
      invariant 0 <= i <= |avail|
      invariant pools == PoolMap(avail[..i])
    {
      var entry := avail[i];
      assert avail[..i + 1][..i] == avail[..i];
      pools := pools[entry.ex.muscle := PoolOf(pools, entry.ex.muscle) + [entry.name]];
      i := i + 1;
    }
    assert avail[..|avail|] == avail;
    forall m ensures PoolOf(pools, m) == Pool(avail, m) {
      PoolMapIsPool(avail, m);
    }
  }

  /** One more pick extends a run by the pool entry at the pointer. */
  lemma RunStep<N>(pool: seq<N>, start: nat, k: nat)
    requires pool != []
    ensures Run(pool, start, k + 1) == Run(pool, start, k) + [pool[Slot(start + k, |pool|)]]
  {
  }

  lemma ListedPicksStep<N>(pools: Pools<N>, quotas: map<N, nat>, ms: seq<N>, j: nat, muscle: N)
    requires j < |ms|
    ensures ListedPicks(pools, quotas, ms[..j + 1], muscle)
         == ListedPicks(pools, quotas, ms[..j], muscle) + (if ms[j] == muscle then Effective(pools, quotas, muscle) else 0)
  {
    assert ms[..j + 1][..j] == ms[..j];
  }

  /** The picks for the `j`-th muscle of a day extend that day's plan. */
  lemma DayPrefixStep<N>(pools: Pools<N>, schedule: seq<seq<N>>, quotas: map<N, nat>, day: nat, j: nat,
                      muscle: N, start: nat)
    requires day < |schedule| && j < |schedule[day]| && muscle == schedule[day][j]
    requires start == Served(pools, schedule, quotas, muscle, day) + ListedPicks(pools, quotas, schedule[day][..j], muscle)
    ensures DayPrefix(pools, schedule, quotas, day, j + 1)
         == DayPrefix(pools, schedule, quotas, day, j) + Run(PoolOf(pools, muscle), start, QuotaFor(quotas, muscle))
  {
    assert Segment(pools, schedule, quotas, day, j) == Run(PoolOf(pools, muscle), start, QuotaFor(quotas, muscle));
  }

  /** The quota loop for one muscle on one day: take the pool entry at the muscle's pointer
      (modulo the pool size) and advance the pointer, `quota` times. */
  method SelectRoundRobin<N(==,!new)>(pointers: map<N, nat>, muscle: N, pool: seq<N>, quota: nat)
    returns (selected: seq<N>, pointers': map<N, nat>)
    requires pool != []
    ensures selected == Run(pool, Pointer(pointers, muscle), quota)
    ensures |selected| == quota
    ensures Pointer(pointers', muscle) == Pointer(pointers, muscle) + quota
    ensures forall m :: m != muscle ==> Pointer(pointers', m) == Pointer(pointers, m)
  {
    var start := Pointer(pointers, muscle);
    pointers' := pointers;
    selected := [];
    var poolSize := |pool|;
    var k := 0;
    while k < quota
      invariant 0 <= k <= quota
      invariant selected == Run(pool, start, k)
      invariant Pointer(pointers', muscle) == start + k
      invariant forall m :: m != muscle ==> Pointer(pointers', m) == Pointer(pointers, m)
    {
      RunStep(pool, start, k);
      var idx := Pointer(pointers', muscle) % poolSize;
      SlotIsMod(Pointer(pointers', muscle), poolSize);
      var exercise := pool[idx];
      pointers' := pointers'[muscle := Pointer(pointers', muscle) + 1];
      selected := selected + [exercise];
      k := k + 1;
    }
  }

  /** One day of bfs_reserve_workout_plan: walk the day's muscle list, skip muscles with an
      empty pool, and append each other muscle's quota of round-robin picks. */
  method PlanDay<N(==,!new)>(musclePools: Pools<N>, quotas: map<N, nat>, muscleGroups: seq<seq<N>>,
                 day: nat, musclePointers: map<N, nat>)
    returns (planForDay: seq<N>, pointers': map<N, nat>)
    requires day < |muscleGroups|
    requires forall m :: Pointer(musclePointers, m) == Served(musclePools, muscleGroups, quotas, m, day)
    ensures planForDay == DayPlan(musclePools, muscleGroups, quotas, day)
    ensures forall m :: Pointer(pointers', m) == Served(musclePools, muscleGroups, quotas, m, day + 1)
  {
    pointers' := musclePointers;
    planForDay := [];
    var targetMuscles := muscleGroups[day];
    var j := 0;
    while j < |targetMuscles|
      invariant 0 <= j <= |targetMuscles|
      invariant planForDay == DayPrefix(musclePools, muscleGroups, quotas, day, j)
      invariant forall m :: (Pointer(pointers', m) ==
        Served(musclePools, muscleGroups, quotas, m, day) + ListedPicks(musclePools, quotas, targetMuscles[..j], m))
    {
      var muscle := targetMuscles[j];
      var quota := QuotaFor(quotas, muscle);
      var pool := PoolOf(musclePools, muscle);
      DayPrefixStep(musclePools, muscleGroups, quotas, day, j, muscle, Pointer(pointers', muscle));
      if pool == [] {
        forall m ensures Pointer(pointers', m) ==
          Served(musclePools, muscleGroups, quotas, m, day) + ListedPicks(musclePools, quotas, targetMuscles[..j + 1], m)
        {
          ListedPicksStep(musclePools, quotas, targetMuscles, j, m);
        }
        j := j + 1;
        continue;
      }
      ghost var before := pointers';
      var selected;
      selected, pointers' := SelectRoundRobin(pointers', muscle, pool, quota);
      planForDay := planForDay + selected;
      forall m ensures Pointer(pointers', m) ==
        Served(musclePools, muscleGroups, quotas, m, day) + ListedPicks(musclePools, quotas, targetMuscles[..j + 1], m)
      {
        assert Pointer(before, m) ==
          Served(musclePools, muscleGroups, quotas, m, day) + ListedPicks(musclePools, quotas, targetMuscles[..j], m);
        ListedPicksStep(musclePools, quotas, targetMuscles, j, m);
      }
      j := j + 1;
    }
    assert targetMuscles[..|targetMuscles|] == targetMuscles;
  }

  /** The day loop of bfs_reserve_workout_plan: the pointers start at 0 and are shared by
      all days. */
  method SelectPlan<N(==,!new)>(musclePools: Pools<N>, quotas: map<N, nat>, muscleGroups: seq<seq<N>>)
    returns (plan: seq<seq<N>>)
    ensures plan == Week(musclePools, muscleGroups, quotas)
  {
    var musclePointers: map<N, nat> := map[];
    plan := [];
    var day := 0;
    while day < |muscleGroups|
      invariant 0 <= day <= |muscleGroups| && |plan| == day
      invariant forall d :: 0 <= d < day ==> plan[d] == DayPlan(musclePools, muscleGroups, quotas, d)
      invariant forall m :: Pointer(musclePointers, m) == Served(musclePools, muscleGroups, quotas, m, day)
    {
      var planForDay;
      planForDay, musclePointers := PlanDay(musclePools, quotas, muscleGroups, day, musclePointers);
      plan := plan + [planForDay];
      day := day + 1;
    }
  }

  /** bfs_reserve_workout_plan: filter, pool, look up the split's tables, then plan the
      days. A negative `days` behaves as `range(days)` does: no days. */
  method GeneratePlan(catalog: Catalog, userLevel: Level, userEquipment: seq<string>, days: int, split: Split)
    returns (plan: seq<seq<string>>)
    ensures |plan| == if days < 0 then 0 else days
    ensures plan == WeekPlan(Available(catalog, userLevel, userEquipment), split, |plan|)
  {
    var available := Available(catalog, userLevel, userEquipment);
    var musclePools := BuildPools(available);
    var quotas := MuscleQuotas(split);
    var muscleGroups := Schedule(split, if days < 0 then 0 else days);
    plan := SelectPlan(musclePools, quotas, muscleGroups);
  }
}
