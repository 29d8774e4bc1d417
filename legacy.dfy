/** The legacy generator, bfs_reserve_workout_plan of newBFS.py: a reserve deque and a
    used set per muscle, at most two exercises per listed muscle, and a refill from the
    full pool when the reserve runs short.

    Its building blocks are modelled as the loops they are (ChooseExercises, LegacyPlanDay,
    LegacySelectPlan). The contract of LegacySelectPlan is the main theorem: on pools
    without repeated names (which the catalog's unique keys guarantee) the generator
    produces exactly the round-robin week of RoundRobin with a quota of two per muscle,
    capped by the pool's size (Cap). The proof keeps each muscle's reserve and used set in
    step with a round-robin pointer (Tracks). The legacy properties then follow from the
    round-robin ones. */
module Legacy {
  import opened Exercises
  import opened Splits
  import opened Slots
  import opened RoundRobin
  import opened PlanProperties

  /** get_muscle_groups of newBFS.py: the same lists as the current module for FB and AB,
      but without a fallback branch, so any other split yields None. */
  function LegacyMuscleGroups(split: Split, day: int): (r: Option<seq<string>>)
    ensures r.None? <==> split == Other
    ensures r.Some? ==> r.value == MuscleGroups(split, day)
  {
    match split
    case FB => Some(["chest", "back", "legs", "triceps", "shoulders", "core", "biceps"])
    case AB => if day % 2 == 1 then Some(["chest", "triceps", "shoulders", "core"])
               else Some(["back", "legs", "biceps", "core"])
    case Other => None
  }

  // ---------------------------------------------------------------- one muscle on one day

  /** What one of the two while loops leaves behind: the names chosen so far, the rest of
      the deque, and the muscle's used set. */
  datatype Pass<N> = Pass(chosen: seq<N>, reserve: seq<N>, used: set<N>)

  /** The first while loop: pop names off the front of the reserve, keep those not yet
      used by this muscle, and stop once two are chosen or the reserve is empty. */
  function Drain<N(==)>(reserve: seq<N>, used: set<N>, chosen: seq<N>): (r: Pass<N>)
    requires |chosen| <= 2
    ensures |chosen| <= |r.chosen| <= 2
    decreases |reserve|
  {
    if reserve == [] || |chosen| == 2 then Pass(chosen, reserve, used)
    else if reserve[0] !in used then Drain(reserve[1..], used + {reserve[0]}, chosen + [reserve[0]])
    else Drain(reserve[1..], used, chosen)
  }

  /** The refill loop: pop names off the front of a fresh copy of the pool, skip those
      already chosen today, and stop once two are chosen or the copy is empty. */
  function Fill<N(==)>(reserve: seq<N>, used: set<N>, chosen: seq<N>): (r: Pass<N>)
    requires |chosen| <= 2
    ensures |chosen| <= |r.chosen| <= 2
    decreases |reserve|
  {
    if reserve == [] || |chosen| == 2 then Pass(chosen, reserve, used)
    else if reserve[0] !in chosen then Fill(reserve[1..], used + {reserve[0]}, chosen + [reserve[0]])
    else Fill(reserve[1..], used, chosen)
  }

  /** The whole per-muscle step: drain the reserve and, if that gave fewer than two names,
      reset the used set and refill from the pool. */
  function Choose<N(==)>(pool: seq<N>, reserve: seq<N>, used: set<N>): (r: Pass<N>)
    ensures |r.chosen| <= 2
  {
    var first := Drain(reserve, used, []);
    if |first.chosen| < 2 then Fill(pool, {}, first.chosen) else first
  }

  /** Lines 144-164 for one listed muscle: the two while loops over the deque, written
      with `popleft` as taking the head of the sequence. */
  method ChooseExercises<N(==)>(pool: seq<N>, reserve: seq<N>, used: set<N>)
    returns (chosen: seq<N>, reserve': seq<N>, used': set<N>)
    ensures Pass(chosen, reserve', used') == Choose(pool, reserve, used)
  {
    chosen := [];
    reserve' := reserve;
    used' := used;
    while reserve' != [] && |chosen| < 2
      invariant |chosen| <= 2
      invariant Drain(reserve', used', chosen) == Drain(reserve, used, [])
      decreases |reserve'|
    {
      var ex := reserve'[0];
      reserve' := reserve'[1..];
      if ex !in used' {
        chosen := chosen + [ex];
        used' := used' + {ex};
      }
    }
    if |chosen| < 2 {
      used' := {};
      reserve' := pool;
      while reserve' != [] && |chosen| < 2
        invariant |chosen| <= 2
        invariant Fill(reserve', used', chosen) == Fill(pool, {}, Drain(reserve, used, []).chosen)
        decreases |reserve'|
      {
        var ex := reserve'[0];
        reserve' := reserve'[1..];
        if ex !in chosen {
          chosen := chosen + [ex];
          used' := used' + {ex};
        }
      }
    }
  }

  /** The drain keeps what was chosen and leaves a suffix of the reserve behind, empty
      when it stopped short of two names. */
  lemma {:induction false} DrainShape<N>(reserve: seq<N>, used: set<N>, chosen: seq<N>)
    requires |chosen| <= 2
    ensures var r := Drain(reserve, used, chosen);
            && r.chosen[..|chosen|] == chosen
            && |r.reserve| <= |reserve| && r.reserve == reserve[|reserve| - |r.reserve|..]
            && (|r.chosen| < 2 ==> r.reserve == [])
    decreases |reserve|
  {
    if reserve != [] && |chosen| < 2 {
      var x := reserve[0];
      if x !in used {
        DrainShape(reserve[1..], used + {x}, chosen + [x]);
      } else {
        DrainShape(reserve[1..], used, chosen);
      }
    }
  }

  /** The drain adds only names from the reserve that the muscle has not used. */
  lemma {:induction false} DrainFresh<N>(reserve: seq<N>, used: set<N>, chosen: seq<N>)
    requires |chosen| <= 2
    ensures var r := Drain(reserve, used, chosen);
            forall x :: x in r.chosen[|chosen|..] ==> x in reserve && x !in used
    decreases |reserve|
  {
    if reserve != [] && |chosen| < 2 {
      var x := reserve[0];
      if x !in used {
        DrainFresh(reserve[1..], used + {x}, chosen + [x]);
        DrainShape(reserve[1..], used + {x}, chosen + [x]);
        var r := Drain(reserve, used, chosen);
        assert r.chosen[|chosen|..] == [x] + r.chosen[|chosen| + 1..];
      } else {
        DrainFresh(reserve[1..], used, chosen);
      }
    }
  }

  /** The drain never adds the same name twice. */
  lemma {:induction false} DrainDistinct<N>(reserve: seq<N>, used: set<N>, chosen: seq<N>)
    requires |chosen| <= 2
    ensures Distinct(Drain(reserve, used, chosen).chosen[|chosen|..])
    decreases |reserve|
  {
    if reserve != [] && |chosen| < 2 {
      var x := reserve[0];
      if x !in used {
        DrainDistinct(reserve[1..], used + {x}, chosen + [x]);
        DrainFresh(reserve[1..], used + {x}, chosen + [x]);
        DrainShape(reserve[1..], used + {x}, chosen + [x]);
        var r := Drain(reserve, used, chosen);
        assert r.chosen[|chosen|..] == [x] + r.chosen[|chosen| + 1..];
      } else {
        DrainDistinct(reserve[1..], used, chosen);
      }
    }
  }

  /** The used set after the drain is the one before it plus the names it added. */
  lemma {:induction false} DrainUsed<N>(reserve: seq<N>, used: set<N>, chosen: seq<N>)
    requires |chosen| <= 2
    ensures var r := Drain(reserve, used, chosen);
            forall x :: x in r.used <==> x in used || x in r.chosen[|chosen|..]
    decreases |reserve|
  {
    if reserve != [] && |chosen| < 2 {
      var x := reserve[0];
      if x !in used {
        DrainUsed(reserve[1..], used + {x}, chosen + [x]);
        DrainShape(reserve[1..], used + {x}, chosen + [x]);
        var r := Drain(reserve, used, chosen);
        assert r.chosen[|chosen|..] == [x] + r.chosen[|chosen| + 1..];
      } else {
        DrainUsed(reserve[1..], used, chosen);
      }
    }
  }

  /** The refill keeps what was chosen and leaves a suffix of the pool's copy behind,
      empty when it stopped short of two names. */
  lemma {:induction false} FillShape<N>(reserve: seq<N>, used: set<N>, chosen: seq<N>)
    requires |chosen| <= 2
    ensures var r := Fill(reserve, used, chosen);
            && r.chosen[..|chosen|] == chosen
            && |r.reserve| <= |reserve| && r.reserve == reserve[|reserve| - |r.reserve|..]
            && (|r.chosen| < 2 ==> r.reserve == [])
    decreases |reserve|
  {
    if reserve != [] && |chosen| < 2 {
      var x := reserve[0];
      if x !in chosen {
        FillShape(reserve[1..], used + {x}, chosen + [x]);
      } else {
        FillShape(reserve[1..], used, chosen);
      }
    }
  }

  /** The refill adds only names from the pool's copy that are not chosen yet. */
  lemma {:induction false} FillFresh<N>(reserve: seq<N>, used: set<N>, chosen: seq<N>)
    requires |chosen| <= 2
    ensures var r := Fill(reserve, used, chosen);
            forall x :: x in r.chosen[|chosen|..] ==> x in reserve && x !in chosen
    decreases |reserve|
  {
    if reserve != [] && |chosen| < 2 {
      var x := reserve[0];
      if x !in chosen {
        FillFresh(reserve[1..], used + {x}, chosen + [x]);
        FillShape(reserve[1..], used + {x}, chosen + [x]);
        var r := Fill(reserve, used, chosen);
        assert r.chosen[|chosen|..] == [x] + r.chosen[|chosen| + 1..];
      } else {
        FillFresh(reserve[1..], used, chosen);
      }
    }
  }

  /** The refill never adds the same name twice. */
  lemma {:induction false} FillDistinct<N>(reserve: seq<N>, used: set<N>, chosen: seq<N>)
    requires |chosen| <= 2
    ensures Distinct(Fill(reserve, used, chosen).chosen[|chosen|..])
    decreases |reserve|
  {
    if reserve != [] && |chosen| < 2 {
      var x := reserve[0];
      if x !in chosen {
        FillDistinct(reserve[1..], used + {x}, chosen + [x]);
        FillFresh(reserve[1..], used + {x}, chosen + [x]);
        FillShape(reserve[1..], used + {x}, chosen + [x]);
        var r := Fill(reserve, used, chosen);
        assert r.chosen[|chosen|..] == [x] + r.chosen[|chosen| + 1..];
      } else {
        FillDistinct(reserve[1..], used, chosen);
      }
    }
  }

  /** The used set after the refill is the one before it plus the names it added. */
  lemma {:induction false} FillUsed<N>(reserve: seq<N>, used: set<N>, chosen: seq<N>)
    requires |chosen| <= 2
    ensures var r := Fill(reserve, used, chosen);
            forall x :: x in r.used <==> x in used || x in r.chosen[|chosen|..]
    decreases |reserve|
  {
    if reserve != [] && |chosen| < 2 {
      var x := reserve[0];
      if x !in chosen {
        FillUsed(reserve[1..], used + {x}, chosen + [x]);
        FillShape(reserve[1..], used + {x}, chosen + [x]);
        var r := Fill(reserve, used, chosen);
        assert r.chosen[|chosen|..] == [x] + r.chosen[|chosen| + 1..];
      } else {
        FillUsed(reserve[1..], used, chosen);
      }
    }
  }

  /** From any state the step chooses at most two names, never one twice, each from the
      reserve or the pool. */
  lemma ChooseDistinct<N>(pool: seq<N>, reserve: seq<N>, used: set<N>)
    ensures var r := Choose(pool, reserve, used);
            && |r.chosen| <= 2 && Distinct(r.chosen)
            && forall x :: x in r.chosen ==> x in reserve || x in pool
  {
    var first := Drain(reserve, used, []);
    DrainDistinct(reserve, used, []);
    DrainFresh(reserve, used, []);
    assert first.chosen[0..] == first.chosen;
    if |first.chosen| < 2 {
      var k := |first.chosen|;
      var r := Fill(pool, {}, first.chosen);
      FillShape(pool, {}, first.chosen);
      FillFresh(pool, {}, first.chosen);
      FillDistinct(pool, {}, first.chosen);
      var added := r.chosen[k..];
      if |r.chosen| == 2 {
        if k == 0 {
          assert added == r.chosen;
        } else {
          assert r.chosen[0] == first.chosen[0] && r.chosen[1] == added[0];
          assert added[0] in added && first.chosen[0] in first.chosen;
        }
        assert r.chosen[0] != r.chosen[1];
      }
      forall x | x in r.chosen ensures x in reserve || x in pool {
        if x !in first.chosen {
          assert r.chosen == first.chosen + added;
        }
      }
    }
  }

  /** From any state, while the reserve lasts only names the muscle has not used are
      taken, and a full drain keeps the rest of the reserve and grows the used set by the
      two names. */
  lemma ChooseDrained<N>(pool: seq<N>, reserve: seq<N>, used: set<N>)
    ensures var first := Drain(reserve, used, []);
            var r := Choose(pool, reserve, used);
            && (forall x :: x in first.chosen ==> x in reserve && x !in used)
            && (|first.chosen| == 2 ==>
                  && r == first
                  && |r.reserve| <= |reserve| && r.reserve == reserve[|reserve| - |r.reserve|..]
                  && forall x :: x in r.used <==> x in used || x in r.chosen)
  {
    var first := Drain(reserve, used, []);
    DrainShape(reserve, used, []);
    DrainFresh(reserve, used, []);
    DrainUsed(reserve, used, []);
    assert first.chosen[0..] == first.chosen;
  }

  /** From any state, a drain that falls short is followed by a refill: the names drained
      stay first, the used set then holds only the names the refill took, and the rest of
      the pool's copy is the new reserve. */
  lemma ChooseRefill<N>(pool: seq<N>, reserve: seq<N>, used: set<N>)
    requires |Drain(reserve, used, []).chosen| < 2
    ensures var first := Drain(reserve, used, []);
            var r := Choose(pool, reserve, used);
            && r.chosen[..|first.chosen|] == first.chosen
            && |r.reserve| <= |pool| && r.reserve == pool[|pool| - |r.reserve|..]
            && forall x :: x in r.used <==> x in r.chosen[|first.chosen|..]
  {
    var first := Drain(reserve, used, []);
    FillShape(pool, {}, first.chosen);
    FillUsed(pool, {}, first.chosen);
  }

  // ---------------------------------------------------------------- the step as a rotation

  /** Names per listed muscle: two, or one when the pool has fewer than two. */
  function Cap<N>(pool: seq<N>): (c: nat)
    ensures 1 <= c <= 2 && (c <= |pool| <==> pool != [])
  {
    if |pool| >= 2 then 2 else 1
  }

  /** A muscle's state seen as a round-robin pointer: the reserve is the pool's tail from
      position q = |pool| - |reserve|, no used name is still in the reserve, and q matches
      the pointer modulo the pool size (an empty reserve standing for position 0). */
  ghost predicate Tracks<N>(pool: seq<N>, reserve: seq<N>, used: set<N>, pointer: nat)
  {
    && |reserve| <= |pool|
    && (forall i :: 0 <= i < |reserve| ==> reserve[i] == pool[|pool| - |reserve| + i])
    && (forall x :: x in used ==> x !in reserve)
    && (pool != [] ==> Slot(pointer, |pool|) == if reserve == [] then 0 else |pool| - |reserve|)
  }

  lemma TwoRun<N>(pool: seq<N>, pointer: nat)
    requires pool != []
    ensures Run(pool, pointer, 2) == [pool[Slot(pointer, |pool|)], pool[Slot(pointer + 1, |pool|)]]
  {
    RunStep(pool, pointer, 1);
    RunStep(pool, pointer, 0);
  }

  /** Two or more names left in the reserve: both come from it, in order. */
  lemma ChooseTracksFull<N>(pool: seq<N>, reserve: seq<N>, used: set<N>, pointer: nat)
    requires Distinct(pool) && Tracks(pool, reserve, used, pointer) && |reserve| >= 2
    ensures var r := Choose(pool, reserve, used);
            r.chosen == Run(pool, pointer, 2) && Tracks(pool, r.reserve, r.used, pointer + 2)
  {
    var n, q := |pool|, |pool| - |reserve|;
    var a, b := reserve[0], reserve[1];
    assert a == pool[q] && b == pool[q + 1];
    assert a in reserve && b in reserve && a != b;
    var used1 := used + {a};
    var used2 := used1 + {b};
    assert [] + [a] == [a] && [a] + [b] == [a, b];
    assert Drain(reserve, used, []) == Drain(reserve[1..], used1, [a]);
    assert Drain(reserve[1..], used1, [a]) == Drain(reserve[2..], used2, [a, b]);
    SlotSucc(pointer, n);
    SlotSucc(pointer + 1, n);
    TwoRun(pool, pointer);
    var rest := reserve[2..];
    forall i | 0 <= i < |rest| ensures rest[i] == pool[n - |rest| + i] {
      assert rest[i] == reserve[i + 2];
    }
    forall x | x in used2 ensures x !in rest {
      forall i | 0 <= i < |rest| ensures rest[i] != x {
        assert rest[i] == reserve[i + 2] == pool[q + 2 + i];
        assert reserve[i + 2] in reserve;
      }
    }
  }

  /** One name left in the reserve: the drain takes the pool's last name, the refill adds
      its first, and the pool's copy without that first name becomes the reserve. */
  lemma ChooseTracksLast<N>(pool: seq<N>, reserve: seq<N>, used: set<N>, pointer: nat)
    requires Distinct(pool) && Tracks(pool, reserve, used, pointer) && |pool| >= 2 && |reserve| == 1
    ensures var r := Choose(pool, reserve, used);
            r.chosen == Run(pool, pointer, 2) && Tracks(pool, r.reserve, r.used, pointer + 2)
  {
    var n := |pool|;
    var last, first := pool[n - 1], pool[0];
    assert reserve[0] == last;
    assert reserve == [last] && reserve[1..] == [];
    assert last in reserve && first != last;
    assert Drain(reserve, used, []) == Drain(reserve[1..], used + {last}, [] + [last]);
    assert Drain(reserve, used, []).chosen == [last];
    assert Fill(pool, {}, [last]) == Fill(pool[1..], {} + {first}, [last] + [first]);
    var r := Choose(pool, reserve, used);
    assert r == Pass([last, first], pool[1..], {first});
    SlotSucc(pointer, n);
    SlotSucc(pointer + 1, n);
    TwoRun(pool, pointer);
    var rest := pool[1..];
    forall i | 0 <= i < |rest| ensures rest[i] == pool[n - |rest| + i] && rest[i] != first {
      assert rest[i] == pool[1 + i];
    }
  }

  /** An empty reserve: the refill takes the pool's first two names. */
  lemma ChooseTracksEmpty<N>(pool: seq<N>, used: set<N>, pointer: nat)
    requires Distinct(pool) && Tracks(pool, [], used, pointer) && |pool| >= 2
    ensures var r := Choose(pool, [], used);
            r.chosen == Run(pool, pointer, 2) && Tracks(pool, r.reserve, r.used, pointer + 2)
  {
    var n := |pool|;
    assert pool[0] != pool[1];
    assert [] + [pool[0]] == [pool[0]] && [pool[0]] + [pool[1]] == [pool[0], pool[1]];
    assert {} + {pool[0]} == {pool[0]} && {pool[0]} + {pool[1]} == {pool[0], pool[1]};
    assert Fill(pool, {}, []) == Fill(pool[1..], {} + {pool[0]}, [] + [pool[0]]);
    assert Fill(pool[1..], {pool[0]}, [pool[0]]) == Fill(pool[2..], {pool[0]} + {pool[1]}, [pool[0]] + [pool[1]]);
    SlotSucc(pointer, n);
    SlotSucc(pointer + 1, n);
    TwoRun(pool, pointer);
    var rest := pool[2..];
    forall i | 0 <= i < |rest|
      ensures rest[i] == pool[n - |rest| + i] && rest[i] != pool[0] && rest[i] != pool[1]
    {
      assert rest[i] == pool[2 + i];
    }
  }

  /** A one-name pool: that name, once, whether it comes from the reserve or the refill
      (which skips it when the drain already took it). */
  lemma ChooseTracksSingle<N>(pool: seq<N>, reserve: seq<N>, used: set<N>, pointer: nat)
    requires Tracks(pool, reserve, used, pointer) && |pool| == 1
    ensures var r := Choose(pool, reserve, used);
            r.chosen == Run(pool, pointer, 1) && Tracks(pool, r.reserve, r.used, pointer + 1)
  {
    var c := pool[0];
    assert pool == [c] && pool[1..] == [];
    RunStep(pool, pointer, 0);
    assert Run(pool, pointer, 1) == [c];
    var r := Choose(pool, reserve, used);
    if reserve == [] {
      assert Fill(pool, {}, []) == Fill(pool[1..], {} + {c}, [] + [c]);
      assert r == Pass([c], [], {c});
    } else {
      assert reserve[0] == c;
      assert reserve == [c] && reserve[1..] == [];
      assert c in reserve;
      assert Drain(reserve, used, []) == Drain(reserve[1..], used + {c}, [] + [c]);
      assert Drain(reserve, used, []).chosen == [c];
      assert Fill(pool, {}, [c]) == Fill(pool[1..], {}, [c]);
      assert r == Pass([c], [], {});
    }
    assert Slot(pointer + 1, 1) == 0;
  }

  /** The step chooses exactly the next round-robin run of the muscle's pool, of length
      Cap(pool), and leaves a state that tracks the pointer advanced by the names chosen. */
  lemma ChooseTracks<N>(pool: seq<N>, reserve: seq<N>, used: set<N>, pointer: nat)
    requires Distinct(pool) && Tracks(pool, reserve, used, pointer)
    ensures var r := Choose(pool, reserve, used);
            && r.chosen == Run(pool, pointer, Cap(pool))
            && Tracks(pool, r.reserve, r.used, pointer + |r.chosen|)
  {
    if pool == [] {
      assert Choose(pool, reserve, used) == Pass([], [], {});
    } else if |pool| == 1 {
      ChooseTracksSingle(pool, reserve, used, pointer);
    } else if |reserve| >= 2 {
      ChooseTracksFull(pool, reserve, used, pointer);
    } else if |reserve| == 1 {
      ChooseTracksLast(pool, reserve, used, pointer);
    } else {
      ChooseTracksEmpty(pool, used, pointer);
    }
  }

  // ---------------------------------------------------------------- the week

  /** `reserve_per_muscle.get(muscle, deque())`. */
  function ReserveOf<N(==)>(reserves: map<N, seq<N>>, muscle: N): seq<N>
  {
    if muscle in reserves then reserves[muscle] else []
  }

  /** `used_per_muscle[muscle]` of a defaultdict(set). */
  function UsedOf<N(==)>(used: map<N, set<N>>, muscle: N): set<N>
  {
    if muscle in used then used[muscle] else {}
  }

  /** The round-robin quota table the legacy generator amounts to: Cap(pool) per muscle. */
  function LegacyQuotas<N(==)>(pools: Pools<N>): map<N, nat>
  {
    map m | m in pools :: Cap(pools[m])
  }

  lemma LegacyQuotaFor<N>(pools: Pools<N>, muscle: N)
    ensures QuotaFor(LegacyQuotas(pools), muscle) == Cap(PoolOf(pools, muscle))
    ensures Effective(pools, LegacyQuotas(pools), muscle) == if PoolOf(pools, muscle) == [] then 0 else Cap(PoolOf(pools, muscle))
  {
  }

  /** The listed muscle's step picks the round-robin run at its pointer and leaves a state
      that tracks the pointer advanced by the names it chose. */
  lemma StepTracksListed<N>(pool: seq<N>, reserve0: seq<N>, used0: set<N>, start: nat,
                            chosen: seq<N>, reserve: seq<N>, usedNow: set<N>, next: nat)
    requires Distinct(pool) && Tracks(pool, reserve0, used0, start)
    requires Pass(chosen, reserve, usedNow) == Choose(pool, reserve0, used0)
    requires next == start + (if pool == [] then 0 else Cap(pool))
    ensures chosen == Run(pool, start, Cap(pool)) && Tracks(pool, reserve, usedNow, next)
  {
    ChooseTracks(pool, reserve0, used0, start);
  }

  /** The round-robin pointer of `muscle` after the first `j` muscles of day `day`. */
  function Mark<N(==)>(pools: Pools<N>, schedule: seq<seq<N>>, day: nat, j: nat, muscle: N): nat
    requires day < |schedule| && j <= |schedule[day]|
  {
    Served(pools, schedule, LegacyQuotas(pools), muscle, day)
    + ListedPicks(pools, LegacyQuotas(pools), schedule[day][..j], muscle)
  }

  /** Every muscle's reserve and used set track its pointer after `j` muscles of day `day`. */
  ghost predicate InStep<N(!new)>(pools: Pools<N>, schedule: seq<seq<N>>, day: nat, j: nat,
                          reserves: map<N, seq<N>>, used: map<N, set<N>>)
    requires day < |schedule| && j <= |schedule[day]|
  {
    forall m :: Tracks(PoolOf(pools, m), ReserveOf(reserves, m), UsedOf(used, m), Mark(pools, schedule, day, j, m))
  }

  /** Every muscle's reserve and used set track its pointer when day `day` starts. */
  ghost predicate AtDay<N(!new)>(pools: Pools<N>, schedule: seq<seq<N>>, day: nat,
                         reserves: map<N, seq<N>>, used: map<N, set<N>>)
    requires day <= |schedule|
  {
    forall m :: Tracks(PoolOf(pools, m), ReserveOf(reserves, m), UsedOf(used, m),
                       Served(pools, schedule, LegacyQuotas(pools), m, day))
  }

  lemma AtDayStarts<N(!new)>(pools: Pools<N>, schedule: seq<seq<N>>, day: nat,
                       reserves: map<N, seq<N>>, used: map<N, set<N>>)
    requires day < |schedule| && AtDay(pools, schedule, day, reserves, used)
    ensures InStep(pools, schedule, day, 0, reserves, used)
  {
    assert schedule[day][..0] == [];
  }

  lemma AtDayEnds<N(!new)>(pools: Pools<N>, schedule: seq<seq<N>>, day: nat,
                     reserves: map<N, seq<N>>, used: map<N, set<N>>)
    requires day < |schedule| && InStep(pools, schedule, day, |schedule[day]|, reserves, used)
    ensures AtDay(pools, schedule, day + 1, reserves, used)
  {
    assert schedule[day][..|schedule[day]|] == schedule[day];
  }

  /** The other muscles' states and pointers do not move while one muscle is served. */
  lemma StepTracksOthers<N(!new)>(pools: Pools<N>, schedule: seq<seq<N>>, day: nat, j: nat,
                            reserves: map<N, seq<N>>, used: map<N, set<N>>, reserve: seq<N>, usedNow: set<N>)
    requires day < |schedule| && j < |schedule[day]|
    requires InStep(pools, schedule, day, j, reserves, used)
    requires var muscle := schedule[day][j];
             Tracks(PoolOf(pools, muscle), reserve, usedNow, Mark(pools, schedule, day, j + 1, muscle))
    ensures var muscle := schedule[day][j];
            InStep(pools, schedule, day, j + 1, reserves[muscle := reserve], used[muscle := usedNow])
  {
    var muscle := schedule[day][j];
    var reserves', used' := reserves[muscle := reserve], used[muscle := usedNow];
    forall m ensures Tracks(PoolOf(pools, m), ReserveOf(reserves', m), UsedOf(used', m), Mark(pools, schedule, day, j + 1, m))
    {
      if m != muscle {
        ListedPicksStep(pools, LegacyQuotas(pools), schedule[day], j, m);
        assert Mark(pools, schedule, day, j + 1, m) == Mark(pools, schedule, day, j, m);
        assert ReserveOf(reserves', m) == ReserveOf(reserves, m) && UsedOf(used', m) == UsedOf(used, m);
      } else {
        assert ReserveOf(reserves', m) == reserve && UsedOf(used', m) == usedNow;
      }
    }
  }

  /** One muscle of one day: on pools without repeated names the step extends the day's
      plan by that muscle's round-robin run and keeps every muscle in step. */
  lemma LegacyStep<N(!new)>(pools: Pools<N>, schedule: seq<seq<N>>, day: nat, j: nat,
                      reserves: map<N, seq<N>>, used: map<N, set<N>>,
                      chosen: seq<N>, reserve: seq<N>, usedNow: set<N>)
    requires day < |schedule| && j < |schedule[day]|
    requires forall m :: Distinct(PoolOf(pools, m))
    requires InStep(pools, schedule, day, j, reserves, used)
    requires var muscle := schedule[day][j];
             Pass(chosen, reserve, usedNow) == Choose(PoolOf(pools, muscle), ReserveOf(reserves, muscle), UsedOf(used, muscle))
    ensures DayPrefix(pools, schedule, LegacyQuotas(pools), day, j + 1)
         == DayPrefix(pools, schedule, LegacyQuotas(pools), day, j) + chosen
    ensures var muscle := schedule[day][j];
            InStep(pools, schedule, day, j + 1, reserves[muscle := reserve], used[muscle := usedNow])
  {
    var muscle := schedule[day][j];
    var pool := PoolOf(pools, muscle);
    var start, next := Mark(pools, schedule, day, j, muscle), Mark(pools, schedule, day, j + 1, muscle);
    ListedPicksStep(pools, LegacyQuotas(pools), schedule[day], j, muscle);
    LegacyQuotaFor(pools, muscle);
    assert Tracks(pool, ReserveOf(reserves, muscle), UsedOf(used, muscle), start);
    StepTracksListed(pool, ReserveOf(reserves, muscle), UsedOf(used, muscle), start, chosen, reserve, usedNow, next);
    StepTracksOthers(pools, schedule, day, j, reserves, used, reserve, usedNow);
    DayPrefixStep(pools, schedule, LegacyQuotas(pools), day, j, muscle, start);
  }

  /** One day of the legacy generator: for each listed muscle, run the step on its reserve
      and used set, store both back, and append the chosen names. */
  method LegacyPlanDay<N(==,!new)>(musclePools: Pools<N>, muscleGroups: seq<seq<N>>, day: nat,
                                   reserves: map<N, seq<N>>, used: map<N, set<N>>)
    returns (planForDay: seq<N>, reserves': map<N, seq<N>>, used': map<N, set<N>>)
    requires day < |muscleGroups|
    requires forall m :: Distinct(PoolOf(musclePools, m))
    requires AtDay(musclePools, muscleGroups, day, reserves, used)
    ensures planForDay == DayPlan(musclePools, muscleGroups, LegacyQuotas(musclePools), day)
    ensures AtDay(musclePools, muscleGroups, day + 1, reserves', used')
  {
    reserves', used' := reserves, used;
    planForDay := [];
    AtDayStarts(musclePools, muscleGroups, day, reserves, used);
    var targetMuscles := muscleGroups[day];
    var j := 0;
    while j < |targetMuscles|
      invariant 0 <= j <= |targetMuscles|
      invariant planForDay == DayPrefix(musclePools, muscleGroups, LegacyQuotas(musclePools), day, j)
      invariant InStep(musclePools, muscleGroups, day, j, reserves', used')
    {
      var muscle := targetMuscles[j];
      var chosen, reserve, usedNow := ChooseExercises(PoolOf(musclePools, muscle), ReserveOf(reserves', muscle), UsedOf(used', muscle));
      LegacyStep(musclePools, muscleGroups, day, j, reserves', used', chosen, reserve, usedNow);
      reserves' := reserves'[muscle := reserve];
      used' := used'[muscle := usedNow];
      planForDay := planForDay + chosen;
      j := j + 1;
    }
    AtDayEnds(musclePools, muscleGroups, day, reserves', used');
  }

  /** The day loop of the legacy generator: the reserves start as full copies of the
      pools, the used sets empty, and both carry over from day to day. On pools without
      repeated names the result is the round-robin week with the Cap quotas. */
  method LegacySelectPlan<N(==,!new)>(musclePools: Pools<N>, muscleGroups: seq<seq<N>>)
    returns (plan: seq<seq<N>>)
    requires forall m :: Distinct(PoolOf(musclePools, m))
    ensures plan == Week(musclePools, muscleGroups, LegacyQuotas(musclePools))
  {
    var reserves: map<N, seq<N>> := map m | m in musclePools :: musclePools[m];
    var used: map<N, set<N>> := map[];
    plan := [];
    forall m ensures Tracks(PoolOf(musclePools, m), ReserveOf(reserves, m), UsedOf(used, m), 0) {
      assert ReserveOf(reserves, m) == PoolOf(musclePools, m);
    }
    var day := 0;
    while day < |muscleGroups|
      invariant 0 <= day <= |muscleGroups| && |plan| == day
      invariant forall d :: 0 <= d < day ==> plan[d] == DayPlan(musclePools, muscleGroups, LegacyQuotas(musclePools), d)
      invariant AtDay(musclePools, muscleGroups, day, reserves, used)
    {
      var planForDay;
      planForDay, reserves, used := LegacyPlanDay(musclePools, muscleGroups, day, reserves, used);
      plan := plan + [planForDay];
      day := day + 1;
    }
  }

  // ---------------------------------------------------------------- the generator

  /** The week the legacy generator plans from an eligible catalog: the round-robin week
      with Cap quotas over the catalog-ordered pools. */
  function LegacyWeekPlan(avail: Catalog, split: Split, days: nat): seq<seq<string>>
  {
    Week(PoolMap(avail), Schedule(split, days), LegacyQuotas(PoolMap(avail)))
  }

  /** `[get_muscle_groups(split, i+1) for i in range(days)]`, each list that is not None:
      the same schedule as the current generator's. */
  function LegacySchedule(split: Split, days: nat): (r: seq<seq<string>>)
    ensures r == Schedule(split, days)
  {
    seq(days, i requires 0 <= i < days =>
      match LegacyMuscleGroups(split, i + 1)
      case Some(groups) => groups
      case None => [])
  }

  /** bfs_reserve_workout_plan of newBFS.py. With an unknown split the list of day plans is
      a list of None, and iterating the first one raises TypeError, which is None here; no
      day is planned when `days` is zero or negative, so then nothing fails. */
  method GenerateLegacyPlan(catalog: Catalog, userLevel: Level, userEquipment: seq<string>, days: int, split: Split)
    returns (plan: Option<seq<seq<string>>>)
    requires DistinctNames(catalog)
    ensures plan.None? <==> split == Other && days > 0
    ensures plan.Some? ==> plan.value == LegacyWeekPlan(Available(catalog, userLevel, userEquipment), split,
                                                        if days < 0 then 0 else days)
  {
    var available := Available(catalog, userLevel, userEquipment);
    var musclePools := BuildPools(available);
    var n := if days < 0 then 0 else days;
    if n > 0 && LegacyMuscleGroups(split, 1).None? {
      return None;
    }
    var schedule := LegacySchedule(split, n);
    AvailableDistinct(catalog, userLevel, userEquipment);
    PoolMapSeparated(available);
    var week := LegacySelectPlan(musclePools, schedule);
    plan := Some(week);
  }

  /** Per-day counts of the legacy generator: each listed muscle gets two exercises, or its
      only one, and never the same one twice in a day; unlisted muscles get none. */
  lemma LegacyDayQuota(catalog: Catalog, userLevel: Level, userEquipment: seq<string>, split: Split, days: nat,
                       d: nat, muscle: string)
    requires DistinctNames(catalog) && d < days
    ensures var avail := Available(catalog, userLevel, userEquipment);
            var pool := Pool(avail, muscle);
            var mine := Picks(LegacyWeekPlan(avail, split, days)[d], pool);
            && |mine| == (if muscle in MuscleGroups(split, d + 1) then (if |pool| < 2 then |pool| else 2) else 0)
            && Distinct(mine)
  {
    var avail := Available(catalog, userLevel, userEquipment);
    var pools := PoolMap(avail);
    var schedule := Schedule(split, days);
    AvailableDistinct(catalog, userLevel, userEquipment);
    PoolMapSeparated(avail);
    PoolMapIsPool(avail, muscle);
    MuscleGroupsDistinct(split, d + 1);
    LegacyQuotaFor(pools, muscle);
    assert schedule[d] == MuscleGroups(split, d + 1);
    DayQuota(pools, schedule, LegacyQuotas(pools), d, muscle);
  }

  lemma LegacyWeekDay(avail: Catalog, split: Split, days: nat, d: nat)
    requires d < days
    ensures Schedule(split, days)[d] == MuscleGroups(split, d + 1)
    ensures LegacyWeekPlan(avail, split, days)[d]
         == DayPlan(PoolMap(avail), Schedule(split, days), LegacyQuotas(PoolMap(avail)), d)
  {
  }

  /** Filter soundness of the legacy generator: every planned exercise is in the catalog,
      suits the user, and trains a muscle listed for that day. */
  lemma LegacySound(catalog: Catalog, userLevel: Level, userEquipment: seq<string>, split: Split, days: nat,
                    d: nat, x: string)
    requires d < days
    requires x in LegacyWeekPlan(Available(catalog, userLevel, userEquipment), split, days)[d]
    ensures exists e :: && e in catalog && e.name == x && Eligible(e.ex, userLevel, userEquipment)
                        && e.ex.muscle in MuscleGroups(split, d + 1)
  {
    var avail := Available(catalog, userLevel, userEquipment);
    var schedule := Schedule(split, days);
    var pools := PoolMap(avail);
    LegacyWeekDay(avail, split, days, d);
    DaySound(pools, schedule, LegacyQuotas(pools), d, |schedule[d]|, x);
    var m :| m in schedule[d] && x in PoolOf(pools, m);
    PoolMapIsPool(avail, m);
    PoolMembers(avail, m, x);
  }

  /** The legacy generator's rotation: a muscle's k-th exercise over the plan is
      `pool[k % |pool|]`, so every eligible exercise is used before any repeats. */
  lemma LegacyRotation(catalog: Catalog, userLevel: Level, userEquipment: seq<string>, split: Split, days: nat,
                       muscle: string)
    requires DistinctNames(catalog)
    ensures var avail := Available(catalog, userLevel, userEquipment);
            var picks := Picks(Flatten(LegacyWeekPlan(avail, split, days)), Pool(avail, muscle));
            var pool := Pool(avail, muscle);
            && (forall k :: 0 <= k < |picks| ==> pool != [] && picks[k] == pool[k % |pool|])
            && (forall i, j :: 0 <= i < j < |picks| && j < |pool| ==> picks[i] != picks[j])
            && (|picks| >= |pool| ==> forall x :: x in pool ==> x in picks)
  {
    var avail := Available(catalog, userLevel, userEquipment);
    AvailableDistinct(catalog, userLevel, userEquipment);
    PoolMapSeparated(avail);
    PoolMapIsPool(avail, muscle);
    var pools := PoolMap(avail);
    RotationOrder(pools, Schedule(split, days), LegacyQuotas(pools), muscle);
  }

  /** Where the two generators part: for a one-exercise pool the legacy step gives that
      exercise once, where a round-robin quota of two gives it twice. */
  lemma SingletonContrast<N>(c: N, reserve: seq<N>, used: set<N>, pointer: nat)
    requires Tracks([c], reserve, used, pointer)
    ensures Choose([c], reserve, used).chosen == [c]
    ensures Run([c], pointer, 2) == [c, c]
  {
    ChooseTracksSingle([c], reserve, used, pointer);
    RunStep([c], pointer, 0);
    TwoRun([c], pointer);
  }

  /** Against the current generator the legacy one also differs for every muscle whose
      table quota is 1 (triceps, shoulders, core, biceps): with two or more eligible
      exercises it gets two a day from the legacy generator and one from the current one. */
  lemma QuotaOneContrast(catalog: Catalog, userLevel: Level, userEquipment: seq<string>, split: Split, days: nat,
                         d: nat, muscle: string)
    requires DistinctNames(catalog) && d < days
    requires muscle in MuscleGroups(split, d + 1) && muscle !in ["chest", "back", "legs"]
    requires |Pool(Available(catalog, userLevel, userEquipment), muscle)| >= 2
    ensures var avail := Available(catalog, userLevel, userEquipment);
            var pool := Pool(avail, muscle);
            && |Picks(LegacyWeekPlan(avail, split, days)[d], pool)| == 2
            && |Picks(WeekPlan(avail, split, days)[d], pool)| == 1
  {
    LegacyDayQuota(catalog, userLevel, userEquipment, split, days, d, muscle);
    PlanDayQuota(catalog, userLevel, userEquipment, split, days, d, muscle);
    QuotaTable(split, muscle);
  }
}
