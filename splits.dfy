/** The split planner of src/bfs_algorithm.py: which muscles are trained on a day and
    how many exercises each gets. */
module Splits {

  /** The training split; any string other than 'FB' and 'AB' is `Other`. */
  datatype Split = FB | AB | Other

  const FullBodyDay: seq<string> := ["chest", "back", "legs", "triceps", "shoulders", "core", "biceps"]
  const DayA: seq<string> := ["chest", "triceps", "shoulders", "core"]
  const DayB: seq<string> := ["back", "legs", "biceps", "core"]

  /** get_muscle_groups: the ordered muscle list for a 1-based day. */
  function MuscleGroups(split: Split, day: int): (r: seq<string>)
    ensures r == [] <==> split == Other
    ensures forall m :: m in r ==> m in FullBodyDay
  {
    match split
    case FB => FullBodyDay
    case AB => if day % 2 == 1 then DayA else DayB
    case Other => []
  }

  /** No muscle is listed twice on one day. */
  lemma MuscleGroupsDistinct(split: Split, day: int)
    ensures var ms := MuscleGroups(split, day); forall i, j :: 0 <= i < j < |ms| ==> ms[i] != ms[j]
  {
  }

  /** get_muscle_quotas: exercises per muscle per day. */
  function MuscleQuotas(split: Split): (r: map<string, nat>)
    ensures split == Other ==> r == map[]
    ensures split != Other ==> r.Keys == set m | m in FullBodyDay
    ensures forall m :: m in r ==> m in FullBodyDay && 1 <= r[m] <= 2
  {
    match split
    case FB =>
      map["chest" := 2, "back" := 2, "legs" := 2, "shoulders" := 1, "biceps" := 1, "triceps" := 1, "core" := 1]
    case AB =>
      map["chest" := 2, "triceps" := 1, "shoulders" := 1, "core" := 1, "back" := 2, "legs" := 2, "biceps" := 1]
    case Other => map[]
  }

  /** `quotas.get(muscle, 1)`: a muscle missing from the table gets one exercise. */
  function QuotaFor<M(==)>(quotas: map<M, nat>, muscle: M): (r: nat)
    ensures r in quotas.Values || (muscle !in quotas && r == 1)
  {
    if muscle in quotas then quotas[muscle] else 1
  }

  function Quota(split: Split, muscle: string): nat
  {
    QuotaFor(MuscleQuotas(split), muscle)
  }

  /** Two slots for the big muscle groups, one for everything else, whatever the split. */
  lemma QuotaTable(split: Split, muscle: string)
    ensures Quota(split, muscle) == if split != Other && muscle in ["chest", "back", "legs"] then 2 else 1
  {
  }

  /** The FB and AB quota tables are the same table, over exactly the seven muscles. */
  lemma QuotaTablesAgree()
    ensures MuscleQuotas(FB) == MuscleQuotas(AB)
    ensures MuscleQuotas(FB).Keys == set m | m in FullBodyDay
  {
  }

  /** The muscle list repeats every day under FB and every second day under AB; an
      unknown split trains nothing on any day. */
  lemma MuscleGroupsPeriodic(split: Split, day: int)
    ensures MuscleGroups(split, day + 2) == MuscleGroups(split, day)
    ensures split != AB ==> MuscleGroups(split, day + 1) == MuscleGroups(split, day)
    ensures split == Other ==> MuscleGroups(split, day) == []
  {
  }

  /** Two consecutive AB days together train exactly the full-body muscles, and core
      is trained on every FB and AB day. */
  lemma ABCoversFullBody(day: int)
    ensures forall m :: m in MuscleGroups(AB, day) || m in MuscleGroups(AB, day + 1) <==> m in FullBodyDay
    ensures "core" in MuscleGroups(AB, day) && "core" in MuscleGroups(FB, day)
  {
    if day % 2 == 1 {
      assert (day + 1) % 2 == 0;
    } else {
      assert (day + 1) % 2 == 1;
    }
  }
}
