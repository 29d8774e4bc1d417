/** The exercise catalog and the eligibility filter shared by both planners
    (src/bfs_algorithm.py and newBFS.py define the same two predicates). */
module Exercises {

  datatype Option<+T> = None | Some(value: T)

  /** The three fitness levels, in the order beginner < intermediate < advanced. */
  datatype Level = Beginner | Intermediate | Advanced

  /** Position of a level in the list ['beginner', 'intermediate', 'advanced']. */
  function LevelIndex(l: Level): (i: nat)
    ensures i < 3
  {
    match l
    case Beginner => 0
    case Intermediate => 1
    case Advanced => 2
  }

  /** One catalog record: the fields the scheduler reads. */
  datatype Exercise = Exercise(level: Level, muscle: string, equipment: seq<string>)

  /** A catalog item: the dictionary key (the exercise name) and its record. */
  datatype Entry = Entry(name: string, ex: Exercise)

  /** The catalog keeps the dictionary's iteration order. */
  type Catalog = seq<Entry>

  /** Dictionary keys are unique. */
  predicate DistinctNames(c: Catalog)
  {
    forall i, j :: 0 <= i < j < |c| ==> c[i].name != c[j].name
  }

  predicate Distinct<T(==)>(s: seq<T>)
  {
    forall i, j :: 0 <= i < j < |s| ==> s[i] != s[j]
  }

  /** `name in exercises` and `exercises[name]`: the record stored under a name. */
  function Lookup(c: Catalog, name: string): (r: Option<Exercise>)
    ensures r.None? <==> forall e :: e in c ==> e.name != name
    ensures r.Some? ==> Entry(name, r.value) in c
  {
    if c == [] then None
    else if c[0].name == name then Some(c[0].ex)
    else Lookup(c[1..], name)
  }

  /** level_allowed: a user may do exercises at or below their own level. Written out case
      by case: beginner exercises suit everyone, an advanced user may do everything, and
      otherwise only the user's own level. */
  function LevelAllowed(exLevel: Level, userLevel: Level): (ok: bool)
    ensures ok <==> exLevel == Beginner || userLevel == Advanced || exLevel == userLevel
  {
    LevelIndex(userLevel) >= LevelIndex(exLevel)
  }

  /** equipment_allowed: `all(eq in user_equipment for eq in ex_equipment)`. */
  function EquipmentAllowed(exEquipment: seq<string>, userEquipment: seq<string>): (ok: bool)
    ensures ok <==> forall eq :: eq in exEquipment ==> eq in userEquipment
  {
    if exEquipment == [] then true
    else exEquipment[0] in userEquipment && EquipmentAllowed(exEquipment[1..], userEquipment)
  }

  /** The condition of the `available` comprehension: the level is not above the user's
      and every required item is at hand. */
  function Eligible(ex: Exercise, userLevel: Level, userEquipment: seq<string>): (ok: bool)
    ensures ok <==> LevelIndex(ex.level) <= LevelIndex(userLevel)
                    && forall eq :: eq in ex.equipment ==> eq in userEquipment
  {
    LevelAllowed(ex.level, userLevel) && EquipmentAllowed(ex.equipment, userEquipment)
  }

  /** The `available` dictionary comprehension: the eligible entries, in catalog order. */
  function Available(c: Catalog, userLevel: Level, userEquipment: seq<string>): (r: Catalog)
    ensures |r| <= |c|
    ensures forall e :: e in r <==> e in c && Eligible(e.ex, userLevel, userEquipment)
  {
    if c == [] then []
    else
      var rest := Available(c[..|c| - 1], userLevel, userEquipment);
      var last := c[|c| - 1];
      assert c == c[..|c| - 1] + [last];
      if Eligible(last.ex, userLevel, userEquipment) then rest + [last] else rest
  }

  /** Filtering one more entry appends it when it is eligible. */
  lemma AvailableSnoc(c: Catalog, e: Entry, userLevel: Level, userEquipment: seq<string>)
    ensures Available(c + [e], userLevel, userEquipment)
         == Available(c, userLevel, userEquipment) + if Eligible(e.ex, userLevel, userEquipment) then [e] else []
  {
    assert (c + [e])[..|c + [e]| - 1] == c;
  }

  /** The filter keeps catalog order: filtering a concatenation filters each part, so
      every kept entry appears once, at its catalog position relative to the others. */
  lemma {:induction false} AvailableAppend(a: Catalog, b: Catalog, userLevel: Level, userEquipment: seq<string>)
    ensures Available(a + b, userLevel, userEquipment)
         == Available(a, userLevel, userEquipment) + Available(b, userLevel, userEquipment)
    decreases |b|
  {
    if b == [] {
      assert a + b == a;
    } else {
      var init, last := b[..|b| - 1], b[|b| - 1];
      var keep := if Eligible(last.ex, userLevel, userEquipment) then [last] else [];
      calc {
        Available(a + b, userLevel, userEquipment);
        { assert a + b == (a + init) + [last]; }
        Available((a + init) + [last], userLevel, userEquipment);
        { AvailableSnoc(a + init, last, userLevel, userEquipment); }
        Available(a + init, userLevel, userEquipment) + keep;
        { AvailableAppend(a, init, userLevel, userEquipment); }
        Available(a, userLevel, userEquipment) + Available(init, userLevel, userEquipment) + keep;
        { assert b == init + [last]; AvailableSnoc(init, last, userLevel, userEquipment); }
        Available(a, userLevel, userEquipment) + Available(b, userLevel, userEquipment);
      }
    }
  }

  /** A single entry is kept exactly when it is eligible. */
  lemma AvailableOne(e: Entry, userLevel: Level, userEquipment: seq<string>)
    ensures Available([e], userLevel, userEquipment) == if Eligible(e.ex, userLevel, userEquipment) then [e] else []
  {
    assert [e][..0] == [];
  }

  /** Filtering keeps the catalog's unique keys unique. */
  lemma {:induction false} AvailableDistinct(c: Catalog, userLevel: Level, userEquipment: seq<string>)
    requires DistinctNames(c)
    ensures DistinctNames(Available(c, userLevel, userEquipment))
  {
    if c != [] {
      var init := c[..|c| - 1];
      AvailableDistinct(init, userLevel, userEquipment);
      var rest := Available(init, userLevel, userEquipment);
      var last := c[|c| - 1];
      forall e | e in rest ensures e.name != last.name {
        var i :| 0 <= i < |init| && init[i] == e;
      }
    }
  }

  /** The level order is a total preorder whose only ties are equal levels. */
  lemma LevelAllowedOrder(a: Level, b: Level, c: Level)
    ensures LevelAllowed(a, a)
    ensures LevelAllowed(a, b) || LevelAllowed(b, a)
    ensures LevelAllowed(a, b) && LevelAllowed(b, a) ==> a == b
    ensures LevelAllowed(a, b) && LevelAllowed(b, c) ==> LevelAllowed(a, c)
  {
  }

  /** Bodyweight exercises (no equipment) always pass, and more equipment never hurts. */
  lemma EquipmentAllowedMonotone(exEquipment: seq<string>, user: seq<string>, more: seq<string>)
    requires forall eq :: eq in user ==> eq in more
    ensures EquipmentAllowed([], user)
    ensures EquipmentAllowed(exEquipment, user) ==> EquipmentAllowed(exEquipment, more)
  {
  }
}
