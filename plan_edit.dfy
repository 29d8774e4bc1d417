/** The plan edit of src/streamlit_app.py: choosing an alternative replaces the first
    occurrence of the exercise in that day's list, in place, and only if it occurs. */
module PlanEdit {
  import opened Exercises

  /** `day_plan.index(ex_name)` when `ex_name in day_plan`, None otherwise: the position of
      the first occurrence. */
  function FirstIndex(s: seq<string>, x: string): (r: Option<nat>)
    ensures r.None? <==> x !in s
    ensures r.Some? ==> r.value < |s| && s[r.value] == x && x !in s[..r.value]
  {
    if s == [] then None
    else if s[0] == x then Some(0)
    else
      var rest := FirstIndex(s[1..], x);
      assert s == [s[0]] + s[1..];
      if rest.None? then None
      else
        assert s[..rest.value + 1] == [s[0]] + s[1..][..rest.value];
        Some(rest.value + 1)
  }

  /** The day list after the edit. */
  function ReplaceFirst(s: seq<string>, x: string, y: string): (r: seq<string>)
    ensures |r| == |s|
    ensures x in s ==> y in r
    ensures forall z :: z in r && z != y ==> z in s
  {
    match FirstIndex(s, x)
    case None => s
    case Some(i) => assert s[i := y][i] == y; s[i := y]
  }

  /** The edit changes at most one position, the first holding the exercise, to the
      alternative; the length and every other position stay as they were; without the
      exercise the list is unchanged. */
  lemma ReplaceFirstEffect(s: seq<string>, x: string, y: string)
    ensures var r := ReplaceFirst(s, x, y);
            && |r| == |s|
            && (x !in s ==> r == s)
            && (x in s ==> exists i :: && 0 <= i < |s| && s[i] == x && x !in s[..i] && r[i] == y
                                     && forall j :: 0 <= j < |s| && j != i ==> r[j] == s[j])
  {
    if x in s {
      var i := FirstIndex(s, x).value;
      assert ReplaceFirst(s, x, y)[i] == y;
    }
  }

  /** One occurrence of the exercise is traded for one of the alternative. */
  lemma ReplaceFirstCount(s: seq<string>, x: string, y: string)
    requires x in s
    ensures multiset(ReplaceFirst(s, x, y)) == multiset(s) - multiset{x} + multiset{y}
  {
    var i := FirstIndex(s, x).value;
    assert s == s[..i] + [x] + s[i + 1..];
    assert ReplaceFirst(s, x, y) == s[..i] + [y] + s[i + 1..];
  }

  /** Replacing twice with the same alternative replaces two occurrences in turn: the
      second edit starts after the first one's position. */
  lemma ReplaceFirstTwice(s: seq<string>, x: string, y: string)
    requires x in s && x != y
    ensures var i := FirstIndex(s, x).value;
            var r := ReplaceFirst(s, x, y);
            FirstIndex(r, x).None? || FirstIndex(r, x).value > i
  {
    var i := FirstIndex(s, x).value;
    var r := ReplaceFirst(s, x, y);
    assert r[..i] == s[..i];
  }

  /** `if ex_name in day_plan: day_plan.index(ex_name)`: a scan from the front. */
  method FindFirst(dayPlan: array<string>, x: string) returns (r: Option<nat>)
    ensures r == FirstIndex(dayPlan[..], x)
  {
    var i := 0;
    while i < dayPlan.Length
      invariant 0 <= i <= dayPlan.Length
      invariant x !in dayPlan[..i]
    {
      if dayPlan[i] == x {
        assert dayPlan[..i + 1][..i] == dayPlan[..i];
        return Some(i);
      }
      assert dayPlan[..i + 1] == dayPlan[..i] + [dayPlan[i]];
      i := i + 1;
    }
    assert dayPlan[..] == dayPlan[..i];
    return None;
  }

  /** The button handler's edit of `day_plan`, written through the list it aliases. */
  method ReplaceExercise(dayPlan: array<string>, exName: string, alt: string)
    modifies dayPlan
    ensures dayPlan[..] == ReplaceFirst(old(dayPlan[..]), exName, alt)
  {
    var found := FindFirst(dayPlan, exName);
    if found.Some? {
      dayPlan[found.value] := alt;
    }
  }
}
