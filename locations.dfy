/** The workout-location presets of src/streamlit_app.py: each location the sidebar offers
    pre-selects a list of equipment, which then feeds the eligibility filter. */
module Locations {
  import opened Exercises

  /** The ids of the fallback equipment options, in display order. */
  const EquipmentIds: seq<string> := [
    "none", "yoga mat", "dumbbells", "resistance bands", "pull-up bar", "kettlebells",
    "barbell", "cable machine", "foam roller", "medicine ball", "suspension trainer",
    "exercise ball", "bench", "power rack", "smith machine"]

  /** The locations the selectbox offers. */
  const LocationIds: seq<string> := [
    "home", "limited_equipment_gym", "well_equipped_gym", "outdoor", "travel", "bodyweight_only"]

  /** The default equipment of a location; anything else (and bodyweight_only) gets none.
      Each list names offered equipment, never the "none" option, and none twice. */
  function DefaultEquipment(location: string): (r: seq<string>)
    ensures Distinct(r)
    ensures forall x :: x in r ==> x in EquipmentIds && x != "none"
    ensures location !in LocationIds ==> r == []
  {
    if location == "home" then
      ["yoga mat", "dumbbells", "resistance bands", "pull-up bar"]
    else if location == "limited_equipment_gym" then
      ["dumbbells", "barbell", "bench", "pull-up bar", "kettlebells", "yoga mat", "foam roller"]
    else if location == "well_equipped_gym" then
      ["dumbbells", "barbell", "bench", "pull-up bar", "cable machine", "power rack", "smith machine",
       "kettlebells", "yoga mat", "foam roller", "medicine ball", "exercise ball"]
    else if location == "outdoor" then
      ["pull-up bar", "resistance bands", "yoga mat"]
    else if location == "travel" then
      ["resistance bands", "yoga mat"]
    else
      []
  }

  /** Every item of location `a`'s defaults is among location `b`'s. */
  predicate Within(a: string, b: string)
  {
    forall x :: x in DefaultEquipment(a) ==> x in DefaultEquipment(b)
  }

  /** The presets form two chains, bodyweight only within travel within outdoor within
      home, and limited gym within well-equipped gym; home is not within the well-equipped
      gym, whose list has no resistance bands. */
  lemma PresetChains()
    ensures Within("bodyweight_only", "travel") && Within("travel", "outdoor") && Within("outdoor", "home")
    ensures Within("limited_equipment_gym", "well_equipped_gym")
    ensures !Within("home", "well_equipped_gym")
  {
    assert "resistance bands" in DefaultEquipment("home");
  }

  /** A location whose defaults include another's never loses an eligible exercise. */
  lemma WithinKeepsEligible(ex: Exercise, userLevel: Level, a: string, b: string)
    requires Within(a, b)
    ensures Eligible(ex, userLevel, DefaultEquipment(a)) ==> Eligible(ex, userLevel, DefaultEquipment(b))
  {
    EquipmentAllowedMonotone(ex.equipment, DefaultEquipment(a), DefaultEquipment(b));
  }
}
