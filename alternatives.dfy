/** find_exercise_alternatives of src/streamlit_app.py: the catalog entries that could
    replace an exercise (same muscle, suitable for the user, not the exercise itself), in
    catalog order, stably sorted by how close they are to the original, top five. */
module Alternatives {
  import opened Exercises

  /** The sort key `(level_match, -equipment_similarity)`, compared as a Python tuple. */
  datatype Rank = Rank(levelMatch: nat, negOverlap: int)

  predicate RankLe(a: Rank, b: Rank)
  {
    a.levelMatch < b.levelMatch || (a.levelMatch == b.levelMatch && a.negOverlap <= b.negOverlap)
  }

  /** Tuple comparison is a total order. */
  lemma RankLeOrder(a: Rank, b: Rank, c: Rank)
    ensures RankLe(a, a)
    ensures RankLe(a, b) || RankLe(b, a)
    ensures RankLe(a, b) && RankLe(b, a) ==> a == b
    ensures RankLe(a, b) && RankLe(b, c) ==> RankLe(a, c)
  {
  }

  /** `len(original_equipment & set(ex.get('equipment', [])))`: the number of distinct
      equipment items the two exercises share. */
  function Overlap(a: seq<string>, b: seq<string>): (n: nat)
    ensures (forall x :: x in a ==> x !in b) ==> n == 0
    ensures (forall x :: x in a ==> x in b) ==> n == |set x | x in a|
  {
    var sa, sb := set x | x in a, set x | x in b;
    assert (forall x :: x in a ==> x in b) ==> sa * sb == sa;
    assert (forall x :: x in a ==> x !in b) ==> sa * sb == {};
    |sa * sb|
  }

  /** sort_key: 0 for the original's level, 1 otherwise; then more shared equipment first. */
  function RankOf(original: Exercise, ex: Exercise): (r: Rank)
    ensures r.levelMatch == 0 <==> ex.level == original.level
    ensures r.levelMatch <= 1 && r.negOverlap <= 0
  {
    Rank(if ex.level == original.level then 0 else 1, -(Overlap(original.equipment, ex.equipment) as int))
  }

  /** The four `continue` tests of the candidate loop, all passed. */
  predicate IsAlternative(e: Entry, query: string, original: Exercise, userLevel: Level, userEquipment: seq<string>)
  {
    && e.name != query
    && e.ex.muscle == original.muscle
    && LevelIndex(userLevel) >= LevelIndex(e.ex.level)
    && ((set x | x in e.ex.equipment) == {} || (set x | x in e.ex.equipment) <= (set x | x in userEquipment))
  }

  /** The alternative filter is the planners' eligibility filter plus "same muscle, not the
      exercise itself": an empty equipment set passes the subset test anyway. */
  lemma IsAlternativeEligible(e: Entry, query: string, original: Exercise, userLevel: Level, userEquipment: seq<string>)
    ensures IsAlternative(e, query, original, userLevel, userEquipment)
        <==> e.name != query && e.ex.muscle == original.muscle && Eligible(e.ex, userLevel, userEquipment)
  {
    var mine, theirs := set x | x in e.ex.equipment, set x | x in userEquipment;
    if mine <= theirs {
      assert forall eq :: eq in e.ex.equipment ==> eq in mine;
    }
    if EquipmentAllowed(e.ex.equipment, userEquipment) {
      assert mine <= theirs;
    }
  }

  /** The candidate list: the entries passing the filter, in catalog order. */
  function Matches(c: Catalog, query: string, original: Exercise, userLevel: Level, userEquipment: seq<string>): (r: Catalog)
    ensures |r| <= |c|
    ensures forall e :: e in r <==> e in c && IsAlternative(e, query, original, userLevel, userEquipment)
  {
    if c == [] then []
    else
      var rest := Matches(c[..|c| - 1], query, original, userLevel, userEquipment);
      var last := c[|c| - 1];
      assert c == c[..|c| - 1] + [last];
      if IsAlternative(last, query, original, userLevel, userEquipment) then rest + [last] else rest
  }

  /** Collecting over one more entry appends it when it passes the four tests. */
  lemma MatchesSnoc(c: Catalog, e: Entry, query: string, original: Exercise, userLevel: Level, userEquipment: seq<string>)
    ensures Matches(c + [e], query, original, userLevel, userEquipment)
         == Matches(c, query, original, userLevel, userEquipment)
            + if IsAlternative(e, query, original, userLevel, userEquipment) then [e] else []
  {
    assert (c + [e])[..|c + [e]| - 1] == c;
  }

  /** The candidate list keeps catalog order: collecting over a concatenation collects
      each part, so every candidate appears once, at its catalog position. */
  lemma {:induction false} MatchesAppend(a: Catalog, b: Catalog, query: string, original: Exercise,
                                         userLevel: Level, userEquipment: seq<string>)
    ensures Matches(a + b, query, original, userLevel, userEquipment)
         == Matches(a, query, original, userLevel, userEquipment) + Matches(b, query, original, userLevel, userEquipment)
    decreases |b|
  {
    if b == [] {
      assert a + b == a;
    } else {
      var init, last := b[..|b| - 1], b[|b| - 1];
      var keep := if IsAlternative(last, query, original, userLevel, userEquipment) then [last] else [];
      calc {
        Matches(a + b, query, original, userLevel, userEquipment);
        { assert a + b == (a + init) + [last]; }
        Matches((a + init) + [last], query, original, userLevel, userEquipment);
        { MatchesSnoc(a + init, last, query, original, userLevel, userEquipment); }
        Matches(a + init, query, original, userLevel, userEquipment) + keep;
        { MatchesAppend(a, init, query, original, userLevel, userEquipment); }
        Matches(a, query, original, userLevel, userEquipment) + Matches(init, query, original, userLevel, userEquipment) + keep;
        { assert b == init + [last]; MatchesSnoc(init, last, query, original, userLevel, userEquipment); }
        Matches(a, query, original, userLevel, userEquipment) + Matches(b, query, original, userLevel, userEquipment);
      }
    }
  }

  /** A single entry is a candidate exactly when it passes the four tests. */
  lemma MatchesOne(e: Entry, query: string, original: Exercise, userLevel: Level, userEquipment: seq<string>)
    ensures Matches([e], query, original, userLevel, userEquipment)
         == if IsAlternative(e, query, original, userLevel, userEquipment) then [e] else []
  {
    assert [e][..0] == [];
  }

  // ---------------------------------------------------------------- the stable sort

  /** A candidate with its key, computed once as Python's `sort(key=...)` does. */
  datatype Candidate = Candidate(name: string, rank: Rank)

  function Decorate(original: Exercise, es: Catalog): (r: seq<Candidate>)
    ensures |r| == |es|
    ensures forall i :: 0 <= i < |es| ==> r[i].name == es[i].name && r[i].rank == RankOf(original, es[i].ex)
  {
    if es == [] then [] else [Candidate(es[0].name, RankOf(original, es[0].ex))] + Decorate(original, es[1..])
  }

  function Names(s: seq<Candidate>): (r: seq<string>)
    ensures |r| == |s| && forall i :: 0 <= i < |s| ==> r[i] == s[i].name
  {
    if s == [] then [] else [s[0].name] + Names(s[1..])
  }

  predicate Sorted(s: seq<Candidate>)
  {
    forall i, j :: 0 <= i < j < |s| ==> RankLe(s[i].rank, s[j].rank)
  }

  /** The candidates of one rank, in the order they occur. */
  function WithRank(s: seq<Candidate>, k: Rank): seq<Candidate>
  {
    if s == [] then [] else WithRank(s[..|s| - 1], k) + (if s[|s| - 1].rank == k then [s[|s| - 1]] else [])
  }

  /** Place `x` after every element of the sorted `t` whose rank is not above its own. */
  function Insert(t: seq<Candidate>, x: Candidate): (r: seq<Candidate>)
    ensures |r| == |t| + 1
  {
    if t == [] || RankLe(t[|t| - 1].rank, x.rank) then t + [x]
    else Insert(t[..|t| - 1], x) + [t[|t| - 1]]
  }

  /** Insertion sort, inserting the elements in list order: the stable sort by rank. */
  function SortByRank(s: seq<Candidate>): (r: seq<Candidate>)
    ensures |r| == |s|
  {
    if s == [] then [] else Insert(SortByRank(s[..|s| - 1]), s[|s| - 1])
  }

  lemma {:induction false} WithRankAppend(a: seq<Candidate>, b: seq<Candidate>, k: Rank)
    ensures WithRank(a + b, k) == WithRank(a, k) + WithRank(b, k)
    decreases |b|
  {
    if b == [] {
      assert a + b == a;
    } else {
      var b' := b[..|b| - 1];
      WithRankAppend(a, b', k);
      assert (a + b)[..|a + b| - 1] == a + b';
    }
  }

  lemma {:induction false} WithRankMember(s: seq<Candidate>, k: Rank, x: Candidate)
    ensures x in WithRank(s, k) <==> x in s && x.rank == k
  {
    if s != [] {
      WithRankMember(s[..|s| - 1], k, x);
      assert s == s[..|s| - 1] + [s[|s| - 1]];
    }
  }

  lemma {:induction false} InsertMultiset(t: seq<Candidate>, x: Candidate)
    ensures multiset(Insert(t, x)) == multiset(t) + multiset{x}
  {
    if t != [] && !RankLe(t[|t| - 1].rank, x.rank) {
      InsertMultiset(t[..|t| - 1], x);
      assert t == t[..|t| - 1] + [t[|t| - 1]];
    }
  }

  lemma {:induction false} InsertWithRank(t: seq<Candidate>, x: Candidate, k: Rank)
    ensures WithRank(Insert(t, x), k) == WithRank(t, k) + (if x.rank == k then [x] else [])
  {
    if t == [] || RankLe(t[|t| - 1].rank, x.rank) {
      WithRankAppend(t, [x], k);
      assert WithRank([x], k) == WithRank([], k) + (if x.rank == k then [x] else []);
    } else {
      var t', last := t[..|t| - 1], t[|t| - 1];
      InsertWithRank(t', x, k);
      WithRankAppend(Insert(t', x), [last], k);
      assert WithRank([last], k) == WithRank([], k) + (if last.rank == k then [last] else []);
      assert last.rank != x.rank;
    }
  }

  lemma {:induction false} InsertSorted(t: seq<Candidate>, x: Candidate)
    requires Sorted(t)
    ensures Sorted(Insert(t, x))
  {
    if t == [] || RankLe(t[|t| - 1].rank, x.rank) {
      var r := t + [x];
      forall i, j | 0 <= i < j < |r| ensures RankLe(r[i].rank, r[j].rank) {
        if j == |t| && i < |t| - 1 {
          RankLeOrder(t[i].rank, t[|t| - 1].rank, x.rank);
        }
      }
    } else {
      var t', last := t[..|t| - 1], t[|t| - 1];
      InsertSorted(t', x);
      InsertMultiset(t', x);
      var u := Insert(t', x);
      RankLeOrder(x.rank, last.rank, x.rank);
      forall i | 0 <= i < |u| ensures RankLe(u[i].rank, last.rank) {
        assert u[i] in multiset(u);
        if u[i] != x {
          assert u[i] in multiset(t');
          var p :| 0 <= p < |t'| && t'[p] == u[i];
          assert t[p] == u[i];
        }
      }
    }
  }

  /** The stable sort orders the candidates by rank. */
  lemma {:induction false} SortSorted(s: seq<Candidate>)
    ensures Sorted(SortByRank(s))
  {
    if s != [] {
      SortSorted(s[..|s| - 1]);
      InsertSorted(SortByRank(s[..|s| - 1]), s[|s| - 1]);
    }
  }

  /** It only rearranges them. */
  lemma {:induction false} SortPermutes(s: seq<Candidate>)
    ensures multiset(SortByRank(s)) == multiset(s)
  {
    if s != [] {
      SortPermutes(s[..|s| - 1]);
      InsertMultiset(SortByRank(s[..|s| - 1]), s[|s| - 1]);
      assert s == s[..|s| - 1] + [s[|s| - 1]];
    }
  }

  /** Sorting keeps exactly the same elements. */
  lemma SortMembers(s: seq<Candidate>, x: Candidate)
    ensures x in SortByRank(s) <==> x in s
  {
    SortPermutes(s);
    assert x in SortByRank(s) <==> x in multiset(SortByRank(s));
  }

  lemma NamesMember(s: seq<Candidate>, x: Candidate)
    requires x in s
    ensures x.name in Names(s)
  {
    var i :| 0 <= i < |s| && s[i] == x;
    assert Names(s)[i] == x.name;
  }

  /** And it is stable: the candidates of each rank keep their list order. */
  lemma {:induction false} SortStable(s: seq<Candidate>, k: Rank)
    ensures WithRank(SortByRank(s), k) == WithRank(s, k)
  {
    if s != [] {
      SortStable(s[..|s| - 1], k);
      InsertWithRank(SortByRank(s[..|s| - 1]), s[|s| - 1], k);
    }
  }

  lemma AppendCancel<T>(s1: seq<T>, x: seq<T>, s2: seq<T>, y: seq<T>)
    requires s1 + x == s2 + y && |x| == |y|
    ensures s1 == s2 && x == y
  {
    assert s1 == (s1 + x)[..|s1|] && s2 == (s2 + y)[..|s2|];
    assert x == (s1 + x)[|s1|..] && y == (s2 + y)[|s2|..];
  }

  /** The last element of a sorted list has the greatest rank. */
  lemma SortedLast(t: seq<Candidate>, x: Candidate)
    requires Sorted(t) && x in t
    ensures RankLe(x.rank, t[|t| - 1].rank)
  {
    var p :| 0 <= p < |t| && t[p] == x;
    RankLeOrder(x.rank, x.rank, x.rank);
  }

  /** Two sorted lists with the same elements per rank have the same greatest rank. */
  lemma SortedSameTop(t: seq<Candidate>, u: seq<Candidate>)
    requires Sorted(t) && Sorted(u) && t != []
    requires forall k :: WithRank(t, k) == WithRank(u, k)
    ensures u != [] && t[|t| - 1].rank == u[|u| - 1].rank
  {
    var a := t[|t| - 1];
    WithRankMember(t, a.rank, a);
    WithRankMember(u, a.rank, a);
    assert a in u;
    var b := u[|u| - 1];
    WithRankMember(u, b.rank, b);
    WithRankMember(t, b.rank, b);
    var y :| y in t && y.rank == b.rank;
    SortedLast(t, y);
    SortedLast(u, a);
    RankLeOrder(a.rank, b.rank, a.rank);
  }

  /** Removing the last element of a list removes it from its rank's list only. */
  lemma WithRankLast(t: seq<Candidate>, k: Rank)
    requires t != []
    ensures var a := t[|t| - 1];
            WithRank(t, k) == WithRank(t[..|t| - 1], k) + (if a.rank == k then [a] else [])
  {
  }

  /** A sorted list is fixed by the order within each rank: so every stable sort by this
      key, Python's among them, returns the same list as SortByRank. */
  lemma {:induction false} SortedUnique(t: seq<Candidate>, u: seq<Candidate>)
    requires Sorted(t) && Sorted(u)
    requires forall k :: WithRank(t, k) == WithRank(u, k)
    ensures t == u
    decreases |t|
  {
    if t == [] {
      if u != [] {
        SortedSameTop(u, t);
      }
    } else {
      SortedSameTop(t, u);
      var t', a := t[..|t| - 1], t[|t| - 1];
      var u', b := u[..|u| - 1], u[|u| - 1];
      WithRankLast(t, a.rank);
      WithRankLast(u, a.rank);
      AppendCancel(WithRank(t', a.rank), [a], WithRank(u', a.rank), [b]);
      forall k ensures WithRank(t', k) == WithRank(u', k) {
        WithRankLast(t, k);
        WithRankLast(u, k);
        var x: seq<Candidate> := if a.rank == k then [a] else [];
        AppendCancel(WithRank(t', k), x, WithRank(u', k), x);
      }
      assert Sorted(t') && Sorted(u');
      SortedUnique(t', u');
      assert t == t' + [a] && u == u' + [b];
    }
  }

  /** Any sorted rearrangement that keeps each rank's order is the stable sort. */
  lemma StableSortIsSortByRank(s: seq<Candidate>, t: seq<Candidate>)
    requires Sorted(t) && forall k :: WithRank(t, k) == WithRank(s, k)
    ensures t == SortByRank(s)
  {
    SortSorted(s);
    forall k ensures WithRank(SortByRank(s), k) == WithRank(t, k) {
      SortStable(s, k);
    }
    SortedUnique(t, SortByRank(s));
  }

  // ---------------------------------------------------------------- the finder

  /** `alternatives[:5]`. */
  function TopFive(s: seq<Candidate>): (r: seq<Candidate>)
    ensures |r| == (if |s| < 5 then |s| else 5) && r == s[..|r|]
  {
    if |s| < 5 then s else s[..5]
  }

  /** The ranked top five: the sorted candidates up to the fifth. */
  function Ranked(c: Catalog, query: string, userLevel: Level, userEquipment: seq<string>): (r: seq<Candidate>)
    ensures |r| <= 5
    ensures Lookup(c, query).None? ==> r == []
  {
    match Lookup(c, query)
    case None => []
    case Some(original) => TopFive(SortByRank(Decorate(original, Matches(c, query, original, userLevel, userEquipment))))
  }

  /** The names find_exercise_alternatives returns. */
  function Alternatives(c: Catalog, query: string, userLevel: Level, userEquipment: seq<string>): (r: seq<string>)
    ensures |r| <= 5
    ensures Lookup(c, query).None? ==> r == []
  {
    Names(Ranked(c, query, userLevel, userEquipment))
  }

  /** The candidate loop: walk the catalog in order and append every entry that passes
      the four tests. */
  method CollectCandidates(c: Catalog, query: string, original: Exercise, userLevel: Level, userEquipment: seq<string>)
    returns (alternatives: Catalog)
    ensures alternatives == Matches(c, query, original, userLevel, userEquipment)
  {
    alternatives := [];
    var i := 0;
    while i < |c|
      invariant 0 <= i <= |c|
      invariant alternatives == Matches(c[..i], query, original, userLevel, userEquipment)
    {
      assert c[..i + 1][..i] == c[..i];
      if IsAlternative(c[i], query, original, userLevel, userEquipment) {
        alternatives := alternatives + [c[i]];
      }
      i := i + 1;
    }
    assert c[..|c|] == c;
  }

  /** find_exercise_alternatives: look the exercise up, collect the candidates in catalog
      order, sort them by key, keep the first five. */
  method FindAlternatives(c: Catalog, query: string, userLevel: Level, userEquipment: seq<string>)
    returns (result: seq<string>)
    ensures result == Alternatives(c, query, userLevel, userEquipment)
  {
    var found := Lookup(c, query);
    if found.None? {
      return [];
    }
    var alternatives := CollectCandidates(c, query, found.value, userLevel, userEquipment);
    var sorted := SortByRank(Decorate(found.value, alternatives));
    result := Names(TopFive(sorted));
  }

  /** An exercise missing from the catalog has no alternatives. */
  lemma AlternativesUnknown(c: Catalog, query: string, userLevel: Level, userEquipment: seq<string>)
    requires forall e :: e in c ==> e.name != query
    ensures Alternatives(c, query, userLevel, userEquipment) == []
  {
  }

  /** Every alternative is another catalog exercise for the same muscle that the user's
      level and equipment allow. */
  lemma AlternativesSound(c: Catalog, query: string, userLevel: Level, userEquipment: seq<string>, x: string)
    requires x in Alternatives(c, query, userLevel, userEquipment)
    ensures Lookup(c, query).Some?
    ensures exists e :: && e in c && e.name == x && x != query
                        && e.ex.muscle == Lookup(c, query).value.muscle
                        && Eligible(e.ex, userLevel, userEquipment)
  {
    var original := Lookup(c, query).value;
    var es := Matches(c, query, original, userLevel, userEquipment);
    var decorated := Decorate(original, es);
    var sorted := SortByRank(decorated);
    var ranked := Ranked(c, query, userLevel, userEquipment);
    var i :| 0 <= i < |ranked| && ranked[i].name == x;
    SortPermutes(decorated);
    assert sorted[i] in multiset(decorated);
    var j :| 0 <= j < |decorated| && decorated[j] == sorted[i];
    var e := es[j];
    assert e in es;
    IsAlternativeEligible(e, query, original, userLevel, userEquipment);
  }

  /** Five alternatives, or all candidates when there are fewer, in ascending key order;
      equal keys keep catalog order, and the list is the head of the full stable sort. */
  lemma AlternativesRanked(c: Catalog, query: string, userLevel: Level, userEquipment: seq<string>)
    requires Lookup(c, query).Some?
    ensures var original := Lookup(c, query).value;
            var candidates := Decorate(original, Matches(c, query, original, userLevel, userEquipment));
            var ranked := Ranked(c, query, userLevel, userEquipment);
            && |ranked| == (if |candidates| < 5 then |candidates| else 5)
            && Sorted(ranked)
            && ranked == SortByRank(candidates)[..|ranked|]
            && (forall k :: WithRank(SortByRank(candidates), k) == WithRank(candidates, k))
  {
    var original := Lookup(c, query).value;
    var candidates := Decorate(original, Matches(c, query, original, userLevel, userEquipment));
    SortSorted(candidates);
    forall k ensures WithRank(SortByRank(candidates), k) == WithRank(candidates, k) {
      SortStable(candidates, k);
    }
  }

  /** With at most five candidates nothing is cut: every catalog entry passing the tests
      is offered. */
  lemma AlternativesComplete(c: Catalog, query: string, userLevel: Level, userEquipment: seq<string>, e: Entry)
    requires Lookup(c, query).Some? && e in c
    requires IsAlternative(e, query, Lookup(c, query).value, userLevel, userEquipment)
    requires |Matches(c, query, Lookup(c, query).value, userLevel, userEquipment)| <= 5
    ensures e.name in Alternatives(c, query, userLevel, userEquipment)
  {
    var original := Lookup(c, query).value;
    var es := Matches(c, query, original, userLevel, userEquipment);
    var decorated := Decorate(original, es);
    var sorted := SortByRank(decorated);
    assert Alternatives(c, query, userLevel, userEquipment) == Names(TopFive(sorted));
    assert TopFive(sorted) == sorted;
    var j :| 0 <= j < |es| && es[j] == e;
    SortMembers(decorated, decorated[j]);
    NamesMember(sorted, decorated[j]);
  }
}
