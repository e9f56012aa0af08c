/** How much change the selections leave, compared with every other way of covering the requirement. */
module SelectionChange {
  import opened Base
  import opened Selection
  import opened SelectionTheorems

  /** Whatever is asked for, no other choice of notes that covers it leaves less change. */
  ghost predicate LeavesLeastChange(strategy: Strategy, notes: seq<Note>) {
    forall target: u64, fee: u64, cover: seq<Note> ::
      Select(strategy, notes, target, fee).Ok? && ChosenFrom(cover, notes) && Sum(cover) >= target + fee ==>
      Select(strategy, notes, target, fee).value.change <= Sum(cover) - (target + fee)
  }

  /** All notes that are worth anything are worth the same. */
  predicate IsUniform(notes: seq<Note>) {
    forall i, j :: 0 <= i < |notes| && 0 <= j < |notes| && notes[i].value > 0 && notes[j].value > 0 ==>
      notes[i].value == notes[j].value
  }

  // ----- uniform notes

  ghost predicate IsZeroOr(notes: seq<Note>, v: nat) {
    forall i :: 0 <= i < |notes| ==> notes[i].value == 0 || notes[i].value == v
  }

  function Positives(notes: seq<Note>): nat {
    if notes == [] then 0 else (if notes[0].value > 0 then 1 else 0) + Positives(notes[1..])
  }

  function Times(v: nat, n: nat): nat {
    if n == 0 then 0 else v + Times(v, n - 1)
  }

  /** Different multiples of `v` are at least `v` apart. */
  lemma {:induction false} TimesApart(v: nat, a: nat, b: nat)
    requires a < b
    ensures Times(v, a) + v <= Times(v, b)
  {
    if a + 1 < b {
      TimesApart(v, a, b - 1);
    }
  }

  lemma {:induction false} UniformSum(notes: seq<Note>, v: nat)
    requires IsZeroOr(notes, v)
    ensures Sum(notes) == Times(v, Positives(notes))
  {
    if notes != [] {
      UniformSum(notes[1..], v);
    }
  }

  lemma UniformValue(notes: seq<Note>) returns (v: nat)
    requires IsUniform(notes)
    ensures IsZeroOr(notes, v)
  {
    if i :| 0 <= i < |notes| && notes[i].value > 0 {
      v := notes[i].value;
    } else {
      v := 0;
    }
  }

  lemma ChoiceIsZeroOr(choice: seq<Note>, notes: seq<Note>, v: nat)
    requires IsZeroOr(notes, v) && ChosenFrom(choice, notes)
    ensures IsZeroOr(choice, v)
  {
    forall i | 0 <= i < |choice| ensures choice[i].value == 0 || choice[i].value == v {
      assert choice[i] in multiset(choice);
      assert choice[i] in multiset(notes);
    }
  }

  lemma UniformLeavesLeast(strategy: Strategy, notes: seq<Note>, target: u64, fee: u64, cover: seq<Note>)
    requires IsUniform(notes)
    requires Select(strategy, notes, target, fee).Ok?
    requires ChosenFrom(cover, notes) && Sum(cover) >= target + fee
    ensures Select(strategy, notes, target, fee).value.change <= Sum(cover) - (target + fee)
  {
    var s := Select(strategy, notes, target, fee).value;
    var v := UniformValue(notes);
    SelectionSound(strategy, notes, target, fee);
    ChoiceIsZeroOr(s.notes, notes, v);
    ChoiceIsZeroOr(cover, notes, v);
    TightIsLeast(s.notes, cover, v, target + fee);
  }

  /** With equal values, a sum that reaches the requirement tightly is below every other that reaches it. */
  lemma TightIsLeast(tight: seq<Note>, cover: seq<Note>, v: nat, required: nat)
    requires IsZeroOr(tight, v) && IsZeroOr(cover, v)
    requires required <= Sum(cover)
    requires tight == [] || Sum(tight) - required < tight[|tight| - 1].value
    ensures Sum(tight) <= Sum(cover)
  {
    UniformSum(tight, v);
    UniformSum(cover, v);
    var a, b := Positives(tight), Positives(cover);
    if a < b {
      TimesApart(v, a, b);
    } else if b < a {
      TimesApart(v, b, a);
    }
  }

  // ----- notes of different values

  /** Different positive values with only worthless notes between them. */
  ghost predicate AreNeighbours(s: seq<Note>, j: nat, k: nat) {
    && j < k < |s|
    && s[j].value > 0 && s[k].value > 0 && s[j].value != s[k].value
    && forall m :: j < m < k ==> s[m].value == 0
  }

  lemma FindNeighbours(s: seq<Note>, i: nat, l: nat) returns (j: nat, k: nat)
    requires i < l < |s|
    requires s[i].value > 0 && s[l].value > 0 && s[i].value != s[l].value
    ensures AreNeighbours(s, j, k)
    decreases l - i
  {
    if m :| i < m < l && s[m].value > 0 {
      if s[m].value != s[i].value {
        j, k := FindNeighbours(s, i, m);
      } else {
        j, k := FindNeighbours(s, m, l);
      }
    } else {
      j, k := i, l;
    }
  }

  lemma {:induction false} ZerosAddNothing(s: seq<Note>, j: nat, m: nat)
    requires j <= m <= |s|
    requires forall i :: j <= i < m ==> s[i].value == 0
    ensures Sum(s[..m]) == Sum(s[..j])
  {
    if j < m {
      ZerosAddNothing(s, j, m - 1);
      SumPrefixStep(s, m - 1);
    }
  }

  /** No prefix is worth what the notes before the neighbours and the second of them are worth. */
  lemma NoPrefixSkipsNeighbour(s: seq<Note>, j: nat, k: nat, m: nat)
    requires AreNeighbours(s, j, k)
    requires m <= |s|
    ensures Sum(s[..m]) != Sum(s[..j]) + s[k].value
  {
    SumPrefixStep(s, j);
    if m <= j {
      SumPrefix(s, m, j);
    } else if m <= k {
      ZerosAddNothing(s, j + 1, m);
    } else {
      ZerosAddNothing(s, j + 1, k);
      SumPrefixStep(s, k);
      SumPrefix(s, k + 1, m);
    }
  }

  /** Leaving out the first of two neighbours covers that requirement with no change at all. */
  lemma NeighbourCover(s: seq<Note>, j: nat, k: nat)
    requires AreNeighbours(s, j, k)
    ensures ChosenFrom(s[..j] + [s[k]], s)
    ensures Sum(s[..j] + [s[k]]) == Sum(s[..j]) + s[k].value <= Sum(s)
  {
    SumSnoc(s[..j], s[k]);
    SumPrefixStep(s, k);
    SumPrefix(s, j, k);
    SumPrefix(s, k + 1, k + 1);
    PickFromRest(s, j, k);
  }

  lemma PickFromRest(s: seq<Note>, j: nat, k: nat)
    requires j <= k < |s|
    ensures ChosenFrom(s[..j] + [s[k]], s)
  {
    var front, rest := s[..j], s[j..];
    assert s == front + rest;
    WithoutPart(rest, k - j);
    assert multiset([s[k]]) == multiset{s[k]};
    assert multiset(s) == multiset(front) + (multiset(Without(rest, k - j)) + multiset{s[k]});
  }

  lemma NeighboursWasteChange(strategy: Strategy, notes: seq<Note>, j: nat, k: nat)
    requires Sum(notes) <= U64_MAX
    requires AreNeighbours(StableSort(strategy, notes), j, k)
    ensures !LeavesLeastChange(strategy, notes)
  {
    var s := StableSort(strategy, notes);
    var required := Sum(s[..j]) + s[k].value;
    var cover := s[..j] + [s[k]];
    NeighbourCover(s, j, k);
    StableSortCorrect(strategy, notes);
    SumOfSorted(strategy, notes);
    SuccessMatchesCheck(strategy, notes, required, 0);
    TakeIsTight(s, required);
    NoPrefixSkipsNeighbour(s, j, k, CoverCount(s, required));
    assert ChosenFrom(cover, notes) && Sum(cover) == required + 0;
  }

  lemma StillThere(strategy: Strategy, notes: seq<Note>, a: nat) returns (x: nat)
    requires a < |notes|
    ensures x < |StableSort(strategy, notes)| && StableSort(strategy, notes)[x] == notes[a]
  {
    StableSortCorrect(strategy, notes);
    assert notes[a] in multiset(notes);
    assert notes[a] in multiset(StableSort(strategy, notes));
    x :| 0 <= x < |StableSort(strategy, notes)| && StableSort(strategy, notes)[x] == notes[a];
  }

  /** An unequal pair stays an unequal pair when the notes are sorted. */
  lemma UnequalInOrder(strategy: Strategy, notes: seq<Note>) returns (i: nat, l: nat)
    requires !IsUniform(notes)
    ensures var s := StableSort(strategy, notes);
            i < l < |s| && s[i].value > 0 && s[l].value > 0 && s[i].value != s[l].value
  {
    var a: nat, b: nat :| a < |notes| && b < |notes|
      && notes[a].value > 0 && notes[b].value > 0 && notes[a].value != notes[b].value;
    var x := StillThere(strategy, notes, a);
    var y := StillThere(strategy, notes, b);
    i, l := if x < y then x else y, if x < y then y else x;
  }

  /**
   A selection leaves the least possible change for every requirement exactly when all
   positive values are equal. This holds for smallest-first as for every other strategy,
   so none of them minimizes change.
   */
  lemma ChangeIsLeastExactly(strategy: Strategy, notes: seq<Note>)
    requires Sum(notes) <= U64_MAX
    ensures LeavesLeastChange(strategy, notes) <==> IsUniform(notes)
  {
    if IsUniform(notes) {
      forall target: u64, fee: u64, cover: seq<Note> |
        Select(strategy, notes, target, fee).Ok? && ChosenFrom(cover, notes) && Sum(cover) >= target + fee
        ensures Select(strategy, notes, target, fee).value.change <= Sum(cover) - (target + fee)
      {
        UniformLeavesLeast(strategy, notes, target, fee, cover);
      }
    } else {
      var i, l := UnequalInOrder(strategy, notes);
      var j, k := FindNeighbours(StableSort(strategy, notes), i, l);
      NeighboursWasteChange(strategy, notes, j, k);
    }
  }

  /** Notes of 6 and 10 for a requirement of 10: both are taken and 6 is left, where the 10 alone leaves nothing. */
  lemma SixAndTen(six: Note, ten: Note, target: u64, fee: u64)
    requires six.value == 6 && ten.value == 10
    requires target + fee == 10
    ensures Select(SmallestFirst, [six, ten], target, fee) == Ok(SelectionResult([six, ten], 16, 6))
    ensures ChosenFrom([ten], [six, ten]) && Sum([ten]) == target + fee
  {
    var notes := [six, ten];
    assert notes[..1] == [six] && notes[..2] == notes && notes[1..] == [ten] && [ten][1..] == [];
    assert StableSort(SmallestFirst, [six]) == [six] by { assert [six][..0] == []; }
    assert StableSort(SmallestFirst, notes) == notes;
    assert Sum(notes) == 16 && Sum([six]) == 6 && Sum([ten]) == 10;
    assert CoverCount(notes, 10) == 2 by { assert Sum(notes[..CoverCount(notes, 10)]) >= 10 || CoverCount(notes, 10) == 2; }
    assert multiset(notes) == multiset([six]) + multiset([ten]);
  }
}
