/** What the greedy selections achieve, stated against every other way of choosing notes. */
module SelectionTheorems {
  import opened Base
  import opened Selection

  /** `cover` picks notes from `notes`, each at most as often as it occurs there. */
  ghost predicate ChosenFrom(cover: seq<Note>, notes: seq<Note>) {
    multiset(cover) <= multiset(notes)
  }

  // ----- what each strategy's order means

  lemma StrategyOrders(notes: seq<Note>, i: nat, j: nat)
    requires i < j < |notes|
    ensures StableSort(FirstFit, notes) == notes
    ensures |StableSort(SmallestFirst, notes)| == |StableSort(LargestFirst, notes)|
            == |StableSort(OldestFirst, notes)| == |notes|
    ensures StableSort(SmallestFirst, notes)[i].value <= StableSort(SmallestFirst, notes)[j].value
    ensures StableSort(LargestFirst, notes)[i].value >= StableSort(LargestFirst, notes)[j].value
    ensures StableSort(OldestFirst, notes)[i].height <= StableSort(OldestFirst, notes)[j].height
  {
    FirstFitKeepsOrder(notes);
    OrderedPair(SmallestFirst, notes, i, j);
    OrderedPair(LargestFirst, notes, i, j);
    OrderedPair(OldestFirst, notes, i, j);
  }

  lemma OrderedPair(strategy: Strategy, notes: seq<Note>, i: nat, j: nat)
    requires i < j < |notes|
    ensures |StableSort(strategy, notes)| == |notes|
    ensures Key(strategy, StableSort(strategy, notes)[i]) <= Key(strategy, StableSort(strategy, notes)[j])
  {
    StableSortCorrect(strategy, notes);
    assert |multiset(StableSort(strategy, notes))| == |multiset(notes)|;
  }

  // ----- when selection succeeds

  /** The sum that the wallet checks funds against; the caller keeps it within 64 bits. */
  predicate CheckSufficient(notes: seq<Note>, required: u64)
    requires Sum(notes) <= U64_MAX
  {
    Sum(notes) >= required
  }

  lemma SumOfSorted(strategy: Strategy, notes: seq<Note>)
    ensures Sum(StableSort(strategy, notes)) == Sum(notes)
  {
    StableSortCorrect(strategy, notes);
    SumPermutation(StableSort(strategy, notes), notes);
  }

  /** The chosen prefix reaches the requirement exactly when the whole list does. */
  lemma CoverReached(notes: seq<Note>, required: u64)
    ensures required <= Sum(notes[..CoverCount(notes, required)]) <==> required <= Sum(notes)
  {
    var k := CoverCount(notes, required);
    SumPrefix(notes, k, |notes|);
    if k == |notes| {
      assert notes[..k] == notes;
    }
  }

  lemma SuccessMatchesCheck(strategy: Strategy, notes: seq<Note>, target: u64, fee: u64)
    requires Sum(notes) <= U64_MAX
    requires target + fee <= U64_MAX
    ensures Select(strategy, notes, target, fee).Ok? <==> CheckSufficient(notes, target + fee)
  {
    var sorted := StableSort(strategy, notes);
    SumOfSorted(strategy, notes);
    CoverReached(sorted, target + fee);
    SumPrefix(sorted, CoverCount(sorted, target + fee), |sorted|);
  }

  lemma FrontIsChosen(strategy: Strategy, notes: seq<Note>, k: nat)
    requires k <= |StableSort(strategy, notes)|
    ensures ChosenFrom(StableSort(strategy, notes)[..k], notes)
  {
    var sorted := StableSort(strategy, notes);
    StableSortCorrect(strategy, notes);
    assert sorted == sorted[..k] + sorted[k..];
    assert multiset(sorted) == multiset(sorted[..k]) + multiset(sorted[k..]);
  }

  /** The greedy choice is tight: without its last note it would not be enough. */
  lemma TakeIsTight(sorted: seq<Note>, required: u64)
    requires Take(sorted, required).Ok?
    ensures var s := Take(sorted, required).value;
            && s.total == Sum(s.notes) == required + s.change
            && s.notes == sorted[..CoverCount(sorted, required)]
            && (required > 0 ==> s.notes != [] && s.change < s.notes[|s.notes| - 1].value)
  {
    var k := CoverCount(sorted, required);
    assert sorted[..0] == [];
    if required > 0 {
      SumPrefixStep(sorted, k - 1);
    }
  }

  /** Everything an accepted selection guarantees, whatever the strategy. */
  lemma SelectionSound(strategy: Strategy, notes: seq<Note>, target: u64, fee: u64)
    requires Select(strategy, notes, target, fee).Ok?
    ensures var s := Select(strategy, notes, target, fee).value;
            && ChosenFrom(s.notes, notes)
            && s.total == Sum(s.notes) == target + fee + s.change
            && (target + fee > 0 ==> s.notes != [] && s.change < s.notes[|s.notes| - 1].value)
  {
    var sorted := StableSort(strategy, notes);
    TakeIsTight(sorted, target + fee);
    FrontIsChosen(strategy, notes, CoverCount(sorted, target + fee));
  }

  // ----- the exchange argument

  function KeySum(strategy: Strategy, s: seq<Note>): int {
    if s == [] then 0 else Key(strategy, s[0]) + KeySum(strategy, s[1..])
  }

  lemma {:induction false} KeySumIsValue(s: seq<Note>)
    ensures KeySum(SmallestFirst, s) == Sum(s)
    ensures KeySum(LargestFirst, s) + Sum(s) == 0
  {
    if s != [] {
      KeySumIsValue(s[1..]);
    }
  }

  lemma {:induction false} KeySumConcat(strategy: Strategy, a: seq<Note>, b: seq<Note>)
    ensures KeySum(strategy, a + b) == KeySum(strategy, a) + KeySum(strategy, b)
  {
    if a == [] {
      assert a + b == b;
    } else {
      KeySumConcat(strategy, a[1..], b);
      assert (a + b)[1..] == a[1..] + b;
    }
  }

  lemma KeySumWithout(strategy: Strategy, s: seq<Note>, i: nat)
    requires i < |s|
    ensures KeySum(strategy, s) == KeySum(strategy, Without(s, i)) + Key(strategy, s[i])
  {
    assert s == s[..i] + ([s[i]] + s[i + 1..]);
    KeySumConcat(strategy, s[..i], [s[i]] + s[i + 1..]);
    KeySumConcat(strategy, s[..i], s[i + 1..]);
  }

  lemma ChoiceIsNoLonger(c: seq<Note>, s: seq<Note>)
    requires ChosenFrom(c, s)
    ensures |c| <= |s|
  {
    assert multiset(s) == multiset(c) + (multiset(s) - multiset(c));
    assert |multiset(c) + (multiset(s) - multiset(c))| == |multiset(c)| + |multiset(s) - multiset(c)|;
    assert |multiset(c)| == |c| && |multiset(s)| == |s|;
  }

  lemma ChoiceUsingHead(c: seq<Note>, s: seq<Note>, i: nat)
    requires ChosenFrom(c, s)
    requires s != [] && i < |c| && c[i] == s[0]
    ensures ChosenFrom(Without(c, i), s[1..])
  {
    WithoutPart(c, i);
    HeadPart(s);
    var x := s[0];
    forall n ensures multiset(Without(c, i))[n] <= multiset(s[1..])[n] {
      assert multiset(c)[n] <= multiset(s)[n];
    }
  }

  lemma ChoiceAvoidingHead(c: seq<Note>, s: seq<Note>)
    requires ChosenFrom(c, s)
    requires s != [] && s[0] !in c
    ensures ChosenFrom(c, s[1..])
  {
    HeadPart(s);
    assert multiset(c)[s[0]] == 0;
  }

  /** Moving a window one step along an ordered list does not lower its key sum. */
  lemma WindowShift(strategy: Strategy, s: seq<Note>, m: nat)
    requires IsSorted(strategy, s)
    requires m < |s|
    ensures KeySum(strategy, s[..m]) <= KeySum(strategy, s[1..][..m])
  {
    if m > 0 {
      assert s[..m + 1] == s[..m] + [s[m]];
      KeySumConcat(strategy, s[..m], [s[m]]);
      assert s[..m + 1] == [s[0]] + s[1..][..m];
      KeySumConcat(strategy, [s[0]], s[1..][..m]);
      assert Key(strategy, s[0]) <= Key(strategy, s[m]);
    }
  }

  /** The front of an ordered list has the least key sum among all equally long choices from it. */
  lemma {:induction false} FrontIsLeast(strategy: Strategy, s: seq<Note>, c: seq<Note>)
    requires IsSorted(strategy, s)
    requires ChosenFrom(c, s)
    ensures |c| <= |s|
    ensures KeySum(strategy, s[..|c|]) <= KeySum(strategy, c)
  {
    ChoiceIsNoLonger(c, s);
    if c != [] {
      if i :| 0 <= i < |c| && c[i] == s[0] {
        ChoiceUsingHead(c, s, i);
        FrontIsLeast(strategy, s[1..], Without(c, i));
        KeySumWithout(strategy, c, i);
        assert s[..|c|][1..] == s[1..][..|c| - 1];
      } else {
        ChoiceAvoidingHead(c, s);
        FrontIsLeast(strategy, s[1..], c);
        WindowShift(strategy, s, |c|);
      }
    }
  }

  // ----- largest first: fewest inputs

  /** No choice of fewer notes covers the requirement. */
  lemma LargestFirstUsesFewestInputs(notes: seq<Note>, target: u64, fee: u64, cover: seq<Note>)
    requires Select(LargestFirst, notes, target, fee).Ok?
    requires ChosenFrom(cover, notes)
    requires Sum(cover) >= target + fee
    ensures |Select(LargestFirst, notes, target, fee).value.notes| <= |cover|
  {
    var sorted := StableSort(LargestFirst, notes);
    StableSortCorrect(LargestFirst, notes);
    FrontIsLeast(LargestFirst, sorted, cover);
    KeySumIsValue(cover);
    KeySumIsValue(sorted[..|cover|]);
  }

  // ----- smallest first: most inputs, little change

  /**
   A cover that needs at least one of its notes, so in particular its largest, has no
   more notes than the selection.
   */
  lemma SmallestFirstUsesMostInputs(notes: seq<Note>, target: u64, fee: u64, cover: seq<Note>, needed: nat)
    requires Select(SmallestFirst, notes, target, fee).Ok?
    requires ChosenFrom(cover, notes)
    requires needed < |cover|
    requires Sum(cover) >= target + fee > Sum(cover) - cover[needed].value
    ensures |cover| <= |Select(SmallestFirst, notes, target, fee).value.notes|
  {
    var sorted := StableSort(SmallestFirst, notes);
    var rest := Without(cover, needed);
    StableSortCorrect(SmallestFirst, notes);
    WithoutPart(cover, needed);
    WithoutSum(cover, needed);
    FrontIsLeast(SmallestFirst, sorted, rest);
    KeySumIsValue(rest);
    KeySumIsValue(sorted[..|rest|]);
    var k := CoverCount(sorted, target + fee);
    if k <= |rest| {
      SumPrefix(sorted, k, |rest|);
    }
  }

  /** The change stays below the largest selected note. */
  lemma SmallestFirstChange(notes: seq<Note>, target: u64, fee: u64)
    requires Select(SmallestFirst, notes, target, fee).Ok?
    requires target + fee > 0
    ensures var s := Select(SmallestFirst, notes, target, fee).value;
            && s.notes != []
            && var largest := s.notes[|s.notes| - 1];
               s.change < largest.value && forall n :: n in s.notes ==> n.value <= largest.value
  {
    SelectionSound(SmallestFirst, notes, target, fee);
    StableSortCorrect(SmallestFirst, notes);
    var s := Select(SmallestFirst, notes, target, fee).value;
    var sorted := StableSort(SmallestFirst, notes);
    forall n | n in s.notes ensures n.value <= s.notes[|s.notes| - 1].value {
      var i :| 0 <= i < |s.notes| && s.notes[i] == n;
      assert Key(SmallestFirst, sorted[i]) <= Key(SmallestFirst, sorted[|s.notes| - 1]);
    }
  }

  // ----- consolidation refines plain selection

  lemma {:induction false} ExtrasAreEligible(rest: seq<Note>, limit: nat)
    ensures |Extras(rest, limit)| <= limit
    ensures forall n :: n in Extras(rest, limit) ==> n.eligible && n in rest
    ensures multiset(Extras(rest, limit)) <= multiset(rest)
  {
    if rest != [] && limit > 0 {
      assert rest == [rest[0]] + rest[1..];
      ExtrasAreEligible(rest[1..], if rest[0].eligible then limit - 1 else limit);
    }
  }

  /** Every eligible note of the remainder is either taken or follows a full quota. */
  lemma {:induction false} ExtrasAreMaximal(rest: seq<Note>, limit: nat, i: nat)
    requires i < |rest| && rest[i].eligible
    ensures rest[i] in Extras(rest, limit) || |Extras(rest[..i], limit)| == limit
  {
    if limit > 0 && i > 0 {
      assert rest[..i][1..] == rest[1..][..i - 1];
      ExtrasAreMaximal(rest[1..], if rest[0].eligible then limit - 1 else limit, i - 1);
    }
  }

  function Eligibles(notes: seq<Note>): nat {
    if notes == [] then 0 else (if notes[0].eligible then 1 else 0) + Eligibles(notes[1..])
  }

  /** The extras are the first eligible notes in order: as many as there are, up to the limit. */
  lemma {:induction false} ExtrasAreTheFirst(rest: seq<Note>, limit: nat, i: nat)
    requires i < |rest| && rest[i].eligible
    ensures |Extras(rest, limit)| == if Eligibles(rest) < limit then Eligibles(rest) else limit
    ensures Eligibles(rest[..i]) < limit ==>
              && Eligibles(rest[..i]) < |Extras(rest, limit)|
              && Extras(rest, limit)[Eligibles(rest[..i])] == rest[i]
  {
    ExtrasCount(rest, limit);
    if limit > 0 && i > 0 {
      assert rest[..i][1..] == rest[1..][..i - 1];
      var later := if rest[0].eligible then limit - 1 else limit;
      ExtrasAreTheFirst(rest[1..], later, i - 1);
    }
  }

  lemma {:induction false} ExtrasCount(rest: seq<Note>, limit: nat)
    ensures |Extras(rest, limit)| == if Eligibles(rest) < limit then Eligibles(rest) else limit
  {
    if rest != [] && limit > 0 {
      ExtrasCount(rest[1..], if rest[0].eligible then limit - 1 else limit);
    }
  }

  /** A limit of zero changes nothing. */
  lemma ConsolidationLimitZero(strategy: Strategy, notes: seq<Note>, target: u64, fee: u64)
    ensures SelectConsolidating(strategy, notes, target, fee, 0) == Select(strategy, notes, target, fee)
  {
    var plain := Select(strategy, notes, target, fee);
    if plain.Ok? {
      assert plain.value.notes + [] == plain.value.notes;
    }
  }

  /** `more` is `plain` with at most `limit` eligible notes appended, all of them left as change. */
  ghost predicate Extends(more: SelectionResult, plain: SelectionResult, limit: nat) {
    && plain.notes <= more.notes
    && |more.notes| <= |plain.notes| + limit
    && (forall i :: |plain.notes| <= i < |more.notes| ==> more.notes[i].eligible)
    && more.change == plain.change + Sum(more.notes[|plain.notes|..])
    && more.total == plain.total + Sum(more.notes[|plain.notes|..])
  }

  /**
   Where consolidation succeeds the plain selection does too, is its prefix, and the
   change grows by exactly the value of the extras.
   */
  lemma ConsolidationExtendsSelection(
      strategy: Strategy, notes: seq<Note>, target: u64, fee: u64, limit: nat)
    requires SelectConsolidating(strategy, notes, target, fee, limit).Ok?
    ensures Select(strategy, notes, target, fee).Ok?
    ensures Extends(
      SelectConsolidating(strategy, notes, target, fee, limit).value,
      Select(strategy, notes, target, fee).value,
      limit)
  {
    var plain := Select(strategy, notes, target, fee).value;
    AddExtrasExtends(plain, StableSort(strategy, notes)[|plain.notes|..], limit);
  }

  lemma AddExtrasExtends(plain: SelectionResult, rest: seq<Note>, limit: nat)
    requires plain.change <= plain.total
    requires AddExtras(plain, rest, limit).Ok?
    ensures Extends(AddExtras(plain, rest, limit).value, plain, limit)
  {
    var more := AddExtras(plain, rest, limit).value.notes;
    ExtrasAreEligible(rest, limit);
    assert more[|plain.notes|..] == Extras(rest, limit);
    forall i | |plain.notes| <= i < |more| ensures more[i].eligible {
      assert more[i] in Extras(rest, limit);
    }
  }

  /** What any consolidating selection adds up to, and that it is a choice from the notes. */
  lemma ConsolidationSound(strategy: Strategy, notes: seq<Note>, target: u64, fee: u64, limit: nat)
    requires SelectConsolidating(strategy, notes, target, fee, limit).Ok?
    ensures var s := SelectConsolidating(strategy, notes, target, fee, limit).value;
            && ChosenFrom(s.notes, notes)
            && s.total == Sum(s.notes) == target + fee + s.change
            && (target + fee > 0 ==> s.notes != [])
  {
    var sorted := StableSort(strategy, notes);
    TakeAndExtendSound(sorted, target + fee, limit);
    var k := |Take(sorted, target + fee).value.notes|;
    ExtrasAreEligible(sorted[k..], limit);
    ExtendedChoice(strategy, notes, k, Extras(sorted[k..], limit));
  }

  lemma TakeAndExtendSound(sorted: seq<Note>, required: u64, limit: nat)
    requires TakeAndExtend(sorted, required, limit).Ok?
    ensures Take(sorted, required).Ok?
    ensures var s, k := TakeAndExtend(sorted, required, limit).value, |Take(sorted, required).value.notes|;
            && k <= |sorted|
            && s.notes == sorted[..k] + Extras(sorted[k..], limit)
            && s.total == Sum(s.notes) == required + s.change
            && (required > 0 ==> s.notes != [])
  {
    var plain := Take(sorted, required).value;
    TakeIsTight(sorted, required);
    SumConcat(plain.notes, Extras(sorted[|plain.notes|..], limit));
  }

  lemma ExtendedChoice(strategy: Strategy, notes: seq<Note>, k: nat, extras: seq<Note>)
    requires k <= |StableSort(strategy, notes)|
    requires multiset(extras) <= multiset(StableSort(strategy, notes)[k..])
    ensures ChosenFrom(StableSort(strategy, notes)[..k] + extras, notes)
  {
    var sorted := StableSort(strategy, notes);
    StableSortCorrect(strategy, notes);
    assert sorted == sorted[..k] + sorted[k..];
    assert multiset(sorted) == multiset(sorted[..k]) + multiset(sorted[k..]);
  }

  /** With note values within 64 bits, consolidation fails only where plain selection fails. */
  lemma ConsolidationFailsOnlyWithSelection(
      strategy: Strategy, notes: seq<Note>, target: u64, fee: u64, limit: nat)
    requires Sum(notes) <= U64_MAX
    ensures SelectConsolidating(strategy, notes, target, fee, limit).Ok? <==>
            Select(strategy, notes, target, fee).Ok?
  {
    var plain := Select(strategy, notes, target, fee);
    if plain.Ok? {
      var sorted := StableSort(strategy, notes);
      var k := |plain.value.notes|;
      SumOfSorted(strategy, notes);
      SumPrefix(sorted, k, k);
      ExtrasWeighNoMore(sorted[k..], limit);
    }
  }

  lemma {:induction false} ExtrasWeighNoMore(rest: seq<Note>, limit: nat)
    ensures Sum(Extras(rest, limit)) <= Sum(rest)
  {
    if rest != [] && limit > 0 {
      ExtrasWeighNoMore(rest[1..], if rest[0].eligible then limit - 1 else limit);
      if rest[0].eligible {
        assert Extras(rest, limit)[1..] == Extras(rest[1..], limit - 1);
      }
    }
  }
}
