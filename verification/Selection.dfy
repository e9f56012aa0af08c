/**
 Note selection: the strategy-ordered greedy loop and its consolidating variant.
 */
module Selection {
  import opened Base

  datatype Pool = Sapling | Ironwood

  type Address = int
  type Anchor = int
  type KeyId = int

  /** The pool-level note a wallet note carries; its value is what a spend of it contributes. */
  datatype InnerNote = InnerNote(value: u64, recipient: Address)

  /**
   A candidate note. `saplingRoot` stands for the root that the Sapling witness path
   and the note's commitment fold to; it is absent when the path is.
   */
  datatype Note = Note(
    pool: Pool,
    value: u64,
    height: u64,
    eligible: bool,
    keyId: Option<KeyId>,
    diversifier: Option<int>,
    saplingNote: Option<InnerNote>,
    saplingRoot: Option<Anchor>,
    ironwoodAnchor: Option<Anchor>,
    ironwoodNote: Option<InnerNote>,
    ironwoodPath: Option<int>)

  datatype Strategy = FirstFit | SmallestFirst | LargestFirst | OldestFirst

  datatype SelectionResult = SelectionResult(notes: seq<Note>, total: u64, change: u64)

  // ----- value of a sequence of notes

  function Sum(notes: seq<Note>): nat {
    if notes == [] then 0 else notes[0].value + Sum(notes[1..])
  }

  lemma {:induction false} SumConcat(a: seq<Note>, b: seq<Note>)
    ensures Sum(a + b) == Sum(a) + Sum(b)
  {
    if a == [] {
      assert a + b == b;
    } else {
      SumConcat(a[1..], b);
      assert (a + b)[1..] == a[1..] + b;
    }
  }

  lemma SumSnoc(a: seq<Note>, x: Note)
    ensures Sum(a + [x]) == Sum(a) + x.value
  {
    SumConcat(a, [x]);
  }

  lemma SumPrefix(notes: seq<Note>, j: nat, k: nat)
    requires j <= k <= |notes|
    ensures Sum(notes[..j]) <= Sum(notes[..k])
    ensures Sum(notes[..j]) + Sum(notes[j..]) == Sum(notes)
  {
    SumConcat(notes[..j], notes[j..k]);
    assert notes[..j] + notes[j..k] == notes[..k];
    SumConcat(notes[..j], notes[j..]);
    assert notes[..j] + notes[j..] == notes;
  }

  lemma SumPrefixStep(notes: seq<Note>, k: nat)
    requires k < |notes|
    ensures Sum(notes[..k + 1]) == Sum(notes[..k]) + notes[k].value
  {
    SumSnoc(notes[..k], notes[k]);
    assert notes[..k] + [notes[k]] == notes[..k + 1];
  }

  function Without(s: seq<Note>, i: nat): seq<Note>
    requires i < |s|
  {
    s[..i] + s[i + 1..]
  }

  lemma HeadPart(s: seq<Note>)
    requires s != []
    ensures multiset(s) == multiset{s[0]} + multiset(s[1..])
  {
    assert s == [s[0]] + s[1..];
  }

  lemma WithoutPart(s: seq<Note>, i: nat)
    requires i < |s|
    ensures multiset(s) == multiset(Without(s, i)) + multiset{s[i]}
  {
    assert s == s[..i] + s[i..];
    HeadPart(s[i..]);
    assert s[i..][1..] == s[i + 1..];
  }

  lemma WithoutSum(s: seq<Note>, i: nat)
    requires i < |s|
    ensures Sum(s) == Sum(Without(s, i)) + s[i].value
  {
    SumConcat(s[..i], s[i..]);
    assert s[..i] + s[i..] == s;
    SumConcat(s[..i], s[i + 1..]);
    assert s[i..][1..] == s[i + 1..];
  }

  /** The value of a collection of notes does not depend on their order. */
  lemma {:induction false} SumPermutation(a: seq<Note>, b: seq<Note>)
    requires multiset(a) == multiset(b)
    ensures Sum(a) == Sum(b)
  {
    if a == [] {
      assert |multiset(b)| == 0;
    } else {
      HeadPart(a);
      assert a[0] in multiset(b);
      var i :| 0 <= i < |b| && b[i] == a[0];
      WithoutPart(b, i);
      WithoutSum(b, i);
      assert multiset(a[1..]) == multiset(a) - multiset{a[0]};
      assert multiset(Without(b, i)) == multiset(b) - multiset{a[0]};
      SumPermutation(a[1..], Without(b, i));
    }
  }

  // ----- ordering

  /** Notes are ordered by ascending key; `FirstFit` leaves them as received. */
  function Key(strategy: Strategy, n: Note): int {
    match strategy
    case FirstFit => 0
    case SmallestFirst => n.value
    case LargestFirst => 0 - (n.value as int)
    case OldestFirst => n.height
  }

  /** Inserts after every note whose key is not greater. */
  function Insert(strategy: Strategy, s: seq<Note>, x: Note): seq<Note> {
    if s == [] then [x]
    else if Key(strategy, x) < Key(strategy, s[|s| - 1]) then
      Insert(strategy, s[..|s| - 1], x) + [s[|s| - 1]]
    else s + [x]
  }

  function StableSort(strategy: Strategy, s: seq<Note>): seq<Note> {
    if s == [] then []
    else Insert(strategy, StableSort(strategy, s[..|s| - 1]), s[|s| - 1])
  }

  ghost predicate IsSorted(strategy: Strategy, s: seq<Note>) {
    forall i, j :: 0 <= i < j < |s| ==> Key(strategy, s[i]) <= Key(strategy, s[j])
  }

  /** The notes of `s` with key `k`, in their order in `s`. */
  ghost function WithKey(strategy: Strategy, s: seq<Note>, k: int): seq<Note> {
    if s == [] then []
    else
      var front := WithKey(strategy, s[..|s| - 1], k);
      if Key(strategy, s[|s| - 1]) == k then front + [s[|s| - 1]] else front
  }

  lemma {:induction false} InsertAt(strategy: Strategy, s: seq<Note>, x: Note, j: nat)
    requires j <= |s|
    requires forall k :: j <= k < |s| ==> Key(strategy, x) < Key(strategy, s[k])
    requires j == 0 || Key(strategy, s[j - 1]) <= Key(strategy, x)
    ensures var r := Insert(strategy, s, x);
            && |r| == |s| + 1
            && r[j] == x
            && (forall k :: 0 <= k < j ==> r[k] == s[k])
            && (forall k :: j < k < |r| ==> r[k] == s[k - 1])
  {
    if j < |s| {
      InsertAt(strategy, s[..|s| - 1], x, j);
    }
  }

  lemma {:induction false} InsertIsSorted(strategy: Strategy, s: seq<Note>, x: Note)
    requires IsSorted(strategy, s)
    ensures IsSorted(strategy, Insert(strategy, s, x))
  {
    if s != [] && Key(strategy, x) < Key(strategy, s[|s| - 1]) {
      var front, last := s[..|s| - 1], s[|s| - 1];
      InsertIsSorted(strategy, front, x);
      InsertPermutes(strategy, front, x);
      var r := Insert(strategy, front, x);
      forall i | 0 <= i < |r| ensures Key(strategy, r[i]) <= Key(strategy, last) {
        assert r[i] in multiset(r);
        assert r[i] in front || r[i] == x;
      }
    }
  }

  lemma {:induction false} InsertPermutes(strategy: Strategy, s: seq<Note>, x: Note)
    ensures multiset(Insert(strategy, s, x)) == multiset(s) + multiset{x}
  {
    if s != [] && Key(strategy, x) < Key(strategy, s[|s| - 1]) {
      InsertPermutes(strategy, s[..|s| - 1], x);
      assert s == s[..|s| - 1] + [s[|s| - 1]];
    }
  }

  /** Sorting yields an ordered permutation that keeps equal keys in their original order. */
  lemma {:induction false} StableSortCorrect(strategy: Strategy, s: seq<Note>)
    ensures IsSorted(strategy, StableSort(strategy, s))
    ensures multiset(StableSort(strategy, s)) == multiset(s)
    ensures forall k :: WithKey(strategy, StableSort(strategy, s), k) == WithKey(strategy, s, k)
  {
    if s != [] {
      var front, last := s[..|s| - 1], s[|s| - 1];
      assert s == front + [last];
      StableSortCorrect(strategy, front);
      InsertIsSorted(strategy, StableSort(strategy, front), last);
      InsertPermutes(strategy, StableSort(strategy, front), last);
      forall k ensures WithKey(strategy, StableSort(strategy, s), k) == WithKey(strategy, s, k) {
        InsertIsStable(strategy, StableSort(strategy, front), last, k);
        WithKeySnoc(strategy, StableSort(strategy, front), last, k);
      }
    }
  }

  lemma {:induction false} InsertIsStable(strategy: Strategy, s: seq<Note>, x: Note, k: int)
    requires IsSorted(strategy, s)
    ensures WithKey(strategy, Insert(strategy, s, x), k) == WithKey(strategy, s + [x], k)
  {
    if s != [] && Key(strategy, x) < Key(strategy, s[|s| - 1]) {
      var front, last := s[..|s| - 1], s[|s| - 1];
      InsertIsStable(strategy, front, x, k);
      WithKeySnoc(strategy, Insert(strategy, front, x), last, k);
      WithKeySnoc(strategy, front, x, k);
      WithKeySnoc(strategy, s, x, k);
    }
  }

  lemma WithKeySnoc(strategy: Strategy, s: seq<Note>, x: Note, k: int)
    ensures WithKey(strategy, s + [x], k) ==
            if Key(strategy, x) == k then WithKey(strategy, s, k) + [x] else WithKey(strategy, s, k)
  {
    assert (s + [x])[..|s|] == s;
  }

  /** With equal keys throughout, as under `FirstFit`, sorting changes nothing. */
  lemma {:induction false} FirstFitKeepsOrder(s: seq<Note>)
    ensures StableSort(FirstFit, s) == s
  {
    if s != [] {
      FirstFitKeepsOrder(s[..|s| - 1]);
    }
  }

  method SortNotes(strategy: Strategy, a: array<Note>)
    modifies a
    ensures a[..] == StableSort(strategy, old(a[..]))
  {
    if strategy == FirstFit {
      FirstFitKeepsOrder(a[..]);
      return;
    }
    ghost var was := a[..];
    var i := 0;
    while i < a.Length
      invariant 0 <= i <= a.Length
      invariant a[..i] == StableSort(strategy, was[..i])
      invariant forall k :: i <= k < a.Length ==> a[k] == was[k]
    {
      SinkInto(strategy, a, i);
      assert was[..i + 1][..i] == was[..i];
      assert a[..i + 1] == StableSort(strategy, was[..i + 1]);
      i := i + 1;
    }
    assert was[..a.Length] == was;
  }

  /** The owned list of available notes, sorted. */
  method SortedCopy(strategy: Strategy, notes: seq<Note>) returns (sorted: seq<Note>)
    ensures sorted == StableSort(strategy, notes)
  {
    var a := new Note[|notes|](i requires 0 <= i < |notes| => notes[i]);
    assert a[..] == notes;
    SortNotes(strategy, a);
    sorted := a[..];
  }

  /** Sinks the note at `i` into the prefix before it, below every note with a greater key. */
  method SinkInto(strategy: Strategy, a: array<Note>, i: nat)
    requires i < a.Length
    modifies a
    ensures a[..i + 1] == Insert(strategy, old(a[..i]), old(a[i]))
    ensures forall k :: i < k < a.Length ==> a[k] == old(a[k])
  {
    ghost var s, x := a[..i], a[i];
    var j := i;
    while 0 < j && Key(strategy, a[j]) < Key(strategy, a[j - 1])
      invariant 0 <= j <= i
      invariant a[j] == x
      invariant forall k :: 0 <= k < j ==> a[k] == s[k]
      invariant forall k :: j < k <= i ==> a[k] == s[k - 1]
      invariant forall k :: i < k < a.Length ==> a[k] == old(a[k])
      invariant forall k :: j <= k < |s| ==> Key(strategy, x) < Key(strategy, s[k])
    {
      a[j - 1], a[j] := a[j], a[j - 1];
      j := j - 1;
    }
    InsertAt(strategy, s, x, j);
  }

  // ----- greedy selection

  /** How many notes, taken from the front, it takes to reach `required` (all if it is not reached). */
  function CoverCount(notes: seq<Note>, required: int): (k: nat)
    ensures k <= |notes|
    ensures forall j :: 0 <= j < k ==> Sum(notes[..j]) < required
    ensures k < |notes| ==> required <= Sum(notes[..k])
  {
    if required <= 0 || notes == [] then 0
    else
      var k := 1 + CoverCount(notes[1..], required - notes[0].value);
      assert forall j :: 0 < j <= |notes| ==> notes[..j][1..] == notes[1..][..j - 1];
      k
  }

  /** The greedy choice from notes already in order. */
  function Take(sorted: seq<Note>, required: u64): (r: Result<SelectionResult, Error>) {
    var chosen := sorted[..CoverCount(sorted, required)];
    if Sum(chosen) > U64_MAX then Err(InsufficientFunds(ValueOverflow))
    else if Sum(chosen) < required then Err(InsufficientFunds(Short(required, Sum(chosen))))
    else Ok(SelectionResult(chosen, Sum(chosen), Sum(chosen) - required))
  }

  function Select(strategy: Strategy, notes: seq<Note>, target: u64, fee: u64)
    : (r: Result<SelectionResult, Error>)
  {
    if target + fee > U64_MAX then Err(InsufficientFunds(RequiredOverflow))
    else Take(StableSort(strategy, notes), target + fee)
  }

  method SelectNotes(strategy: Strategy, availableNotes: seq<Note>, target: u64, fee: u64)
    returns (r: Result<SelectionResult, Error>)
    ensures r == Select(strategy, availableNotes, target, fee)
  {
    if target + fee > U64_MAX {
      return Err(InsufficientFunds(RequiredOverflow));
    }
    var sorted := SortedCopy(strategy, availableNotes);
    r := TakeNotes(sorted, target + fee);
  }

  /** The selection loop. */
  method TakeNotes(sorted: seq<Note>, required: u64) returns (r: Result<SelectionResult, Error>)
    ensures r == Take(sorted, required)
  {
    var selected: seq<Note> := [];
    var total: u64 := 0;
    var i := 0;
    ghost var k := CoverCount(sorted, required);
    while i < |sorted|
      invariant 0 <= i <= k
      invariant selected == sorted[..i]
      invariant total == Sum(selected)
    {
      if total >= required {
        break;
      }
      var note := sorted[i];
      SumPrefixStep(sorted, i);
      selected := selected + [note];
      i := i + 1;
      assert selected == sorted[..i];
      if total + note.value > U64_MAX {
        return Err(InsufficientFunds(ValueOverflow));
      }
      total := total + note.value;
    }
    if total < required {
      return Err(InsufficientFunds(Short(required, total)));
    }
    return Ok(SelectionResult(selected, total, total - required));
  }

  // ----- consolidating selection

  /** The first at most `limit` eligible notes. */
  function Extras(notes: seq<Note>, limit: nat): seq<Note> {
    if notes == [] || limit == 0 then []
    else if notes[0].eligible then [notes[0]] + Extras(notes[1..], limit - 1)
    else Extras(notes[1..], limit)
  }

  /**
   Consolidation on top of a plain selection: the plain result, then the extras taken
   from what the plain selection left behind.
   */
  function AddExtras(plain: SelectionResult, rest: seq<Note>, limit: nat): (r: Result<SelectionResult, Error>)
    requires plain.change <= plain.total
  {
    var extras := Extras(rest, limit);
    if plain.total + Sum(extras) > U64_MAX then Err(InsufficientFunds(ValueOverflow))
    else Ok(SelectionResult(plain.notes + extras, plain.total + Sum(extras), plain.change + Sum(extras)))
  }

  function TakeAndExtend(sorted: seq<Note>, required: u64, limit: nat): (r: Result<SelectionResult, Error>) {
    match Take(sorted, required)
    case Err(e) => Err(e)
    case Ok(plain) => AddExtras(plain, sorted[|plain.notes|..], limit)
  }

  function SelectConsolidating(strategy: Strategy, notes: seq<Note>, target: u64, fee: u64, limit: nat)
    : (r: Result<SelectionResult, Error>)
  {
    if target + fee > U64_MAX then Err(InsufficientFunds(RequiredOverflow))
    else TakeAndExtend(StableSort(strategy, notes), target + fee, limit)
  }

  method SelectNotesWithConsolidation(
      strategy: Strategy, availableNotes: seq<Note>, target: u64, fee: u64, extraLimit: nat)
    returns (r: Result<SelectionResult, Error>)
    ensures r == SelectConsolidating(strategy, availableNotes, target, fee, extraLimit)
  {
    if target + fee > U64_MAX {
      return Err(InsufficientFunds(RequiredOverflow));
    }
    var sorted := SortedCopy(strategy, availableNotes);
    r := TakeNotesAndExtras(sorted, target + fee, extraLimit);
  }

  /**
   Where the single loop stands at note `i`: still covering the requirement, or past it, with
   what is selected and what is still to come making up the goal.
   */
  ghost predicate IsOnTrack(
      sorted: seq<Note>, required: u64, limit: nat, i: nat, selected: seq<Note>, total: nat, extra: nat)
  {
    var k := CoverCount(sorted, required);
    && i <= |sorted|
    && (i <= k ==> selected == sorted[..i] && total == Sum(selected) && extra == 0)
    && (i > k ==> required <= total)
    && (i >= k ==>
          && extra <= limit
          && selected + Extras(sorted[i..], limit - extra) == sorted[..k] + Extras(sorted[k..], limit)
          && total + Sum(Extras(sorted[i..], limit - extra)) == Sum(sorted[..k]) + Sum(Extras(sorted[k..], limit)))
  }

  lemma CoverOneMore(
      sorted: seq<Note>, required: u64, limit: nat, i: nat, selected: seq<Note>, total: nat, extra: nat)
    requires IsOnTrack(sorted, required, limit, i, selected, total, extra)
    requires i < |sorted| && total < required
    ensures IsOnTrack(sorted, required, limit, i + 1, selected + [sorted[i]], total + sorted[i].value, extra)
    ensures total + sorted[i].value > U64_MAX ==>
              TakeAndExtend(sorted, required, limit) == Err(InsufficientFunds(ValueOverflow))
  {
    var k := CoverCount(sorted, required);
    assert i < k;
    SumPrefixStep(sorted, i);
    SumPrefix(sorted, i + 1, k);
    assert selected + [sorted[i]] == sorted[..i + 1];
  }

  lemma PassOneMore(
      sorted: seq<Note>, required: u64, limit: nat, i: nat, selected: seq<Note>, total: u64, extra: nat)
    requires IsOnTrack(sorted, required, limit, i, selected, total, extra)
    requires i < |sorted| && required <= total && extra < limit
    ensures !sorted[i].eligible ==> IsOnTrack(sorted, required, limit, i + 1, selected, total, extra)
    ensures sorted[i].eligible ==>
              IsOnTrack(sorted, required, limit, i + 1, selected + [sorted[i]], total + sorted[i].value, extra + 1)
    ensures sorted[i].eligible && total + sorted[i].value > U64_MAX ==>
              TakeAndExtend(sorted, required, limit) == Err(InsufficientFunds(ValueOverflow))
  {
    ExtrasStep(sorted, i, limit - extra, selected);
  }

  /** The loop has what consolidation asks for once nothing more is to come. */
  lemma TrackEnds(
      sorted: seq<Note>, required: u64, limit: nat, i: nat, selected: seq<Note>, total: u64, extra: nat)
    requires IsOnTrack(sorted, required, limit, i, selected, total, extra)
    requires i == |sorted| || (required <= total && extra == limit)
    ensures TakeAndExtend(sorted, required, limit) ==
            if total < required then Err(InsufficientFunds(Short(required, total)))
            else Ok(SelectionResult(selected, total, total - required))
  {
    var k := CoverCount(sorted, required);
    if i >= k {
      assert Extras(sorted[i..], limit - extra) == [];
      assert selected + [] == selected;
    }
  }

  /** The single loop that first covers the requirement and then picks up extras. */
  method TakeNotesAndExtras(sorted: seq<Note>, required: u64, extraLimit: nat)
    returns (r: Result<SelectionResult, Error>)
    ensures r == TakeAndExtend(sorted, required, extraLimit)
  {
    var selected: seq<Note> := [];
    var total: u64 := 0;
    var extraSelected := 0;
    var i := 0;
    while i < |sorted|
      invariant IsOnTrack(sorted, required, extraLimit, i, selected, total, extraSelected)
    {
      var note := sorted[i];
      if total < required {
        CoverOneMore(sorted, required, extraLimit, i, selected, total, extraSelected);
        if total + note.value > U64_MAX {
          return Err(InsufficientFunds(ValueOverflow));
        }
        selected := selected + [note];
        i := i + 1;
        total := total + note.value;
        continue;
      }
      if extraLimit == 0 || extraSelected >= extraLimit {
        break;
      }
      PassOneMore(sorted, required, extraLimit, i, selected, total, extraSelected);
      i := i + 1;
      if note.eligible {
        if total + note.value > U64_MAX {
          return Err(InsufficientFunds(ValueOverflow));
        }
        selected := selected + [note];
        extraSelected := extraSelected + 1;
        total := total + note.value;
      }
    }
    TrackEnds(sorted, required, extraLimit, i, selected, total, extraSelected);
    if total < required {
      return Err(InsufficientFunds(Short(required, total)));
    }
    return Ok(SelectionResult(selected, total, total - required));
  }

  /** How one note moves from what is still to come to what is selected. */
  lemma ExtrasStep(sorted: seq<Note>, i: nat, limit: nat, selected: seq<Note>)
    requires i < |sorted| && limit > 0
    ensures !sorted[i].eligible ==> Extras(sorted[i..], limit) == Extras(sorted[i + 1..], limit)
    ensures sorted[i].eligible ==>
              && selected + Extras(sorted[i..], limit) == selected + [sorted[i]] + Extras(sorted[i + 1..], limit - 1)
              && Sum(Extras(sorted[i..], limit)) == sorted[i].value + Sum(Extras(sorted[i + 1..], limit - 1))
  {
    assert sorted[i..][1..] == sorted[i + 1..];
    if sorted[i].eligible {
      SumConcat([sorted[i]], Extras(sorted[i + 1..], limit - 1));
    }
  }
}
