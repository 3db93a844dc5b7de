/** The truth-shuffle control (tools/run_step18_v5_evaluation.py, `_shuffle_er_truth`): the test
    records of all entities are rotated by one, in place, through a loop that only ever writes
    the first test slot of an entity. */
module TruthShuffle {

  type Ref = string

  /** The test records of one entity, in order. */
  function Tests(refs: seq<Ref>, test: set<Ref>): seq<Ref> {
    if refs == [] then []
    else if refs[0] in test then [refs[0]] + Tests(refs[1..], test)
    else Tests(refs[1..], test)
  }

  /** The other records of one entity, in order. */
  function Others(refs: seq<Ref>, test: set<Ref>): seq<Ref> {
    if refs == [] then []
    else if refs[0] in test then Others(refs[1..], test)
    else [refs[0]] + Others(refs[1..], test)
  }

  /** All test slots, as (entity index, record), entity after entity. */
  function Slots(entities: seq<seq<Ref>>, test: set<Ref>, index: nat): seq<(nat, Ref)>
    requires index <= |entities|
    decreases |entities| - index
  {
    if index == |entities| then []
    else
      var own := Tests(entities[index], test);
      seq(|own|, k requires 0 <= k < |own| => (index, own[k])) + Slots(entities, test, index + 1)
  }

  function Records(slots: seq<(nat, Ref)>): seq<Ref> {
    seq(|slots|, k requires 0 <= k < |slots| => slots[k].1)
  }

  function RotateByOne(s: seq<Ref>): seq<Ref> { if s == [] then [] else s[1..] + s[..1] }

  /** The position of the first test record. */
  function FirstTest(refs: seq<Ref>, test: set<Ref>): (k: nat)
    requires Tests(refs, test) != []
    ensures k < |refs| && refs[k] in test && forall i | 0 <= i < k :: refs[i] !in test
  {
    if refs[0] in test then 0 else 1 + FirstTest(refs[1..], test)
  }

  // ---------------------------------------------------------------- the reference rotation

  /** The records of one entity with its test slots filled, in order, from `fill`. */
  function Refill(refs: seq<Ref>, test: set<Ref>, fill: seq<Ref>): (r: seq<Ref>)
    requires |fill| == |Tests(refs, test)|
    ensures |r| == |refs|
  {
    if refs == [] then []
    else if refs[0] in test then [fill[0]] + Refill(refs[1..], test, fill[1..])
    else [refs[0]] + Refill(refs[1..], test, fill)
  }

  /** The number of test slots before entity `i`. */
  function Offset(entities: seq<seq<Ref>>, test: set<Ref>, i: nat): nat
    requires i <= |entities|
  {
    if i == 0 then 0 else Offset(entities, test, i - 1) + |Tests(entities[i - 1], test)|
  }

  lemma {:induction false} OffsetMonotone(entities: seq<seq<Ref>>, test: set<Ref>, i: nat, j: nat)
    requires i <= j <= |entities|
    ensures Offset(entities, test, i) <= Offset(entities, test, j)
  {
    if i < j { OffsetMonotone(entities, test, i, j - 1); }
  }

  lemma {:induction false} SlotCount(entities: seq<seq<Ref>>, test: set<Ref>, start: nat)
    requires start <= |entities|
    ensures |Slots(entities, test, start)| == Offset(entities, test, |entities|) - Offset(entities, test, start)
    decreases |entities| - start
  {
    if start < |entities| { SlotCount(entities, test, start + 1); }
  }

  /** Every slot lies in the stretch of the entity it names and holds that entity's next test record. */
  lemma {:induction false} SlotOwner(entities: seq<seq<Ref>>, test: set<Ref>, start: nat, k: nat)
    requires start <= |entities| && k < |Slots(entities, test, start)|
    ensures var i, at := Slots(entities, test, start)[k].0, Offset(entities, test, start) + k;
            && start <= i < |entities|
            && Offset(entities, test, i) <= at < Offset(entities, test, i + 1)
            && Slots(entities, test, start)[k].1 == Tests(entities[i], test)[at - Offset(entities, test, i)]
    decreases |entities| - start
  {
    var own := |Tests(entities[start], test)|;
    if k >= own { SlotOwner(entities, test, start + 1, k - own); }
  }

  lemma {:induction false} TestsAreTest(refs: seq<Ref>, test: set<Ref>)
    ensures forall x | x in Tests(refs, test) :: x in test
  {
    if refs != [] { TestsAreTest(refs[1..], test); }
  }

  lemma {:induction false} FirstReplaced(refs: seq<Ref>, test: set<Ref>, x: Ref)
    requires Tests(refs, test) != [] && x in test
    ensures Tests(refs[FirstTest(refs, test) := x], test) == [x] + Tests(refs, test)[1..]
    ensures FirstTest(refs[FirstTest(refs, test) := x], test) == FirstTest(refs, test)
    ensures Others(refs[FirstTest(refs, test) := x], test) == Others(refs, test)
  {
    if refs[0] in test {
      assert refs[0 := x][1..] == refs[1..];
    } else {
      FirstReplaced(refs[1..], test, x);
      var k := FirstTest(refs[1..], test);
      assert refs[1 + k := x][1..] == refs[1..][k := x];
    }
  }

  // ---------------------------------------------------------------- the loop

  /** Entity `i` after the first `k` slots have been handled. */
  ghost function After(entities: seq<seq<Ref>>, test: set<Ref>, rotated: seq<Ref>, i: nat, k: nat): seq<Ref>
    requires i < |entities| && |rotated| == Offset(entities, test, |entities|) && k <= |rotated|
  {
    var off, refs := Offset(entities, test, i), entities[i];
    OffsetMonotone(entities, test, i + 1, |entities|);
    if k <= off || Tests(refs, test) == [] then refs
    else
      var last := if k < off + |Tests(refs, test)| then k - 1 else off + |Tests(refs, test)| - 1;
      refs[FirstTest(refs, test) := rotated[last]]
  }

  lemma AfterStep(entities: seq<seq<Ref>>, test: set<Ref>, rotated: seq<Ref>, i: nat, k: nat)
    requires i < |entities| && |rotated| == Offset(entities, test, |entities|) && k < |rotated|
    requires forall n | 0 <= n < |rotated| :: rotated[n] in test
    ensures if Offset(entities, test, i) <= k < Offset(entities, test, i + 1)
            then var now := After(entities, test, rotated, i, k);
                 && Tests(now, test) != []
                 && After(entities, test, rotated, i, k + 1) == now[FirstTest(now, test) := rotated[k]]
            else After(entities, test, rotated, i, k + 1) == After(entities, test, rotated, i, k)
  {
    var off, refs := Offset(entities, test, i), entities[i];
    OffsetMonotone(entities, test, i + 1, |entities|);
    if off <= k < Offset(entities, test, i + 1) && k > off { FirstReplaced(refs, test, rotated[k - 1]); }
  }

  /** The rotation that the control is meant to apply. */
  function Rotated(entities: seq<seq<Ref>>, test: set<Ref>): seq<Ref> {
    RotateByOne(Records(Slots(entities, test, 0)))
  }

  /** Every slot takes the record of the next slot, the last one that of the first. */
  lemma RotatedTakesNext(entities: seq<seq<Ref>>, test: set<Ref>, k: nat)
    requires k < |Rotated(entities, test)|
    ensures var r := Records(Slots(entities, test, 0));
            |Rotated(entities, test)| == |r| && Rotated(entities, test)[k] == r[if k + 1 < |r| then k + 1 else 0]
  {}

  lemma RotatedFacts(entities: seq<seq<Ref>>, test: set<Ref>)
    ensures |Rotated(entities, test)| == Offset(entities, test, |entities|) == |Slots(entities, test, 0)|
    ensures forall n | 0 <= n < |Rotated(entities, test)| :: Rotated(entities, test)[n] in test
  {
    var slots := Slots(entities, test, 0);
    SlotCount(entities, test, 0);
    forall n | 0 <= n < |slots| ensures slots[n].1 in test {
      SlotOwner(entities, test, 0, n);
      TestsAreTest(entities[slots[n].0], test);
    }
  }

  ghost predicate Progress(entities: seq<seq<Ref>>, test: set<Ref>, rotated: seq<Ref>, shuffled: seq<seq<Ref>>,
                           k: nat) {
    && |rotated| == Offset(entities, test, |entities|) && k <= |rotated| && |shuffled| == |entities|
    && forall i | 0 <= i < |entities| :: EntityAt(entities, test, rotated, shuffled, i, k)
  }

  ghost predicate EntityAt(entities: seq<seq<Ref>>, test: set<Ref>, rotated: seq<Ref>, shuffled: seq<seq<Ref>>,
                           i: nat, k: nat)
    requires i < |entities| == |shuffled| && |rotated| == Offset(entities, test, |entities|) && k <= |rotated|
  {
    shuffled[i] == After(entities, test, rotated, i, k)
  }

  /** The body of the loop: the first test slot of the entity takes the record. */
  function Rewritten(shuffled: seq<seq<Ref>>, test: set<Ref>, index: nat, record: Ref): seq<seq<Ref>>
    requires index < |shuffled| && Tests(shuffled[index], test) != []
  {
    shuffled[index := shuffled[index][FirstTest(shuffled[index], test) := record]]
  }

  lemma LoopStart(entities: seq<seq<Ref>>, test: set<Ref>)
    ensures Progress(entities, test, Rotated(entities, test), entities, 0)
  {
    RotatedFacts(entities, test);
  }

  lemma LoopStep(entities: seq<seq<Ref>>, test: set<Ref>, rotated: seq<Ref>, shuffled: seq<seq<Ref>>,
                 index: nat, k: nat)
    requires Progress(entities, test, rotated, shuffled, k) && k < |rotated| && index < |entities|
    requires forall n | 0 <= n < |rotated| :: rotated[n] in test
    requires Offset(entities, test, index) <= k < Offset(entities, test, index + 1)
    ensures Tests(shuffled[index], test) != []
    ensures Progress(entities, test, rotated, Rewritten(shuffled, test, index, rotated[k]), k + 1)
  {
    assert EntityAt(entities, test, rotated, shuffled, index, k);
    AfterStep(entities, test, rotated, index, k);
    var next, n := Rewritten(shuffled, test, index, rotated[k]), k + 1;
    forall i | 0 <= i < |entities| ensures EntityAt(entities, test, rotated, next, i, n) {
      assert EntityAt(entities, test, rotated, shuffled, i, k);
      AfterStep(entities, test, rotated, i, k);
      if i < index { OffsetMonotone(entities, test, i + 1, index); }
      if i > index { OffsetMonotone(entities, test, index + 1, i); }
    }
  }

  /** Each slot names the entity in whose stretch it lies. */
  ghost predicate Owned(entities: seq<seq<Ref>>, test: set<Ref>, slots: seq<(nat, Ref)>) {
    forall k | 0 <= k < |slots| :: SlotInPlace(entities, test, slots[k].0, k)
  }

  ghost predicate SlotInPlace(entities: seq<seq<Ref>>, test: set<Ref>, i: nat, k: nat) {
    i < |entities| && Offset(entities, test, i) <= k < Offset(entities, test, i + 1)
  }

  lemma SlotsOwned(entities: seq<seq<Ref>>, test: set<Ref>)
    ensures Owned(entities, test, Slots(entities, test, 0))
  {
    forall k | 0 <= k < |Slots(entities, test, 0)|
      ensures SlotInPlace(entities, test, Slots(entities, test, 0)[k].0, k)
    {
      SlotOwner(entities, test, 0, k);
    }
  }

  /** The loop over the slots: each rotated record goes to the first test slot of its entity. */
  method RewriteSlots(entities: seq<seq<Ref>>, test: set<Ref>, slots: seq<(nat, Ref)>, rotated: seq<Ref>)
    returns (shuffled: seq<seq<Ref>>)
    requires Owned(entities, test, slots) && |slots| == |rotated|
    requires Progress(entities, test, rotated, entities, 0) && forall n | 0 <= n < |rotated| :: rotated[n] in test
    ensures Progress(entities, test, rotated, shuffled, |rotated|)
  {
    shuffled := entities;
    for k := 0 to |slots|
      invariant Progress(entities, test, rotated, shuffled, k)
    {
      var index := slots[k].0;
      assert SlotInPlace(entities, test, index, k);
      LoopStep(entities, test, rotated, shuffled, index, k);
      var refs := shuffled[index];
      var at := FirstTest(refs, test);
      var next := shuffled[index := refs[at := rotated[k]]];
      assert next == Rewritten(shuffled, test, index, rotated[k]);
      shuffled := next;
    }
  }

  method ShuffleErTruth(entities: seq<seq<Ref>>, test: set<Ref>) returns (shuffled: seq<seq<Ref>>)
    ensures shuffled == Shuffled(entities, test)
  {
    RotatedFacts(entities, test);
    SlotsOwned(entities, test);
    LoopStart(entities, test);
    shuffled := RewriteSlots(entities, test, Slots(entities, test, 0), Rotated(entities, test));
    LoopEnd(entities, test, shuffled);
  }

  lemma LoopEnd(entities: seq<seq<Ref>>, test: set<Ref>, shuffled: seq<seq<Ref>>)
    requires Progress(entities, test, Rotated(entities, test), shuffled, |Rotated(entities, test)|)
    ensures shuffled == Shuffled(entities, test)
  {
    var rotated := Rotated(entities, test);
    forall i | 0 <= i < |entities| ensures shuffled[i] == Outcome(entities, test, i) {
      assert EntityAt(entities, test, rotated, shuffled, i, |rotated|);
    }
  }

  // ---------------------------------------------------------------- what the loop achieves

  /** The stretch of the rotation that belongs to entity `i`. */
  ghost function Share(entities: seq<seq<Ref>>, test: set<Ref>, i: nat): (fill: seq<Ref>)
    requires i < |entities|
    ensures |fill| == |Tests(entities[i], test)|
  {
    RotatedFacts(entities, test);
    OffsetMonotone(entities, test, i + 1, |entities|);
    Rotated(entities, test)[Offset(entities, test, i)..Offset(entities, test, i + 1)]
  }

  /** Inside an entity the rotation shifts its own test records by one and takes one from next door. */
  lemma ShareShifts(entities: seq<seq<Ref>>, test: set<Ref>, i: nat)
    requires i < |entities| && Tests(entities[i], test) != []
    ensures var own, fill := Tests(entities[i], test), Share(entities, test, i);
            fill == own[1..] + [fill[|own| - 1]]
  {
    var own, fill, off := Tests(entities[i], test), Share(entities, test, i), Offset(entities, test, i);
    var slots := Slots(entities, test, 0);
    RotatedFacts(entities, test);
    OffsetMonotone(entities, test, i + 1, |entities|);
    forall j | 0 <= j < |own| - 1 ensures fill[j] == own[j + 1] {
      assert fill[j] == Records(slots)[1..][off + j];
      SlotOwner(entities, test, 0, off + j + 1);
      var owner := slots[off + j + 1].0;
      if owner < i { OffsetMonotone(entities, test, owner + 1, i); }
      if owner > i { OffsetMonotone(entities, test, i + 1, owner); }
    }
  }

  /** Refilling replaces the test records by the fill and keeps the others. */
  lemma {:induction false} RefillParts(refs: seq<Ref>, test: set<Ref>, fill: seq<Ref>)
    requires |fill| == |Tests(refs, test)| && forall x | x in fill :: x in test
    ensures Tests(Refill(refs, test, fill), test) == fill
    ensures Others(Refill(refs, test, fill), test) == Others(refs, test)
  {
    if refs != [] {
      if refs[0] in test {
        RefillParts(refs[1..], test, fill[1..]);
      } else {
        RefillParts(refs[1..], test, fill);
      }
    }
  }

  /** An entity's records are its test records and the others. */
  lemma {:induction false} TwoParts(refs: seq<Ref>, test: set<Ref>)
    ensures multiset(refs) == multiset(Tests(refs, test)) + multiset(Others(refs, test))
  {
    if refs != [] {
      TwoParts(refs[1..], test);
      assert refs == [refs[0]] + refs[1..];
    }
  }

  /** What one entity looks like when the loop has ended. */
  ghost function Outcome(entities: seq<seq<Ref>>, test: set<Ref>, i: nat): seq<Ref>
    requires i < |entities|
  {
    RotatedFacts(entities, test);
    After(entities, test, Rotated(entities, test), i, |Rotated(entities, test)|)
  }

  lemma OutcomeIs(entities: seq<seq<Ref>>, test: set<Ref>, i: nat)
    requires i < |entities|
    ensures var refs := entities[i];
            var own, fill := Tests(refs, test), Share(entities, test, i);
            Outcome(entities, test, i) == if own == [] then refs else refs[FirstTest(refs, test) := fill[|own| - 1]]
  {
    RotatedFacts(entities, test);
    OffsetMonotone(entities, test, i + 1, |entities|);
  }

  lemma SameRecords(refs: seq<Ref>, test: set<Ref>, fill: seq<Ref>, x: Ref)
    requires Tests(refs, test) != [] && x in test && fill == Tests(refs, test)[1..] + [x]
    ensures multiset(Tests(refs[FirstTest(refs, test) := x], test)) == multiset(fill)
    ensures Others(refs[FirstTest(refs, test) := x], test) == Others(refs, test)
  {
    FirstReplaced(refs, test, x);
  }

  lemma OutcomeParts(entities: seq<seq<Ref>>, test: set<Ref>, i: nat)
    requires i < |entities|
    ensures var refs, got := entities[i], Outcome(entities, test, i);
            && multiset(Tests(got, test)) == multiset(Share(entities, test, i))
            && Others(got, test) == Others(refs, test)
            && |got| == |refs| && forall n | 0 <= n < |refs| :: refs[n] !in test ==> got[n] == refs[n]
  {
    var refs, fill := entities[i], Share(entities, test, i);
    var own := Tests(refs, test);
    OutcomeIs(entities, test, i);
    if own != [] {
      ShareShifts(entities, test, i);
      ShareIsTest(entities, test, i);
      SameRecords(refs, test, fill, fill[|own| - 1]);
    }
  }

  /** Although each entity is written in one slot only, it ends with exactly the records that the
      full rotation of all test slots would give it; its size and its other records are untouched. */
  lemma ShuffleIsRotation(entities: seq<seq<Ref>>, test: set<Ref>, i: nat)
    requires i < |entities|
    ensures var refs, got := entities[i], Outcome(entities, test, i);
            && multiset(got) == multiset(Refill(refs, test, Share(entities, test, i)))
            && |got| == |refs| && forall n | 0 <= n < |refs| :: refs[n] !in test ==> got[n] == refs[n]
  {
    var refs, fill := entities[i], Share(entities, test, i);
    OutcomeParts(entities, test, i);
    ShareIsTest(entities, test, i);
    RefillParts(refs, test, fill);
    TwoParts(Outcome(entities, test, i), test);
    TwoParts(Refill(refs, test, fill), test);
  }

  lemma ShareIsTest(entities: seq<seq<Ref>>, test: set<Ref>, i: nat)
    requires i < |entities|
    ensures forall x | x in Share(entities, test, i) :: x in test
  {
    RotatedFacts(entities, test);
    OffsetMonotone(entities, test, i + 1, |entities|);
  }

  /** The shuffled entities. */
  ghost function Shuffled(entities: seq<seq<Ref>>, test: set<Ref>): seq<seq<Ref>> {
    seq(|entities|, i requires 0 <= i < |entities| => Outcome(entities, test, i))
  }

  lemma RecordsSplit(entities: seq<seq<Ref>>, test: set<Ref>, start: nat)
    requires start < |entities|
    ensures Records(Slots(entities, test, start))
         == Tests(entities[start], test) + Records(Slots(entities, test, start + 1))
  {}

  ghost function Stretch(entities: seq<seq<Ref>>, test: set<Ref>, all: seq<Ref>, i: nat): seq<Ref>
    requires i < |entities| && |all| == Offset(entities, test, |entities|)
  {
    OffsetMonotone(entities, test, i + 1, |entities|);
    all[Offset(entities, test, i)..Offset(entities, test, i + 1)]
  }

  /** If each entity holds its stretch of `all`, together they hold all of it. */
  lemma {:induction false} StretchesAddUp(entities: seq<seq<Ref>>, test: set<Ref>, all: seq<Ref>,
                                          after: seq<seq<Ref>>, start: nat)
    requires start <= |entities| == |after| && |all| == Offset(entities, test, |entities|)
    requires forall i | 0 <= i < |entities| ::
               multiset(Tests(after[i], test)) == multiset(Stretch(entities, test, all, i))
    ensures Offset(entities, test, start) <= |all|
    ensures multiset(Records(Slots(after, test, start))) == multiset(all[Offset(entities, test, start)..])
    decreases |entities| - start
  {
    OffsetMonotone(entities, test, start, |entities|);
    if start < |entities| {
      StretchesAddUp(entities, test, all, after, start + 1);
      RecordsSplit(after, test, start);
      assert multiset(Tests(after[start], test)) == multiset(Stretch(entities, test, all, start));
      SplitRest(all, Offset(entities, test, start), Offset(entities, test, start + 1));
    }
  }

  lemma SplitRest(s: seq<Ref>, i: nat, j: nat)
    requires i <= j <= |s|
    ensures multiset(s[i..]) == multiset(s[i..j]) + multiset(s[j..])
  {
    assert s[i..] == s[i..j] + s[j..];
  }

  /** Over all entities together the shuffle only permutes the test records. */
  lemma ShuffleConservesTests(entities: seq<seq<Ref>>, test: set<Ref>)
    ensures multiset(Records(Slots(Shuffled(entities, test), test, 0))) == multiset(Records(Slots(entities, test, 0)))
  {
    RotatedFacts(entities, test);
    forall i | 0 <= i < |entities|
      ensures multiset(Tests(Shuffled(entities, test)[i], test))
           == multiset(Stretch(entities, test, Rotated(entities, test), i))
    {
      OutcomeParts(entities, test, i);
    }
    StretchesAddUp(entities, test, Rotated(entities, test), Shuffled(entities, test), 0);
    var r := Records(Slots(entities, test, 0));
    assert Rotated(entities, test)[0..] == RotateByOne(r);
    if r != [] { assert r == r[..1] + r[1..]; }
  }
}
