/** The split-leakage audit (tools/run_step18_v4_evaluation.py, `_er_leakage_audit`): may records
    that belong together end up on different sides of a train/test split? */
module LeakageAudit {

  type Ref = string

  /** `groups` are the entity-resolution groups, `roles` the split role of every group, `truth` the
      records of every truth entity. */
  datatype Audit = Audit(groups: map<string, set<Ref>>, roles: map<string, string>, truth: map<string, set<Ref>>)

  ghost predicate Formed(a: Audit) { a.groups.Keys <= a.roles.Keys }

  predicate Grouped(a: Audit, x: Ref) { exists g | g in a.groups :: x in a.groups[g] }

  function RecordRoles(a: Audit, x: Ref): set<string>
    requires Formed(a)
  {
    set g | g in a.groups && x in a.groups[g] :: a.roles[g]
  }

  function EntityRoles(a: Audit, e: string): set<string>
    requires Formed(a) && e in a.truth
  {
    set g | g in a.groups && a.groups[g] * a.truth[e] != {} :: a.roles[g]
  }

  function GroupRoles(a: Audit, g: string): set<string>
    requires Formed(a) && g in a.groups
  {
    set x, role | x in a.groups[g] && role in RecordRoles(a, x) :: role
  }

  /** The flag reported as truth_cluster_leakage: true when no entity touches two roles. */
  predicate NoEntityLeaks(a: Audit)
    requires Formed(a)
  {
    !exists e | e in a.truth :: Leaks(a, e)
  }

  predicate Leaks(a: Audit, e: string)
    requires Formed(a) && e in a.truth
  {
    |EntityRoles(a, e)| > 1
  }

  predicate CasePairsConsistent(a: Audit)
    requires Formed(a)
  {
    !exists g | g in a.groups :: Mixed(a, g)
  }

  predicate Mixed(a: Audit, g: string)
    requires Formed(a) && g in a.groups
  {
    |GroupRoles(a, g)| != 1
  }

  // ---------------------------------------------------------------- chains

  /** Two records share a group or a truth entity. */
  ghost predicate Tied(a: Audit, x: Ref, y: Ref) {
    || (exists g | g in a.groups :: x in a.groups[g] && y in a.groups[g])
    || (exists e | e in a.truth :: x in a.truth[e] && y in a.truth[e])
  }

  ghost predicate Hop(a: Audit, chain: seq<Ref>, i: nat)
    requires i < |chain| - 1
  {
    Tied(a, chain[i], chain[i + 1])
  }

  /** A chain of ties through records that all belong to some group. */
  ghost predicate Chain(a: Audit, chain: seq<Ref>) {
    && chain != [] && (forall i | 0 <= i < |chain| :: Grouped(a, chain[i]))
    && (forall i | 0 <= i < |chain| - 1 :: Hop(a, chain, i))
  }

  /** Both ends of the chain have one role, and it is the same. */
  ghost predicate SameSide(a: Audit, x: Ref, y: Ref)
    requires Formed(a)
  {
    exists role :: RecordRoles(a, x) == {role} && RecordRoles(a, y) == {role}
  }

  // ---------------------------------------------------------------- soundness

  lemma SingleMember<T>(s: set<T>, x: T, y: T)
    requires |s| == 1 && x in s && y in s
    ensures x == y && s == {x}
  {
    assert |s - {x}| == 0;
    assert s == {x} + (s - {x});
  }

  lemma AtMostOne<T>(s: set<T>, x: T, y: T)
    requires |s| <= 1 && x in s && y in s
    ensures x == y
  {
    assert {x, y} <= s;
    assert s == {x, y} + (s - {x, y});
  }

  lemma OneRole(a: Audit, g: string, x: Ref)
    requires Formed(a) && CasePairsConsistent(a) && g in a.groups && x in a.groups[g]
    ensures RecordRoles(a, x) == {a.roles[g]}
  {
    assert |GroupRoles(a, g)| == 1;
    assert a.roles[g] in RecordRoles(a, x);
    forall role | role in RecordRoles(a, x) ensures role == a.roles[g] {
      assert role in GroupRoles(a, g) && a.roles[g] in GroupRoles(a, g);
      SingleMember(GroupRoles(a, g), role, a.roles[g]);
    }
  }

  lemma TiedSameSide(a: Audit, x: Ref, y: Ref)
    requires Formed(a) && NoEntityLeaks(a) && CasePairsConsistent(a)
    requires Grouped(a, x) && Grouped(a, y) && Tied(a, x, y)
    ensures SameSide(a, x, y)
  {
    if g :| g in a.groups && x in a.groups[g] && y in a.groups[g] {
      OneRole(a, g, x);
      OneRole(a, g, y);
    } else {
      var e :| e in a.truth && x in a.truth[e] && y in a.truth[e];
      EntitySameSide(a, e, x, y);
    }
  }

  lemma EntitySameSide(a: Audit, e: string, x: Ref, y: Ref)
    requires Formed(a) && NoEntityLeaks(a) && CasePairsConsistent(a)
    requires Grouped(a, x) && Grouped(a, y) && e in a.truth && x in a.truth[e] && y in a.truth[e]
    ensures SameSide(a, x, y)
  {
    var g :| g in a.groups && x in a.groups[g];
    var h :| h in a.groups && y in a.groups[h];
    assert x in a.groups[g] * a.truth[e] && y in a.groups[h] * a.truth[e];
    assert a.roles[g] in EntityRoles(a, e) && a.roles[h] in EntityRoles(a, e);
    AtMostOne(EntityRoles(a, e), a.roles[g], a.roles[h]);
    OneRole(a, g, x);
    OneRole(a, h, y);
  }

  lemma ChainStep(a: Audit, chain: seq<Ref>)
    requires Chain(a, chain) && |chain| > 1
    ensures var n := |chain| - 1;
            && Chain(a, chain[..n]) && Grouped(a, chain[n - 1]) && Grouped(a, chain[n])
            && Tied(a, chain[n - 1], chain[n])
  {
    var n := |chain| - 1;
    forall i | 0 <= i < n - 1 ensures Hop(a, chain[..n], i) { assert Hop(a, chain, i); }
    assert Hop(a, chain, n - 1);
  }

  lemma SameSideTransitive(a: Audit, x: Ref, y: Ref, z: Ref)
    requires Formed(a) && SameSide(a, x, y) && SameSide(a, y, z)
    ensures SameSide(a, x, z)
  {
    var p :| RecordRoles(a, x) == {p} && RecordRoles(a, y) == {p};
    var q :| RecordRoles(a, y) == {q} && RecordRoles(a, z) == {q};
    assert p in {q};
  }

  lemma GroupedSelf(a: Audit, x: Ref)
    requires Formed(a) && CasePairsConsistent(a) && Grouped(a, x)
    ensures SameSide(a, x, x)
  {
    var g :| g in a.groups && x in a.groups[g];
    OneRole(a, g, x);
  }

  /** If both flags hold, every chain of grouped records stays on one side of the split. */
  lemma {:induction false} ChainSameSide(a: Audit, chain: seq<Ref>)
    requires Formed(a) && NoEntityLeaks(a) && CasePairsConsistent(a) && Chain(a, chain)
    ensures SameSide(a, chain[0], chain[|chain| - 1])
  {
    if |chain| == 1 {
      GroupedSelf(a, chain[0]);
    } else {
      var n := |chain| - 1;
      ChainStep(a, chain);
      ChainSameSide(a, chain[..n]);
      TiedSameSide(a, chain[n - 1], chain[n]);
      SameSideTransitive(a, chain[0], chain[n - 1], chain[n]);
    }
  }

  // ---------------------------------------------------------------- completeness

  ghost predicate ChainsHold(a: Audit)
    requires Formed(a)
  {
    forall chain | Chain(a, chain) :: SameSide(a, chain[0], chain[|chain| - 1])
  }

  lemma TwoGroupedSameSide(a: Audit, x: Ref, y: Ref)
    requires Formed(a) && ChainsHold(a) && Grouped(a, x) && Grouped(a, y) && Tied(a, x, y)
    ensures SameSide(a, x, y)
  {
    var chain := [x, y];
    assert Hop(a, chain, 0);
    assert Chain(a, chain);
  }

  lemma ChainsMakePairsConsistent(a: Audit)
    requires Formed(a) && ChainsHold(a) && forall g | g in a.groups :: a.groups[g] != {}
    ensures CasePairsConsistent(a)
  {
    forall g | g in a.groups ensures |GroupRoles(a, g)| == 1 {
      var x :| x in a.groups[g];
      TwoGroupedSameSide(a, x, x);
      forall role ensures role in GroupRoles(a, g) <==> role == a.roles[g] {
        assert a.roles[g] in RecordRoles(a, x);
        if role in GroupRoles(a, g) {
          var y :| y in a.groups[g] && role in RecordRoles(a, y);
          TwoGroupedSameSide(a, x, y);
        }
      }
      assert GroupRoles(a, g) == {a.roles[g]};
    }
  }

  lemma SmallSet<T>(s: set<T>)
    requires forall x, y | x in s && y in s :: x == y
    ensures |s| <= 1
  {
    if s != {} {
      var x :| x in s;
      assert s == {x};
    }
  }

  lemma ChainsStopEntityLeaks(a: Audit)
    requires Formed(a) && ChainsHold(a)
    ensures NoEntityLeaks(a)
  {
    forall e | e in a.truth ensures |EntityRoles(a, e)| <= 1 {
      forall p, q | p in EntityRoles(a, e) && q in EntityRoles(a, e) ensures p == q {
        var g :| g in a.groups && a.groups[g] * a.truth[e] != {} && a.roles[g] == p;
        var h :| h in a.groups && a.groups[h] * a.truth[e] != {} && a.roles[h] == q;
        var x :| x in a.groups[g] * a.truth[e];
        var y :| y in a.groups[h] * a.truth[e];
        assert p in RecordRoles(a, x) && q in RecordRoles(a, y);
        TwoGroupedSameSide(a, x, y);
      }
      SmallSet(EntityRoles(a, e));
    }
  }

  /** The two flags hold exactly when no group is empty and every chain of grouped records keeps to
      one role: a failed flag always has an empty group or a concrete leak behind it. */
  lemma AuditIsExact(a: Audit)
    requires Formed(a)
    ensures NoEntityLeaks(a) && CasePairsConsistent(a)
       <==> ChainsHold(a) && forall g | g in a.groups :: a.groups[g] != {}
  {
    if NoEntityLeaks(a) && CasePairsConsistent(a) {
      forall chain | Chain(a, chain) ensures SameSide(a, chain[0], chain[|chain| - 1]) { ChainSameSide(a, chain); }
      forall g | g in a.groups ensures a.groups[g] != {} {
        assert |GroupRoles(a, g)| == 1;
      }
    }
    if ChainsHold(a) && forall g | g in a.groups :: a.groups[g] != {} {
      ChainsMakePairsConsistent(a);
      ChainsStopEntityLeaks(a);
    }
  }

  // ---------------------------------------------------------------- chains through ungrouped records

  /** Any chain of ties: the records between its ends may belong to no group. */
  ghost predicate FreeChain(a: Audit, chain: seq<Ref>) {
    chain != [] && forall i | 0 <= i < |chain| - 1 :: Hop(a, chain, i)
  }

  ghost predicate Joins(chain: seq<Ref>, x: Ref, y: Ref) { chain != [] && chain[0] == x && chain[|chain| - 1] == y }

  /** Some chain of grouped records leads from x to y. */
  ghost predicate Connected(a: Audit, x: Ref, y: Ref) { exists chain :: Chain(a, chain) && Joins(chain, x, y) }

  ghost predicate FreelyConnected(a: Audit, x: Ref, y: Ref) {
    exists chain :: FreeChain(a, chain) && Joins(chain, x, y)
  }

  /** A record of no group lies in at most one truth entity. */
  ghost predicate SettledOutsiders(a: Audit) { forall x | !Grouped(a, x) :: OneEntity(a, x) }

  ghost predicate OneEntity(a: Audit, x: Ref) {
    forall e, f | e in a.truth && f in a.truth && x in a.truth[e] && x in a.truth[f] :: e == f
  }

  lemma ConnectedSelf(a: Audit, x: Ref)
    requires Grouped(a, x)
    ensures Connected(a, x, x)
  {
    assert Chain(a, [x]) && Joins([x], x, x);
  }

  lemma ConnectedStep(a: Audit, x: Ref, y: Ref, z: Ref)
    requires Connected(a, x, y) && Grouped(a, z) && Tied(a, y, z)
    ensures Connected(a, x, z)
  {
    var chain :| Chain(a, chain) && Joins(chain, x, y);
    var longer := chain + [z];
    forall i | 0 <= i < |longer| - 1 ensures Hop(a, longer, i) {
      if i < |chain| - 1 { assert Hop(a, chain, i); }
    }
    assert Chain(a, longer) && Joins(longer, x, z);
  }

  /** Where a chain from x has got to: at a grouped record connected with x, or at a record of no
      group that shares an entity with one. */
  ghost predicate Anchored(a: Audit, x: Ref, z: Ref) {
    if Grouped(a, z) then Connected(a, x, z) else exists w, e :: AnchoredBy(a, x, z, w, e)
  }

  ghost predicate AnchoredBy(a: Audit, x: Ref, z: Ref, w: Ref, e: string) {
    e in a.truth && z in a.truth[e] && w in a.truth[e] && Grouped(a, w) && Connected(a, x, w)
  }

  /** A tie that touches a record of no group is a shared entity. */
  lemma OutsideTie(a: Audit, y: Ref, z: Ref) returns (e: string)
    requires Tied(a, y, z) && (!Grouped(a, y) || !Grouped(a, z))
    ensures e in a.truth && y in a.truth[e] && z in a.truth[e]
  {
    e :| e in a.truth && y in a.truth[e] && z in a.truth[e];
  }

  lemma AnchoredStep(a: Audit, x: Ref, y: Ref, z: Ref)
    requires SettledOutsiders(a) && Anchored(a, x, y) && Tied(a, y, z)
    ensures Anchored(a, x, z)
  {
    if Grouped(a, y) && Grouped(a, z) {
      ConnectedStep(a, x, y, z);
    } else {
      var e := OutsideTie(a, y, z);
      var w := y;
      if !Grouped(a, y) {
        var v, f :| AnchoredBy(a, x, y, v, f);
        assert OneEntity(a, y);
        w := v;
      }
      if Grouped(a, z) { ConnectedStep(a, x, w, z); } else { assert AnchoredBy(a, x, z, w, e); }
    }
  }

  lemma {:induction false} ChainAnchored(a: Audit, chain: seq<Ref>)
    requires SettledOutsiders(a) && FreeChain(a, chain) && Grouped(a, chain[0])
    ensures Anchored(a, chain[0], chain[|chain| - 1])
  {
    var n := |chain| - 1;
    if n == 0 {
      ConnectedSelf(a, chain[0]);
    } else {
      forall i | 0 <= i < n - 1 ensures Hop(a, chain[..n], i) { assert Hop(a, chain, i); }
      ChainAnchored(a, chain[..n]);
      assert Hop(a, chain, n - 1);
      AnchoredStep(a, chain[0], chain[n - 1], chain[n]);
    }
  }

  /** If every record of no group lies in at most one entity, records of no group connect nothing new. */
  lemma SettledOutsidersAddNothing(a: Audit, x: Ref, y: Ref)
    requires SettledOutsiders(a) && Grouped(a, x) && Grouped(a, y) && FreelyConnected(a, x, y)
    ensures Connected(a, x, y)
  {
    var chain :| FreeChain(a, chain) && Joins(chain, x, y);
    ChainAnchored(a, chain);
  }

  /** With both flags and that condition, any finite chain between grouped records keeps to one role. */
  lemma FreeChainSameSide(a: Audit, chain: seq<Ref>)
    requires Formed(a) && NoEntityLeaks(a) && CasePairsConsistent(a) && SettledOutsiders(a)
    requires FreeChain(a, chain) && Grouped(a, chain[0]) && Grouped(a, chain[|chain| - 1])
    ensures SameSide(a, chain[0], chain[|chain| - 1])
  {
    var x, y := chain[0], chain[|chain| - 1];
    assert Joins(chain, x, y);
    SettledOutsidersAddNothing(a, x, y);
    var inner :| Chain(a, inner) && Joins(inner, x, y);
    ChainSameSide(a, inner);
  }

  // ---------------------------------------------------------------- exactly when the flags suffice

  /** The flags are enough for this split: if both hold, chained grouped records share a role. */
  ghost predicate FlagsSuffice(a: Audit)
    requires Formed(a)
  {
    NoEntityLeaks(a) && CasePairsConsistent(a) ==> forall x, y :: ChainedShareRole(a, x, y)
  }

  ghost predicate ChainedShareRole(a: Audit, x: Ref, y: Ref)
    requires Formed(a)
  {
    Grouped(a, x) && Grouped(a, y) && FreelyConnected(a, x, y) ==> SameSide(a, x, y)
  }

  ghost predicate SafeUnder(a: Audit, roles: map<string, string>)
    requires a.groups.Keys <= roles.Keys
  {
    FlagsSuffice(a.(roles := roles))
  }

  /** The flags are enough however the groups are split. */
  ghost predicate SafeForEverySplit(a: Audit) {
    forall roles: map<string, string> | a.groups.Keys <= roles.Keys :: SafeUnder(a, roles)
  }

  /** Records of no group connect no grouped records that grouped records alone do not. */
  ghost predicate OutsidersAddNothing(a: Audit) { forall x, y :: NothingNew(a, x, y) }

  ghost predicate NothingNew(a: Audit, x: Ref, y: Ref) {
    Grouped(a, x) && Grouped(a, y) && FreelyConnected(a, x, y) ==> Connected(a, x, y)
  }

  /** Chains are about groups and entities; the roles play no part. */
  lemma ChainsIgnoreRoles(a: Audit, b: Audit, chain: seq<Ref>)
    requires a.groups == b.groups && a.truth == b.truth
    ensures Chain(a, chain) <==> Chain(b, chain)
    ensures FreeChain(a, chain) <==> FreeChain(b, chain)
  {
    forall i | 0 <= i < |chain| - 1 ensures Hop(a, chain, i) <==> Hop(b, chain, i) {}
  }

  lemma ConnectionsIgnoreRoles(a: Audit, b: Audit, x: Ref, y: Ref)
    requires a.groups == b.groups && a.truth == b.truth
    ensures Grouped(a, x) <==> Grouped(b, x)
    ensures Connected(a, x, y) <==> Connected(b, x, y)
    ensures FreelyConnected(a, x, y) <==> FreelyConnected(b, x, y)
  {
    forall chain ensures (Chain(a, chain) <==> Chain(b, chain)) && (FreeChain(a, chain) <==> FreeChain(b, chain)) {
      ChainsIgnoreRoles(a, b, chain);
    }
  }

  lemma ConnectedSameSide(a: Audit, x: Ref, y: Ref)
    requires Formed(a) && NoEntityLeaks(a) && CasePairsConsistent(a) && Connected(a, x, y)
    ensures SameSide(a, x, y)
  {
    var chain :| Chain(a, chain) && Joins(chain, x, y);
    ChainSameSide(a, chain);
  }

  lemma NothingAddedSuffices(a: Audit)
    requires Formed(a) && OutsidersAddNothing(a)
    ensures FlagsSuffice(a)
  {
    if NoEntityLeaks(a) && CasePairsConsistent(a) {
      forall x, y ensures ChainedShareRole(a, x, y) {
        assert NothingNew(a, x, y);
        if Grouped(a, x) && Grouped(a, y) && FreelyConnected(a, x, y) { ConnectedSameSide(a, x, y); }
      }
    }
  }

  /** The split that puts everything connected with x on one side and the rest on the other. */
  ghost function SplitAround(a: Audit, x: Ref): Audit {
    a.(roles := map g | g in a.groups :: if Reaches(a, x, g) then "TRAIN" else "TEST")
  }

  ghost predicate Reaches(a: Audit, x: Ref, g: string)
    requires g in a.groups
  {
    exists z | z in a.groups[g] :: Connected(a, x, z)
  }

  /** Each record tells the side of all its groups. */
  lemma SideOfRecord(a: Audit, x: Ref, g: string, z: Ref)
    requires g in a.groups && z in a.groups[g]
    ensures Reaches(a, x, g) <==> Connected(a, x, z)
  {
    if Reaches(a, x, g) {
      var w :| w in a.groups[g] && Connected(a, x, w);
      assert Grouped(a, z) && Tied(a, w, z);
      ConnectedStep(a, x, w, z);
    }
  }

  lemma RolesAround(a: Audit, x: Ref, z: Ref)
    requires Grouped(a, z)
    ensures RecordRoles(SplitAround(a, x), z) == {if Connected(a, x, z) then "TRAIN" else "TEST"}
  {
    var b := SplitAround(a, x);
    forall g | g in a.groups && z in a.groups[g] ensures b.roles[g] == if Connected(a, x, z) then "TRAIN" else "TEST" {
      SideOfRecord(a, x, g, z);
    }
    var g :| g in a.groups && z in a.groups[g];
    assert b.roles[g] in RecordRoles(b, z);
  }

  lemma TiedTogether(a: Audit, x: Ref, y: Ref, z: Ref)
    requires Grouped(a, y) && Grouped(a, z) && Tied(a, y, z)
    ensures Connected(a, x, y) <==> Connected(a, x, z)
  {
    assert Tied(a, z, y);
    if Connected(a, x, y) { ConnectedStep(a, x, y, z); }
    if Connected(a, x, z) { ConnectedStep(a, x, z, y); }
  }

  lemma SplitAroundConsistent(a: Audit, x: Ref)
    requires forall g | g in a.groups :: a.groups[g] != {}
    ensures Formed(SplitAround(a, x)) && CasePairsConsistent(SplitAround(a, x))
  {
    var b := SplitAround(a, x);
    forall g | g in b.groups ensures |GroupRoles(b, g)| == 1 {
      var y :| y in b.groups[g];
      assert Grouped(a, y);
      var side := if Connected(a, x, y) then "TRAIN" else "TEST";
      RolesAround(a, x, y);
      assert side in GroupRoles(b, g);
      forall role | role in GroupRoles(b, g) ensures role == side {
        var z :| z in b.groups[g] && role in RecordRoles(b, z);
        assert Grouped(a, z) && Tied(a, y, z);
        RolesAround(a, x, z);
        TiedTogether(a, x, y, z);
      }
      assert GroupRoles(b, g) == {side};
    }
  }

  lemma SplitAroundHasNoLeak(a: Audit, x: Ref)
    ensures Formed(SplitAround(a, x)) && NoEntityLeaks(SplitAround(a, x))
  {
    var b := SplitAround(a, x);
    forall e | e in b.truth ensures |EntityRoles(b, e)| <= 1 {
      forall p, q | p in EntityRoles(b, e) && q in EntityRoles(b, e) ensures p == q {
        var g :| g in b.groups && b.groups[g] * b.truth[e] != {} && b.roles[g] == p;
        var h :| h in b.groups && b.groups[h] * b.truth[e] != {} && b.roles[h] == q;
        var y :| y in b.groups[g] * b.truth[e];
        var z :| z in b.groups[h] * b.truth[e];
        assert Grouped(a, y) && Grouped(a, z) && Tied(a, y, z);
        TiedTogether(a, x, y, z);
        SideOfRecord(a, x, g, y);
        SideOfRecord(a, x, h, z);
      }
      SmallSet(EntityRoles(b, e));
    }
  }

  lemma AroundTellsApart(a: Audit, x: Ref, y: Ref)
    requires Grouped(a, x) && Grouped(a, y) && Formed(SplitAround(a, x)) && SameSide(SplitAround(a, x), x, y)
    ensures Connected(a, x, y)
  {
    ConnectedSelf(a, x);
    RolesAround(a, x, x);
    RolesAround(a, x, y);
    assert "TRAIN" in RecordRoles(SplitAround(a, x), x);
  }

  lemma SufficientAround(a: Audit, x: Ref, y: Ref)
    requires forall g | g in a.groups :: a.groups[g] != {}
    requires Formed(SplitAround(a, x)) && FlagsSuffice(SplitAround(a, x))
    requires Grouped(a, x) && Grouped(a, y) && FreelyConnected(a, x, y)
    ensures Connected(a, x, y)
  {
    var b := SplitAround(a, x);
    SplitAroundConsistent(a, x);
    SplitAroundHasNoLeak(a, x);
    ConnectionsIgnoreRoles(a, b, x, y);
    ConnectionsIgnoreRoles(a, b, y, x);
    assert ChainedShareRole(b, x, y);
    AroundTellsApart(a, x, y);
  }

  lemma SafeAddsNothing(a: Audit, x: Ref, y: Ref)
    requires SafeForEverySplit(a) && (forall g | g in a.groups :: a.groups[g] != {})
    requires Grouped(a, x) && Grouped(a, y) && FreelyConnected(a, x, y)
    ensures Connected(a, x, y)
  {
    var roles := SplitAround(a, x).roles;
    assert SafeUnder(a, roles);
    SufficientAround(a, x, y);
  }

  lemma SafeUnderSplit(a: Audit, roles: map<string, string>)
    requires OutsidersAddNothing(a) && a.groups.Keys <= roles.Keys
    ensures SafeUnder(a, roles)
  {
    SameConnections(a, roles);
    NothingAddedSuffices(a.(roles := roles));
  }

  lemma AddingNothingIsSafe(a: Audit)
    requires OutsidersAddNothing(a)
    ensures SafeForEverySplit(a)
  {
    forall roles: map<string, string> | a.groups.Keys <= roles.Keys ensures SafeUnder(a, roles) {
      SafeUnderSplit(a, roles);
    }
  }

  /** An empty group fails the consistency flag under every split. */
  lemma EmptyGroupIsCaught(a: Audit, g: string)
    requires Formed(a) && g in a.groups && a.groups[g] == {}
    ensures !CasePairsConsistent(a)
  {
    assert GroupRoles(a, g) == {};
  }

  /** Whether the flags can be trusted depends on the groups and entities alone: they are enough for
      every split if and only if some group is empty, which no split passes, or records of no group
      connect nothing new. */
  lemma SafeExactly(a: Audit)
    ensures SafeForEverySplit(a) <==> OutsidersAddNothing(a) || exists g | g in a.groups :: a.groups[g] == {}
  {
    if g :| g in a.groups && a.groups[g] == {} {
      forall roles: map<string, string> | a.groups.Keys <= roles.Keys ensures SafeUnder(a, roles) {
        EmptyGroupIsCaught(a.(roles := roles), g);
      }
    } else if SafeForEverySplit(a) {
      forall x, y ensures NothingNew(a, x, y) {
        if Grouped(a, x) && Grouped(a, y) && FreelyConnected(a, x, y) { SafeAddsNothing(a, x, y); }
      }
    } else if OutsidersAddNothing(a) {
      AddingNothingIsSafe(a);
    }
  }

  lemma SameConnections(a: Audit, roles: map<string, string>)
    requires OutsidersAddNothing(a)
    ensures OutsidersAddNothing(a.(roles := roles))
  {
    var b := a.(roles := roles);
    forall x, y ensures NothingNew(b, x, y) {
      assert NothingNew(a, x, y);
      ConnectionsIgnoreRoles(a, b, x, y);
      ConnectionsIgnoreRoles(a, b, y, x);
    }
  }

  /** The condition a caller can check record by record makes every split safe. */
  lemma SettledOutsidersAreSafe(a: Audit)
    requires SettledOutsiders(a)
    ensures SafeForEverySplit(a)
  {
    forall x, y ensures NothingNew(a, x, y) {
      if Grouped(a, x) && Grouped(a, y) && FreelyConnected(a, x, y) { SettledOutsidersAddNothing(a, x, y); }
    }
    AddingNothingIsSafe(a);
  }

  // ---------------------------------------------------------------- a leak the flags accept

  /** Two overlapping entities tie a training record to a test record through a record of no group. */
  function Overlapping(): Audit {
    Audit(map["g" := {"x"}, "h" := {"y"}], map["g" := "TRAIN", "h" := "TEST"],
          map["e" := {"x", "z"}, "f" := {"z", "y"}])
  }

  lemma OverlappingRoles()
    ensures var a := Overlapping();
            && Formed(a) && RecordRoles(a, "x") == {"TRAIN"} && RecordRoles(a, "y") == {"TEST"}
            && EntityRoles(a, "e") == {"TRAIN"} && EntityRoles(a, "f") == {"TEST"}
  {
    var a := Overlapping();
    assert a.groups["g"] == {"x"} && a.groups["h"] == {"y"};
    assert "x" in a.groups["g"] * a.truth["e"] && "y" in a.groups["h"] * a.truth["f"];
    assert a.groups["h"] * a.truth["e"] == {} && a.groups["g"] * a.truth["f"] == {};
  }

  lemma OverlappingFlags()
    ensures Formed(Overlapping()) && NoEntityLeaks(Overlapping()) && CasePairsConsistent(Overlapping())
  {
    var a := Overlapping();
    OverlappingRoles();
    assert GroupRoles(a, "g") == {"TRAIN"} by { assert "x" in a.groups["g"]; }
    assert GroupRoles(a, "h") == {"TEST"} by { assert "y" in a.groups["h"]; }
  }

  lemma OverlappingTies()
    ensures var a := Overlapping(); Tied(a, "x", "z") && Tied(a, "z", "y") && Grouped(a, "x") && Grouped(a, "y")
  {
    var a := Overlapping();
    assert "x" in a.groups["g"] && "y" in a.groups["h"];
    assert "z" in a.truth["e"] && "z" in a.truth["f"];
  }

  lemma OverlappingOutsider()
    ensures !SettledOutsiders(Overlapping())
  {
    var a := Overlapping();
    assert a.groups["g"] == {"x"} && a.groups["h"] == {"y"};
    assert !Grouped(a, "z");
    assert "z" in a.truth["e"] && "z" in a.truth["f"];
    assert !OneEntity(a, "z");
  }

  lemma OverlappingApart()
    ensures Formed(Overlapping()) && !SameSide(Overlapping(), "x", "y")
  {
    OverlappingRoles();
    assert "TRAIN" in RecordRoles(Overlapping(), "x") && "TRAIN" !in RecordRoles(Overlapping(), "y");
  }

  lemma TwoHops(a: Audit, x: Ref, y: Ref, z: Ref)
    requires Tied(a, x, y) && Tied(a, y, z)
    ensures FreeChain(a, [x, y, z])
  {
    assert Hop(a, [x, y, z], 0) && Hop(a, [x, y, z], 1);
  }

  /** Both flags hold here although a chain leads from a training record to a test record: its
      middle record belongs to no group and to two entities. */
  lemma UngroupedRecordHidesLeak()
    ensures var a := Overlapping();
            && Formed(a) && NoEntityLeaks(a) && CasePairsConsistent(a)
            && Grouped(a, "x") && Grouped(a, "y") && FreeChain(a, ["x", "z", "y"])
            && !SameSide(a, "x", "y") && !SettledOutsiders(a)
  {
    OverlappingFlags();
    OverlappingTies();
    OverlappingOutsider();
    OverlappingApart();
    TwoHops(Overlapping(), "x", "z", "y");
  }
}
