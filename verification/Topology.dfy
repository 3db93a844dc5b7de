/** The data-flow check of the engineering plan (tools/validate_engineering_plan.py,
    `critical_topology_valid`): no component consumes an artifact of a later stage. */
module Topology {

  datatype Component = Component(inputs: seq<string>, outputs: set<string>)

  datatype Stage = Stage(id: string, outputs: set<string>)

  datatype Contract = Contract(producerComponent: string, producerStage: string)

  /** A row of the critical-topology table: which component and stage produce a contract. */
  datatype Entry = Entry(component: string, stage: string)

  datatype Plan = Plan(components: map<string, Component>, stages: seq<Stage>, owners: map<string, string>,
                       contracts: map<string, Contract>)

  /** The index of the last stage with this id, or -1: what the stage_order dictionary returns. */
  function Position(stages: seq<Stage>, id: string): (p: int)
    ensures -1 <= p < |stages|
    ensures p >= 0 ==> stages[p].id == id
    ensures forall j | p < j < |stages| :: stages[j].id != id
  {
    if stages == [] then -1
    else if stages[|stages| - 1].id == id then |stages| - 1
    else Position(stages[..|stages| - 1], id)
  }

  predicate EntryHolds(plan: Plan, name: string, entry: Entry) {
    var at := Position(plan.stages, entry.stage);
    && name in plan.contracts && plan.contracts[name] == Contract(entry.component, entry.stage)
    && entry.stage in plan.owners && plan.owners[entry.stage] == entry.component
    && entry.component in plan.components && name in plan.components[entry.component].outputs
    && at >= 0 && name in plan.stages[at].outputs
  }

  function Inputs(plan: Plan, stage: string): seq<string> {
    if stage in plan.owners && plan.owners[stage] in plan.components
    then plan.components[plan.owners[stage]].inputs
    else []
  }

  /** The stage that produces an input, if any contract describes it, is not later than `stage`. */
  predicate InputInOrder(plan: Plan, stage: string, input: string) {
    input in plan.contracts ==>
      Position(plan.stages, plan.contracts[input].producerStage) <= Position(plan.stages, stage)
  }

  ghost predicate TableHolds(plan: Plan, critical: map<string, Entry>) {
    forall name | name in critical :: EntryHolds(plan, name, critical[name])
  }

  ghost predicate ForwardOnly(plan: Plan) {
    forall stage, input | stage in plan.owners && input in Inputs(plan, stage) :: InputInOrder(plan, stage, input)
  }

  /** The scan with its early returns. */
  method CriticalTopologyValid(plan: Plan, critical: map<string, Entry>) returns (valid: bool)
    ensures valid <==> TableHolds(plan, critical) && ForwardOnly(plan)
  {
    var names := critical.Keys;
    while names != {}
      invariant names <= critical.Keys
      invariant forall name | name in critical && name !in names :: EntryHolds(plan, name, critical[name])
    {
      var name :| name in names;
      if !EntryHolds(plan, name, critical[name]) { return false; }
      names := names - {name};
    }
    var stages := plan.owners.Keys;
    while stages != {}
      invariant stages <= plan.owners.Keys
      invariant forall stage, input | stage in plan.owners && stage !in stages && input in Inputs(plan, stage) ::
                  InputInOrder(plan, stage, input)
    {
      var stage :| stage in stages;
      var inputs := Inputs(plan, stage);
      for i := 0 to |inputs|
        invariant forall j | 0 <= j < i :: InputInOrder(plan, stage, inputs[j])
      {
        if !InputInOrder(plan, stage, inputs[i]) {
          assert inputs[i] in Inputs(plan, stage);
          return false;
        }
      }
      stages := stages - {stage};
    }
    return true;
  }

  // ---------------------------------------------------------------- data-flow chains

  /** The owner of stage `s` consumes something that stage `t` produces. */
  ghost predicate Feeds(plan: Plan, s: string, t: string) {
    exists input | input in Inputs(plan, s) :: input in plan.contracts && plan.contracts[input].producerStage == t
  }

  ghost predicate Hop(plan: Plan, path: seq<string>, i: nat)
    requires i < |path| - 1
  {
    Feeds(plan, path[i], path[i + 1])
  }

  /** From consumer to producer, stage by stage. */
  ghost predicate Flow(plan: Plan, path: seq<string>) {
    path != [] && forall i | 0 <= i < |path| - 1 :: Hop(plan, path, i)
  }

  lemma FeedsBackwards(plan: Plan, s: string, t: string)
    requires ForwardOnly(plan) && Feeds(plan, s, t)
    ensures Position(plan.stages, t) <= Position(plan.stages, s)
  {
    var input :| input in Inputs(plan, s) && input in plan.contracts && plan.contracts[input].producerStage == t;
    assert s in plan.owners && InputInOrder(plan, s, input);
  }

  /** Along any chain from consumer to producer the stage positions never rise. */
  lemma {:induction false} PositionsNeverRise(plan: Plan, path: seq<string>, i: nat, j: nat)
    requires ForwardOnly(plan) && Flow(plan, path) && i <= j < |path|
    ensures Position(plan.stages, path[j]) <= Position(plan.stages, path[i])
  {
    if i < j {
      PositionsNeverRise(plan, path, i, j - 1);
      assert Hop(plan, path, j - 1);
      FeedsBackwards(plan, path[j - 1], path[j]);
    }
  }

  /** An accepted plan has no data-flow cycle through two different stages of the graph: a cycle with
      one present stage consists of that stage alone. */
  lemma CycleIsOneStage(plan: Plan, critical: map<string, Entry>, path: seq<string>, i: nat)
    requires TableHolds(plan, critical) && ForwardOnly(plan)
    requires Flow(plan, path) && path[0] == path[|path| - 1] && i < |path|
    requires exists k | 0 <= k < |path| :: Position(plan.stages, path[k]) >= 0
    ensures path[i] == path[0]
  {
    var k :| 0 <= k < |path| && Position(plan.stages, path[k]) >= 0;
    forall j | 0 <= j < |path| ensures Position(plan.stages, path[j]) == Position(plan.stages, path[0]) {
      PositionsNeverRise(plan, path, 0, j);
      PositionsNeverRise(plan, path, j, |path| - 1);
    }
    assert Position(plan.stages, path[i]) == Position(plan.stages, path[0]) == Position(plan.stages, path[k]);
  }

  // ---------------------------------------------------------------- the critical contracts

  /** In an accepted plan each critical contract is produced where the table says, by the component that
      owns that stage; owner and stage both list it, and no stage whose owner consumes it comes earlier. */
  lemma CriticalContractsInOrder(plan: Plan, critical: map<string, Entry>, name: string, stage: string)
    requires TableHolds(plan, critical) && ForwardOnly(plan) && name in critical
    ensures name in plan.contracts
    ensures var source, owner := plan.contracts[name].producerStage, plan.contracts[name].producerComponent;
            && source == critical[name].stage && owner == critical[name].component
            && source in plan.owners && plan.owners[source] == owner
            && owner in plan.components && name in plan.components[owner].outputs
            && (exists i | 0 <= i < |plan.stages| :: plan.stages[i].id == source && name in plan.stages[i].outputs)
            && (name in Inputs(plan, stage) ==> 0 <= Position(plan.stages, source) <= Position(plan.stages, stage))
  {
    assert EntryHolds(plan, name, critical[name]);
    if name in Inputs(plan, stage) { assert InputInOrder(plan, stage, name); }
  }

  // ---------------------------------------------------------------- what is accepted

  /** Every stage called `b` has, somewhere after it, one called `a`. */
  ghost predicate Later(stages: seq<Stage>, a: string, b: string) {
    exists j | 0 <= j < |stages| :: stages[j].id == a && forall i | j <= i < |stages| :: stages[i].id != b
  }

  lemma LaterExactly(stages: seq<Stage>, a: string, b: string)
    requires a != b
    ensures Position(stages, a) > Position(stages, b) <==> Later(stages, a, b)
  {
    var p, q := Position(stages, a), Position(stages, b);
    if p > q { assert stages[p].id == a; }
  }

  /** The last stage with the name lists the contract among its outputs. */
  ghost predicate StageLists(stages: seq<Stage>, stage: string, name: string) {
    exists i | 0 <= i < |stages| ::
      stages[i].id == stage && name in stages[i].outputs && forall j | i < j < |stages| :: stages[j].id != stage
  }

  /** The component that owns `stage` consumes something produced at `source`. */
  ghost predicate Consumes(plan: Plan, stage: string, source: string) {
    && stage in plan.owners && plan.owners[stage] in plan.components
    && exists input | input in plan.components[plan.owners[stage]].inputs ::
         input in plan.contracts && plan.contracts[input].producerStage == source
  }

  /** The owner of `stage` consumes something produced at `source`, which comes later. */
  ghost predicate ConsumesLater(plan: Plan, stage: string, source: string) {
    Consumes(plan, stage, source) && source != stage && Later(plan.stages, source, stage)
  }

  /** Nothing is consumed before it is produced, exactly if no stage consumes from a later one. */
  lemma ForwardExactly(plan: Plan)
    ensures ForwardOnly(plan) <==> forall stage, source :: !ConsumesLater(plan, stage, source)
  {
    if ForwardOnly(plan) {
      forall stage, source ensures !ConsumesLater(plan, stage, source) {
        if Consumes(plan, stage, source) && source != stage {
          var input :| input in Inputs(plan, stage) && input in plan.contracts
                       && plan.contracts[input].producerStage == source;
          assert InputInOrder(plan, stage, input);
          LaterExactly(plan.stages, source, stage);
        }
      }
    }
    if forall stage, source :: !ConsumesLater(plan, stage, source) {
      forall stage, input | stage in plan.owners && input in Inputs(plan, stage)
        ensures InputInOrder(plan, stage, input)
      {
        if input in plan.contracts && plan.contracts[input].producerStage != stage {
          assert !ConsumesLater(plan, stage, plan.contracts[input].producerStage);
          LaterExactly(plan.stages, plan.contracts[input].producerStage, stage);
        }
      }
    }
  }

  lemma EntryExactly(plan: Plan, name: string, entry: Entry)
    ensures EntryHolds(plan, name, entry)
       <==> && name in plan.contracts && plan.contracts[name].producerComponent == entry.component
            && plan.contracts[name].producerStage == entry.stage
            && entry.stage in plan.owners && plan.owners[entry.stage] == entry.component
            && entry.component in plan.components && name in plan.components[entry.component].outputs
            && StageLists(plan.stages, entry.stage, name)
  {
    var at := Position(plan.stages, entry.stage);
    if StageLists(plan.stages, entry.stage, name) {
      var i :| 0 <= i < |plan.stages| && plan.stages[i].id == entry.stage && name in plan.stages[i].outputs
               && forall j | i < j < |plan.stages| :: plan.stages[j].id != entry.stage;
      assert at == i;
    }
  }
}
