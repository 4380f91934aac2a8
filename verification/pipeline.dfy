/** `normalizeSteps`: the whole post-solve pass. The flow pass runs over
    every step first; then each step gets its settings, belts, beacons,
    display rates and checked flag; then the steps are sorted by the
    diagram and finally arranged as a hierarchy. */
module Pipeline {
  import opened Wrappers
  import opened Model
  import opened Normalizer
  import opened Flow
  import opened Enrichers
  import opened Beacons
  import opened Sankey
  import opened Hierarchy

  /** Everything `normalizeSteps` reads besides the steps. The diagram
      layout stands in for the sankey library: it maps a node id to the
      depth the library would give that node. */
  datatype Inputs = Inputs(
    objectives: seq<Objective>,
    itemsState: map<string, ItemSettings>,
    recipesState: map<string, RecipeSettings>,
    beltSpeed: map<string, real>,
    dispRate: DisplayRateInfo,
    settings: Settings,
    data: Dataset,
    layout: map<string, int>)

  /** `toEntities(objectives)`: the objectives keyed by id; of several with
      one id the last is kept. */
  function ToEntities(objectives: seq<Objective>): (r: map<string, Objective>)
    ensures forall id :: id in r ==> r[id] in objectives && r[id].id == id
    ensures forall k :: 0 <= k < |objectives| ==> objectives[k].id in r
    decreases |objectives|
  {
    if objectives == [] then map[]
    else
      var n := |objectives| - 1;
      var front := objectives[..n];
      assert forall k :: 0 <= k < n ==> front[k] == objectives[k];
      ToEntities(front)[objectives[n].id := objectives[n]]
  }

  /** An objective no later objective shares its id with is the one its id
      maps to. */
  lemma {:induction false} ToEntitiesLast(objectives: seq<Objective>, k: nat)
    requires k < |objectives|
    requires forall m :: k < m < |objectives| ==> objectives[m].id != objectives[k].id
    ensures ToEntities(objectives)[objectives[k].id] == objectives[k]
    decreases |objectives|
  {
    var n := |objectives| - 1;
    if k < n {
      var front := objectives[..n];
      var id := objectives[k].id;
      assert ToEntities(front)[id] == objectives[k] by {
        assert front[k] == objectives[k];
        forall m | k < m < |front| ensures front[m].id != front[k].id {
          assert front[m] == objectives[m];
        }
        ToEntitiesLast(front, k);
      }
      assert objectives[n].id != id;
      assert ToEntities(objectives)[id] == ToEntities(front)[objectives[n].id := objectives[n]][id];
    }
  }

  // ------------------------------------------------------------ one step

  /** The lookups and divisors of the per-step passes, for a step as the
      flow pass leaves it. */
  predicate StepReady(p: Step, x: Inputs) {
    var s := CalculateSettings(p, ToEntities(x.objectives), x.recipesState);
    && BeltsDefined(s, x.itemsState, x.beltSpeed, x.data)
    && BeaconsDefined(s, x.settings.beaconReceivers, x.data)
    && DisplayRateDefined(s)
  }

  /** The per-step passes, in the order `normalizeSteps` runs them. None of
      them touches the fields the diagram and the hierarchy read, except
      that the consumer amounts become fractions under the same keys. */
  function Enrich(p: Step, x: Inputs): (r: Step)
    requires StepReady(p, x)
    ensures r.id == p.id && r.itemId == p.itemId && r.recipeId == p.recipeId
    ensures r.outputs == p.outputs && r.depth == p.depth
    ensures r.parents.Some? <==> p.parents.Some?
    ensures r.parents.Some? ==> r.parents.value.Keys == p.parents.value.Keys
  {
    var s1 := CalculateSettings(p, ToEntities(x.objectives), x.recipesState);
    var s2 := CalculateBelts(s1, x.itemsState, x.beltSpeed, x.data);
    assert s2.recipeId == s1.recipeId && s2.machines == s1.machines && s2.recipeSettings == s1.recipeSettings;
    assert s2.items == s1.items && s2.parents == s1.parents;
    var s3 := BeaconsFilled(s2, x.settings.beaconReceivers, x.data);
    var s4 := CalculateDisplayRate(s3, x.dispRate);
    CalculateChecked(s4, x.settings)
  }

  function EnrichAll(flowed: seq<Step>, x: Inputs): (r: seq<Step>)
    requires forall j :: 0 <= j < |flowed| ==> StepReady(flowed[j], x)
    ensures |r| == |flowed|
    ensures forall j :: 0 <= j < |flowed| ==> r[j] == Enrich(flowed[j], x)
  {
    seq(|flowed|, j requires 0 <= j < |flowed| => Enrich(flowed[j], x))
  }

  // ---------------------------------------------------------- whole pass

  /** What `normalizeSteps` demands of its input for every lookup to
      succeed and every recursion to end. */
  predicate Ready(steps: seq<Step>, x: Inputs) {
    && FlowDefined(steps)
    && WellFormed(steps)
    && var flowed := FlowFrom(steps, 0);
       && SankeyDefined(flowed)
       && forall j :: 0 <= j < |flowed| ==> StepReady(flowed[j], x)
  }

  /** Rows that agree on ids, items and consumer keys agree on whether the
      diagram's table lookups succeed. */
  lemma SankeyDefinedKept(a: seq<Step>, b: seq<Step>)
    requires SankeyDefined(a) && |a| == |b| && Ids(a) == Ids(b)
    requires forall j :: 0 <= j < |a| ==>
               && b[j].itemId == a[j].itemId
               && (b[j].parents.Some? <==> a[j].parents.Some?)
               && (b[j].parents.Some? ==> b[j].parents.value.Keys == a[j].parents.value.Keys)
    ensures SankeyDefined(b)
  {
  }

  /** The flow pass keeps the ids. */
  lemma FlowKeepsIds(steps: seq<Step>)
    requires FlowDefined(steps)
    ensures Ids(FlowFrom(steps, 0)) == Ids(steps)
  {
    var f := FlowFrom(steps, 0);
    FlowFromFrame(steps, 0);
    forall j | 0 <= j < |steps| ensures f[j].id == steps[j].id {
      assert SameStepFrame(f[j], steps[j]);
    }
  }

  /** The enriched rows keep the ids of the input. */
  lemma EnrichedIds(steps: seq<Step>, x: Inputs)
    requires Ready(steps, x)
    ensures Ids(EnrichAll(FlowFrom(steps, 0), x)) == Ids(steps)
  {
    FlowKeepsIds(steps);
    var f := FlowFrom(steps, 0);
    var e := EnrichAll(f, x);
    assert forall j :: 0 <= j < |e| ==> Ids(e)[j] == Ids(f)[j];
  }

  /** The diagram's lookups succeed on the enriched rows, and the sorted
      rows are still fit for the hierarchy. */
  lemma SortedReady(steps: seq<Step>, x: Inputs)
    requires Ready(steps, x)
    ensures SankeyDefined(EnrichAll(FlowFrom(steps, 0), x))
    ensures WellFormed(SortBySankey(EnrichAll(FlowFrom(steps, 0), x), x.layout))
    ensures multiset(Ids(SortBySankey(EnrichAll(FlowFrom(steps, 0), x), x.layout))) == multiset(Ids(steps))
  {
    var f := FlowFrom(steps, 0);
    var e := EnrichAll(f, x);
    FlowKeepsIds(steps);
    EnrichedIds(steps, x);
    SankeyDefinedKept(f, e);
    WellFormedIds(steps, e);
    SortKeepsIds(e, x.layout);
  }

  /** Taking depths from the layout keeps the ids. */
  lemma DepthsKeepIds(e: seq<Step>, layout: map<string, int>)
    ensures Ids(WithDepths(e, layout)) == Ids(e)
  {
    var d := WithDepths(e, layout);
    forall j | 0 <= j < |d| ensures d[j].id == e[j].id {
      assert d[j] == e[j].(depth := d[j].depth);
    }
    assert forall j :: 0 <= j < |d| ==> Ids(d)[j] == Ids(e)[j];
  }

  /** The diagram sort keeps the ids, so its rows are still fit for the
      hierarchy. */
  lemma SortKeepsIds(e: seq<Step>, layout: map<string, int>)
    requires SankeyDefined(e) && WellFormed(e)
    ensures WellFormed(SortBySankey(e, layout))
    ensures multiset(Ids(SortBySankey(e, layout))) == multiset(Ids(e))
  {
    var sorted := SortBySankey(e, layout);
    if HasDiagram(e) {
      var d := WithDepths(e, layout);
      DepthsKeepIds(e, layout);
      WellFormedIds(e, d);
      WellFormedPermutation(d, sorted);
      IdsPermute(sorted, d);
    }
  }

  /** `normalizeSteps` as one expression: no row is lost or duplicated,
      each output row is identified by an input row's id. */
  function Normalized(steps: seq<Step>, x: Inputs): (r: seq<Step>)
    requires Ready(steps, x)
    ensures |r| == |steps|
    ensures multiset(Ids(r)) == multiset(Ids(steps))
  {
    var e := EnrichAll(FlowFrom(steps, 0), x);
    SortedReady(steps, x);
    var sorted := SortBySankey(e, x.layout);
    HierarchyPermutes(sorted);
    IdsPermute(CalculateHierarchy(sorted), sorted);
    assert |CalculateHierarchy(sorted)| == |multiset(Ids(CalculateHierarchy(sorted)))|;
    CalculateHierarchy(sorted)
  }

  /** The per-step passes as the loop of `normalizeSteps` runs them on one
      row. */
  method EnrichStep(p: Step, objectiveEntities: map<string, Objective>, x: Inputs) returns (s: Step)
    requires StepReady(p, x) && objectiveEntities == ToEntities(x.objectives)
    ensures s == Enrich(p, x)
  {
    s := CalculateSettings(p, objectiveEntities, x.recipesState);
    ghost var s1 := s;
    s := CalculateBelts(s, x.itemsState, x.beltSpeed, x.data);
    assert s.recipeId == s1.recipeId && s.machines == s1.machines && s.recipeSettings == s1.recipeSettings;
    assert s.items == s1.items && s.parents == s1.parents;
    s := CalculateBeacons(s, x.settings.beaconReceivers, x.data);
    s := CalculateDisplayRate(s, x.dispRate);
    s := CalculateChecked(s, x.settings);
  }

  /** The loop of `normalizeSteps` over the flowed rows. */
  method EnrichRows(flowed: seq<Step>, x: Inputs) returns (enriched: seq<Step>)
    requires forall j :: 0 <= j < |flowed| ==> StepReady(flowed[j], x)
    ensures enriched == EnrichAll(flowed, x)
  {
    var objectiveEntities := ToEntities(x.objectives);
    enriched := [];
    var j := 0;
    while j < |flowed|
      invariant j <= |flowed| && enriched == EnrichAll(flowed[..j], x)
    {
      var s := EnrichStep(flowed[j], objectiveEntities, x);
      EnrichAllSnoc(flowed, j, x);
      enriched := enriched + [s];
      j := j + 1;
    }
    assert flowed[..j] == flowed;
  }

  /** Enriching one more row appends its enrichment. */
  lemma EnrichAllSnoc(flowed: seq<Step>, j: nat, x: Inputs)
    requires j < |flowed| && forall k :: 0 <= k < |flowed| ==> StepReady(flowed[k], x)
    ensures EnrichAll(flowed[..j + 1], x) == EnrichAll(flowed[..j], x) + [Enrich(flowed[j], x)]
  {
    var a := EnrichAll(flowed[..j + 1], x);
    var b := EnrichAll(flowed[..j], x) + [Enrich(flowed[j], x)];
    forall k | 0 <= k < |a| ensures a[k] == b[k] {
      if k < j {
        assert flowed[..j + 1][k] == flowed[..j][k];
      }
    }
  }

  /** `normalizeSteps`: the flow pass over every step, then the per-step
      passes, then the diagram sort and the hierarchy. */
  method NormalizeSteps(steps: seq<Step>, x: Inputs) returns (r: seq<Step>)
    requires Ready(steps, x)
    ensures r == Normalized(steps, x)
    ensures multiset(Ids(r)) == multiset(Ids(steps))
  {
    var flowed := CalculateAllParentsOutputs(steps);
    var enriched := EnrichRows(flowed, x);
    SortedReady(steps, x);
    var sorted := SortBySankey(enriched, x.layout);
    r := CalculateHierarchy(sorted);
  }

  /** A row of the diagram sort is an input row with, at most, a new depth. */
  lemma SortedRow(e: seq<Step>, layout: map<string, int>, row: Step)
    requires SankeyDefined(e) && row in multiset(SortBySankey(e, layout))
    ensures exists j :: 0 <= j < |e| && row == e[j].(depth := row.depth)
  {
    var d := if HasDiagram(e) then WithDepths(e, layout) else e;
    assert row in multiset(d);
    var j :| 0 <= j < |d| && d[j] == row;
    assert row == e[j].(depth := row.depth);
  }

  /** Every output row is the enrichment of the flow-pass row with its id,
      apart from the depth the diagram gives it. */
  lemma NormalizedRows(steps: seq<Step>, x: Inputs, row: Step)
    requires Ready(steps, x) && row in Normalized(steps, x)
    ensures exists j :: 0 <= j < |steps| && row.id == steps[j].id
                        && row == Enrich(FlowFrom(steps, 0)[j], x).(depth := row.depth)
  {
    var e := EnrichAll(FlowFrom(steps, 0), x);
    SortedReady(steps, x);
    EnrichedIds(steps, x);
    var sorted := SortBySankey(e, x.layout);
    HierarchyPermutes(sorted);
    assert row in multiset(CalculateHierarchy(sorted));
    SortedRow(e, x.layout, row);
    var j :| 0 <= j < |e| && row == e[j].(depth := row.depth);
    assert Ids(e)[j] == steps[j].id;
  }

  // ----------------------------------------------------------- round trips

  /** A belts objective, normalised and then measured in belts again, gives
      back its value: the normaliser multiplies by the belt speed and the
      belt pass divides by it. */
  lemma BeltsRoundTrip(o: Objective, step: Step, x: Inputs)
    requires NormalizeDefined(o, x.itemsState, x.beltSpeed, x.dispRate, x.data)
    requires o.unit == Belts && o.objectiveType != Maximize && TechnologyRecipe(o, x.data).None?
    requires Truthy(x.itemsState[o.targetId].beltId)
    requires step.itemId == Some(o.targetId)
    requires step.items == Some(ObjectiveNormalizedRate(o, x.itemsState, x.beltSpeed, x.dispRate, x.data))
    requires BeltsDefined(step, x.itemsState, x.beltSpeed, x.data) && !Suppressed(step, x.data)
    ensures CalculateBelts(step, x.itemsState, x.beltSpeed, x.data).belts == Some(o.value)
  {
    var speed := x.beltSpeed[x.itemsState[o.targetId].beltId.value];
    var b := CalculateBelts(step, x.itemsState, x.beltSpeed, x.data).belts.value;
    assert b * speed == o.value * speed;
  }

  /** An items objective, normalised and then shown at the display rate,
      gives back its value. */
  lemma ItemsDisplayRoundTrip(o: Objective, step: Step, x: Inputs)
    requires NormalizeDefined(o, x.itemsState, x.beltSpeed, x.dispRate, x.data)
    requires o.unit == Items && o.objectiveType != Maximize && TechnologyRecipe(o, x.data).None?
    requires step.items == Some(ObjectiveNormalizedRate(o, x.itemsState, x.beltSpeed, x.dispRate, x.data))
    requires DisplayRateDefined(step)
    ensures CalculateDisplayRate(step, x.dispRate).items == Some(o.value)
  {
    ItemsRoundTrip(o, x.itemsState, x.beltSpeed, x.dispRate, x.data);
    var shown := CalculateDisplayRate(step, x.dispRate);
    assert Scaled(shown.items, step.items, x.dispRate.value);
    assert shown.items.Some?;
    assert shown.items.value == step.items.value * x.dispRate.value;
    assert step.items.value * x.dispRate.value == o.value;
  }

  /** A wagons objective on a stackable item, normalised, counted in wagons
      and shown at the display rate, gives back its value, provided the
      wagon's item entry and its cargo-wagon entry agree on its size. */
  lemma WagonsRoundTrip(o: Objective, step: Step, x: Inputs)
    requires NormalizeDefined(o, x.itemsState, x.beltSpeed, x.dispRate, x.data)
    requires o.unit == Wagons && o.objectiveType != Maximize && TechnologyRecipe(o, x.data).None?
    requires HasWagon(o, x.itemsState) && RidesCargoWagon(o, x.itemsState, x.data.itemEntities)
    requires var w := x.itemsState[o.targetId].wagonId.value;
             w in x.data.cargoWagonEntities
             && x.data.cargoWagonEntities[w] == x.data.itemEntities[w].cargoWagon.value
    requires step.itemId == Some(o.targetId)
    requires step.items == Some(ObjectiveNormalizedRate(o, x.itemsState, x.beltSpeed, x.dispRate, x.data))
    requires BeltsDefined(step, x.itemsState, x.beltSpeed, x.data) && !Suppressed(step, x.data)
    requires DisplayRateDefined(step)
    ensures DisplayRateDefined(CalculateBelts(step, x.itemsState, x.beltSpeed, x.data))
    ensures CalculateDisplayRate(CalculateBelts(step, x.itemsState, x.beltSpeed, x.data), x.dispRate).wagons
            == Some(o.value)
  {
    var w := x.itemsState[o.targetId].wagonId.value;
    var item := x.data.itemEntities[o.targetId];
    var cap := WagonCapacity(item, w, x.data);
    var f := UnitFactor(o, x.itemsState, x.beltSpeed, x.dispRate, x.data.itemEntities);
    var d := x.dispRate.value;
    var rate := o.value * f;
    assert f * d == cap by {
      assert cap == item.stack.value * x.data.itemEntities[w].cargoWagon.value.size;
    }
    var belted := CalculateBelts(step, x.itemsState, x.beltSpeed, x.data);
    var wagons := belted.wagons.value;
    assert wagons * cap == rate;
    assert cap != 0.0;
    CancelFactor(wagons, cap, o.value, f, d);
    var shown := CalculateDisplayRate(belted, x.dispRate);
    assert Scaled(shown.wagons, belted.wagons, d);
    assert shown.wagons.Some? && shown.wagons.value == wagons * d;
  }

  /** Converting a rate into units of `f` per `cap`, then scaling by `d`
      where `f * d == cap`, gives the value back. */
  lemma CancelFactor(wagons: real, cap: real, value: real, f: real, d: real)
    requires cap != 0.0 && f * d == cap && wagons * cap == value * f
    ensures wagons * d == value
  {
    assert wagons * d * cap == value * f * d;
    assert value * f * d == value * cap;
    assert (wagons * d - value) * cap == 0.0;
  }
}
