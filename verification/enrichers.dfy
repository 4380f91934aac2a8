/** The per-step passes `normalizeSteps` runs after the flow pass: recipe
    settings, belt and wagon counts, display-rate scaling and the checked
    flag, plus `adjustPowerPollution`. Each is a function from the step
    before to the step after; each contract names the fields it may change. */
module Enrichers {
  import opened Wrappers
  import opened Model
  import opened Rationals
  import opened Flow

  // ---------------------------------------------------------------- settings

  /** `calculateSettings`: a step with a (non-empty) recipe id takes the
      settings of the recipe objective it belongs to, or else the recipe's
      own settings; either lookup may miss and then clears the settings. */
  function CalculateSettings(step: Step, objectiveEntities: map<string, Objective>,
                             recipesState: map<string, RecipeSettings>): (r: Step)
    ensures r.(recipeSettings := step.recipeSettings) == step
    ensures !Truthy(step.recipeId) ==> r == step
    ensures Truthy(step.recipeId) && Truthy(step.recipeObjectiveId) ==>
              (r.recipeSettings.Some? <==> step.recipeObjectiveId.value in objectiveEntities)
              && (r.recipeSettings.Some? ==>
                    r.recipeSettings.value == objectiveEntities[step.recipeObjectiveId.value].settings)
    ensures Truthy(step.recipeId) && !Truthy(step.recipeObjectiveId) ==>
              (r.recipeSettings.Some? <==> step.recipeId.value in recipesState)
              && (r.recipeSettings.Some? ==> r.recipeSettings.value == recipesState[step.recipeId.value])
  {
    if !Truthy(step.recipeId) then step
    else if Truthy(step.recipeObjectiveId) then
      match Get(objectiveEntities, step.recipeObjectiveId.value)
      case Some(o) => step.(recipeSettings := Some(o.settings))
      case None => step.(recipeSettings := None)
    else step.(recipeSettings := Get(recipesState, step.recipeId.value))
  }

  /** Running `calculateSettings` twice changes nothing more. */
  lemma CalculateSettingsIdempotent(step: Step, objectiveEntities: map<string, Objective>,
                                    recipesState: map<string, RecipeSettings>)
    ensures var once := CalculateSettings(step, objectiveEntities, recipesState);
            CalculateSettings(once, objectiveEntities, recipesState) == once
  {
  }

  /** The recipe objective comes first: a step with an objective id gets the
      same settings whatever the recipe states are. */
  lemma SettingsObjectiveFirst(step: Step, objectiveEntities: map<string, Objective>,
                               recipesState: map<string, RecipeSettings>,
                               otherRecipesState: map<string, RecipeSettings>)
    requires Truthy(step.recipeObjectiveId)
    ensures CalculateSettings(step, objectiveEntities, recipesState)
            == CalculateSettings(step, objectiveEntities, otherRecipesState)
  {
  }

  /** Without an objective id the objective table is never consulted. */
  lemma SettingsRecipeOtherwise(step: Step, objectiveEntities: map<string, Objective>,
                                otherObjectives: map<string, Objective>,
                                recipesState: map<string, RecipeSettings>)
    requires !Truthy(step.recipeObjectiveId)
    ensures CalculateSettings(step, objectiveEntities, recipesState)
            == CalculateSettings(step, otherObjectives, recipesState)
  {
  }

  // ------------------------------------------------------------------- belts

  /** Research rows, and rocket-silo rows that do not make rocket parts, carry
      no belts or wagons. Only decided when the step has a recipe, settings
      and a machine. The machine is only looked at for a recipe that is not
      research. */
  predicate Suppressed(step: Step, data: Dataset) {
    && step.recipeId.Some? && step.recipeSettings.Some?
    && step.recipeSettings.value.machineId.Some?
    && step.recipeId.value in data.recipeEntities
    && var recipe := data.recipeEntities[step.recipeId.value];
       var machineId := step.recipeSettings.value.machineId.value;
       (recipe.isTechnology || (machineId in data.machineEntities && data.machineEntities[machineId].silo && !recipe.part))
  }

  /** The cargo wagon case: the item stacks, so a wagon holds `size * stack`. */
  function WagonCapacity(item: Item, wagon: string, data: Dataset): real
    requires item.stack.Some? ==> wagon in data.cargoWagonEntities
    requires item.stack.None? ==> wagon in data.fluidWagonEntities
  {
    if item.stack.Some? then data.cargoWagonEntities[wagon].size * item.stack.value
    else data.fluidWagonEntities[wagon].capacity
  }

  /** Every table entry `calculateBelts` reads without a guard exists, and
      every divisor it uses is nonzero. */
  predicate BeltsDefined(step: Step, itemsState: map<string, ItemSettings>,
                         beltSpeed: map<string, real>, data: Dataset) {
    && (step.recipeId.Some? && step.recipeSettings.Some? && step.recipeSettings.value.machineId.Some? ==>
          && step.recipeId.value in data.recipeEntities
          && (!data.recipeEntities[step.recipeId.value].isTechnology ==>
                step.recipeSettings.value.machineId.value in data.machineEntities))
    && (!Suppressed(step, data) && step.itemId.Some? ==>
          && step.itemId.value in itemsState
          && var s := itemsState[step.itemId.value];
             && (step.items.Some? && s.beltId.Some? ==>
                   s.beltId.value in beltSpeed && beltSpeed[s.beltId.value] != 0.0)
             && (step.items.Some? && s.wagonId.Some? ==>
                   && step.itemId.value in data.itemEntities
                   && var item := data.itemEntities[step.itemId.value];
                      && (item.stack.Some? ==> s.wagonId.value in data.cargoWagonEntities)
                      && (item.stack.None? ==> s.wagonId.value in data.fluidWagonEntities)
                      && WagonCapacity(item, s.wagonId.value, data) != 0.0))
  }

  /** `calculateBelts`: how many belts and wagons carry the step's item rate. */
  function CalculateBelts(step: Step, itemsState: map<string, ItemSettings>,
                          beltSpeed: map<string, real>, data: Dataset): (r: Step)
    requires BeltsDefined(step, itemsState, beltSpeed, data)
    ensures r.(belts := step.belts, wagons := step.wagons) == step
    ensures Suppressed(step, data) ==> r.belts.None? && r.wagons.None?
    ensures !Suppressed(step, data) && step.itemId.Some? && step.items.Some?
            && itemsState[step.itemId.value].beltId.Some? ==>
              r.belts.Some?
              && r.belts.value * beltSpeed[itemsState[step.itemId.value].beltId.value] == step.items.value
    ensures !Suppressed(step, data) && step.itemId.Some? && step.items.Some?
            && itemsState[step.itemId.value].wagonId.Some? ==>
              r.wagons.Some?
              && r.wagons.value * WagonCapacity(data.itemEntities[step.itemId.value],
                                                itemsState[step.itemId.value].wagonId.value, data)
                 == step.items.value
    ensures !Suppressed(step, data) && (step.itemId.None? || step.items.None?) ==> r == step
    ensures !Suppressed(step, data) && step.itemId.Some? && itemsState[step.itemId.value].beltId.None? ==>
              r.belts == step.belts
    ensures !Suppressed(step, data) && step.itemId.Some? && itemsState[step.itemId.value].wagonId.None? ==>
              r.wagons == step.wagons
  {
    if Suppressed(step, data) then step.(belts := None, wagons := None)
    else if step.itemId.None? then step
    else
      var s := itemsState[step.itemId.value];
      var withBelts :=
        if step.items.Some? && s.beltId.Some?
        then step.(belts := Some(step.items.value / beltSpeed[s.beltId.value]))
        else step;
      if step.items.Some? && s.wagonId.Some?
      then
        var cap := WagonCapacity(data.itemEntities[step.itemId.value], s.wagonId.value, data);
        withBelts.(wagons := Some(step.items.value / cap))
      else withBelts
  }

  // ------------------------------------------------------------ display rate

  /** The only zero division `calculateDisplayRate` could attempt: a step
      with consumers but a zero item rate. */
  predicate DisplayRateDefined(step: Step) {
    step.items.Some? && step.parents.Some? && |step.parents.value| > 0 ==> step.items.value != 0.0
  }

  /** An optional rate multiplied by the display factor when present. */
  predicate Scaled(after: Option<real>, before: Option<real>, factor: real) {
    (after.Some? <==> before.Some?) && (before.Some? ==> after.value == before.value * factor)
  }

  /** `x?.mul(factor)`. */
  function Scale(x: Option<real>, factor: real): (r: Option<real>)
    ensures Scaled(r, x, factor)
  {
    if x.Some? then Some(x.value * factor) else None
  }

  /** Every entry of `m` divided by `d`. */
  function DivideAll(m: map<string, real>, d: real): (r: map<string, real>)
    requires |m| > 0 ==> d != 0.0
    ensures r.Keys == m.Keys
    ensures forall k :: k in m ==> r[k] * d == m[k]
  {
    map k | k in m :: m[k] / d
  }

  /** `calculateDisplayRate`: consumer amounts become fractions of the
      item's total, and every rate is converted to the display unit. */
  function CalculateDisplayRate(step: Step, dispRate: DisplayRateInfo): (r: Step)
    requires DisplayRateDefined(step)
    ensures r.(parents := step.parents, items := step.items, surplus := step.surplus,
               wagons := step.wagons, pollution := step.pollution, output := step.output) == step
    ensures Scaled(r.items, step.items, dispRate.value)
    ensures step.items.None? || step.parents.None? ==> r.parents == step.parents
    ensures step.items.Some? && step.parents.Some? ==>
              r.parents.Some? && r.parents.value.Keys == step.parents.value.Keys
              && forall k :: k in step.parents.value ==>
                   r.parents.value[k] * step.items.value == step.parents.value[k]
    ensures Scaled(r.surplus, step.surplus, dispRate.value)
    ensures Scaled(r.wagons, step.wagons, dispRate.value)
    ensures Scaled(r.pollution, step.pollution, dispRate.value)
    ensures Scaled(r.output, step.output, dispRate.value)
  {
    var f := dispRate.value;
    // Consumer amounts are divided only when the step has an item rate.
    step.(parents := if step.items.Some? && step.parents.Some?
                     then Some(DivideAll(step.parents.value, step.items.value))
                     else step.parents,
          items := Scale(step.items, f),
          surplus := Scale(step.surplus, f),
          wagons := Scale(step.wagons, f),
          pollution := Scale(step.pollution, f),
          output := Scale(step.output, f))
  }

  lemma DivSum(a: real, b: real, d: real)
    requires d != 0.0
    ensures (a + b) / d == a / d + b / d
  {
  }

  /** Dividing every entry divides the total. */
  lemma {:induction false} DivideAllSum(m: map<string, real>, d: real)
    requires d != 0.0
    ensures MapSum(DivideAll(m, d)) == MapSum(m) / d
    decreases |m|
  {
    if m != map[] {
      var k :| k in m;
      var rest := m - {k};
      var dm := DivideAll(m, d);
      assert |rest| < |m| by { assert rest.Keys < m.Keys; }
      var x, y := m[k], MapSum(rest);
      assert MapSum(dm) == x / d + y / d by {
        assert dm - {k} == DivideAll(rest, d);
        DivideAllSum(rest, d);
        MapSumRemove(dm, k);
      }
      assert MapSum(m) == x + y by {
        MapSumRemove(m, k);
      }
      DivSum(x, y, d);
    }
  }

  /** When an item step's consumers account for its whole rate, the
      fractions `calculateDisplayRate` leaves in `parents` add up to one. */
  lemma ParentFractionsSumToOne(step: Step, dispRate: DisplayRateInfo)
    requires step.items.Some? && step.parents.Some? && step.items.value != 0.0
    requires MapSum(step.parents.value) == step.items.value
    ensures CalculateDisplayRate(step, dispRate).parents.Some?
    ensures MapSum(CalculateDisplayRate(step, dispRate).parents.value) == 1.0
  {
    DivideAllSum(step.parents.value, step.items.value);
    assert CalculateDisplayRate(step, dispRate).parents.value == DivideAll(step.parents.value, step.items.value);
  }

  // ----------------------------------------------------------------- checked

  /** `calculateChecked`: the checked flag comes from the item's state first,
      then the recipe objective's, then the recipe's. */
  function CalculateChecked(step: Step, settings: Settings): (r: Step)
    ensures r.(checked := step.checked) == step
    ensures step.itemId.Some? ==> r.checked == Some(step.itemId.value in settings.checkedItemIds)
    ensures step.itemId.None? && step.recipeObjectiveId.Some? ==>
              r.checked == Some(step.recipeObjectiveId.value in settings.checkedObjectiveIds)
    ensures step.itemId.None? && step.recipeObjectiveId.None? && step.recipeId.Some? ==>
              r.checked == Some(step.recipeId.value in settings.checkedRecipeIds)
    ensures step.itemId.None? && step.recipeObjectiveId.None? && step.recipeId.None? ==> r == step
  {
    if step.itemId.Some? then step.(checked := Some(step.itemId.value in settings.checkedItemIds))
    else if step.recipeObjectiveId.Some? then
      step.(checked := Some(step.recipeObjectiveId.value in settings.checkedObjectiveIds))
    else if step.recipeId.Some? then step.(checked := Some(step.recipeId.value in settings.checkedRecipeIds))
    else step
  }

  /** Item state comes first: an item step's flag ignores the objective and
      recipe states. */
  lemma CheckedItemFirst(step: Step, settings: Settings, objectiveIds: set<string>, recipeIds: set<string>)
    requires step.itemId.Some?
    ensures CalculateChecked(step, settings)
            == CalculateChecked(step, settings.(checkedObjectiveIds := objectiveIds, checkedRecipeIds := recipeIds))
  {
  }

  /** The recipe objective's state comes before the recipe's: a step with an
      objective id and no item ignores the item and recipe states. */
  lemma CheckedObjectiveSecond(step: Step, settings: Settings, itemIds: set<string>, recipeIds: set<string>)
    requires step.itemId.None? && step.recipeObjectiveId.Some?
    ensures CalculateChecked(step, settings)
            == CalculateChecked(step, settings.(checkedItemIds := itemIds, checkedRecipeIds := recipeIds))
  {
  }

  /** The flag only depends on the ids and the settings: recomputing it is a no-op. */
  lemma CalculateCheckedIdempotent(step: Step, settings: Settings)
    ensures CalculateChecked(CalculateChecked(step, settings), settings) == CalculateChecked(step, settings)
  {
  }

  // ------------------------------------------------------ power and pollution

  /** Drain charged per machine count: whole machines, or in Dyson Sphere
      Program only the idle remainder of the last machine. */
  function DrainedMachines(machines: real, game: Game): (d: real)
    ensures game == OtherGame ==> d.Floor as real == d && machines <= d < machines + 1.0
    ensures game == DysonSphereProgram ==> (machines + d).Floor as real == machines + d && 0.0 <= d < 1.0
  {
    if game == DysonSphereProgram then Ceil(machines) - machines else Ceil(machines)
  }

  /** Power drawn by idle draw: nothing unless the recipe has drain. */
  function DrainPower(machines: real, recipe: Recipe, game: Game): real {
    if NonZero(recipe.drain) then DrainedMachines(machines, game) * recipe.drain.value else 0.0
  }

  /** Power drawn by running machines: nothing unless the recipe consumes. */
  function ConsumptionPower(machines: real, recipe: Recipe): real {
    if NonZero(recipe.consumption) then machines * recipe.consumption.value else 0.0
  }

  /** `adjustPowerPollution`: recompute power from drain and consumption,
      and pollution, for a step that runs a non-part recipe. */
  function AdjustPowerPollution(step: Step, recipe: Recipe, game: Game): (r: Step)
    ensures r.(power := step.power, pollution := step.pollution) == step
    ensures !(NonZero(step.machines) && !recipe.part) ==> r == step
    ensures NonZero(step.machines) && !recipe.part && (NonZero(recipe.drain) || NonZero(recipe.consumption)) ==>
              r.power == Some(DrainPower(step.machines.value, recipe, game)
                              + ConsumptionPower(step.machines.value, recipe))
    ensures !(NonZero(recipe.drain) || NonZero(recipe.consumption)) ==> r.power == step.power
    ensures NonZero(step.machines) && !recipe.part && NonZero(recipe.pollution) ==>
              r.pollution == Some(step.machines.value * recipe.pollution.value)
    ensures !NonZero(recipe.pollution) ==> r.pollution == step.pollution
  {
    if NonZero(step.machines) && !recipe.part then
      step.(power := if NonZero(recipe.drain) || NonZero(recipe.consumption)
                     then Some(DrainPower(step.machines.value, recipe, game)
                               + ConsumptionPower(step.machines.value, recipe))
                     else step.power,
            pollution := if NonZero(recipe.pollution)
                         then Some(step.machines.value * recipe.pollution.value)
                         else step.pollution)
    else step
  }

  /** In Dyson Sphere Program drain is not cumulative: the power is the
      other games' power less the drain of the machines actually running. */
  lemma DysonDrainDiscount(step: Step, recipe: Recipe)
    requires NonZero(step.machines) && !recipe.part && NonZero(recipe.drain)
    ensures AdjustPowerPollution(step, recipe, DysonSphereProgram).power.value
         == AdjustPowerPollution(step, recipe, OtherGame).power.value - step.machines.value * recipe.drain.value
  {
    var m := step.machines.value;
    var d := recipe.drain.value;
    assert (Ceil(m) - m) * d == Ceil(m) * d - m * d;
  }

  /** Outside Dyson Sphere Program, drain is charged on whole machines, so
      power never falls below running every machine's share of drain and
      consumption. */
  lemma PowerCoversRunningMachines(step: Step, recipe: Recipe)
    requires NonZero(step.machines) && step.machines.value > 0.0 && !recipe.part
    requires recipe.drain.Some? && recipe.drain.value > 0.0
    requires recipe.consumption.Some?
    ensures AdjustPowerPollution(step, recipe, OtherGame).power.value
         >= step.machines.value * (recipe.drain.value + recipe.consumption.value)
  {
    var m := step.machines.value;
    var d := recipe.drain.value;
    var c := recipe.consumption.value;
    assert Ceil(m) * d >= m * d;
    assert m * (d + c) == m * d + m * c;
  }

  /** Two and a half machines with drain 5 and consumption 3 draw
      3 * 5 + 2.5 * 3 = 22.5; two machines draw 16. */
  lemma PowerScenario(step: Step, recipe: Recipe)
    requires step.machines == Some(2.0) && !recipe.part
    requires recipe.drain == Some(5.0) && recipe.consumption == Some(3.0)
    ensures AdjustPowerPollution(step, recipe, OtherGame).power == Some(16.0)
    ensures AdjustPowerPollution(step.(machines := Some(2.5)), recipe, OtherGame).power == Some(22.5)
  {
    CeilOfWhole(2);
    assert Ceil(2.5) == 3.0;
  }
}
