/** Conversion of an objective's value, given in the unit the user chose,
    into the solver's internal rate (items per second). */
module Normalizer {
  import opened Wrappers
  import opened Model
  import opened Rationals

  /** The unit and type for which the value is already in solver units. */
  predicate PassesThrough(o: Objective) {
    o.unit == Machines || o.objectiveType == Maximize
  }

  /** The wagon assigned to the objective's target, when one is (`if (wagonId)`). */
  predicate HasWagon(o: Objective, itemsState: map<string, ItemSettings>)
    requires o.targetId in itemsState
  {
    Truthy(itemsState[o.targetId].wagonId)
  }

  /** Stackable target carried by a cargo wagon. */
  predicate RidesCargoWagon(o: Objective, itemsState: map<string, ItemSettings>, itemEntities: map<string, Item>)
    requires o.targetId in itemsState && HasWagon(o, itemsState)
    requires o.targetId in itemEntities && itemsState[o.targetId].wagonId.value in itemEntities
  {
    itemEntities[o.targetId].stack.Some?
    && itemEntities[itemsState[o.targetId].wagonId.value].cargoWagon.Some?
  }

  /** Fluid wagon assigned (only consulted when the cargo case does not apply). */
  predicate RidesFluidWagon(o: Objective, itemsState: map<string, ItemSettings>, itemEntities: map<string, Item>)
    requires o.targetId in itemsState && HasWagon(o, itemsState)
    requires itemsState[o.targetId].wagonId.value in itemEntities
  {
    itemEntities[itemsState[o.targetId].wagonId.value].fluidWagon.Some?
  }

  /** Everything the normaliser looks up without a guard, and every divisor
      it uses, for the branch the objective takes. */
  predicate NormalizeDefined(
    o: Objective,
    itemsState: map<string, ItemSettings>,
    beltSpeed: map<string, real>,
    dispRate: DisplayRateInfo,
    data: Dataset)
  {
    PassesThrough(o)
    || (o.targetId in data.itemRecipeIds && FactorDefined(o, itemsState, beltSpeed, dispRate, data.itemEntities))
  }

  /** The lookups and divisors of the unit-dependent factor. */
  predicate FactorDefined(
    o: Objective,
    itemsState: map<string, ItemSettings>,
    beltSpeed: map<string, real>,
    dispRate: DisplayRateInfo,
    itemEntities: map<string, Item>)
  {
    && (o.unit == Items ==> dispRate.value != 0.0)
    && (o.unit == Belts ==>
          && o.targetId in itemsState
          && (Truthy(itemsState[o.targetId].beltId) ==> itemsState[o.targetId].beltId.value in beltSpeed))
    && (o.unit == Wagons ==>
          && o.targetId in itemsState
          && (HasWagon(o, itemsState) ==>
                && o.targetId in itemEntities
                && itemsState[o.targetId].wagonId.value in itemEntities
                && (RidesCargoWagon(o, itemsState, itemEntities) || RidesFluidWagon(o, itemsState, itemEntities)
                    ==> dispRate.value != 0.0)))
  }

  /** The first recipe producing the target, when it is a technology. */
  function TechnologyRecipe(o: Objective, data: Dataset): (r: Option<Recipe>)
    requires o.targetId in data.itemRecipeIds
    ensures r.Some? <==>
      (&& |data.itemRecipeIds[o.targetId]| > 0
       && data.itemRecipeIds[o.targetId][0] in data.adjustedRecipe
       && data.adjustedRecipe[data.itemRecipeIds[o.targetId][0]].isTechnology)
    ensures r.Some? ==> r.value == data.adjustedRecipe[data.itemRecipeIds[o.targetId][0]] && r.value.isTechnology
  {
    var ids := data.itemRecipeIds[o.targetId];
    if |ids| > 0 && ids[0] in data.adjustedRecipe && data.adjustedRecipe[ids[0]].isTechnology
    then Some(data.adjustedRecipe[ids[0]])
    else None
  }

  /** The unit-dependent factor before the technology adjustment. */
  function UnitFactor(
    o: Objective,
    itemsState: map<string, ItemSettings>,
    beltSpeed: map<string, real>,
    dispRate: DisplayRateInfo,
    itemEntities: map<string, Item>): (f: real)
    requires !PassesThrough(o)
    requires FactorDefined(o, itemsState, beltSpeed, dispRate, itemEntities)
    ensures o.unit == Items ==> f * dispRate.value == 1.0
    ensures o.unit == Belts && Truthy(itemsState[o.targetId].beltId) ==>
      f == beltSpeed[itemsState[o.targetId].beltId.value]
    ensures o.unit == Wagons && HasWagon(o, itemsState) && RidesCargoWagon(o, itemsState, itemEntities) ==>
      f * dispRate.value
        == itemEntities[o.targetId].stack.value
           * itemEntities[itemsState[o.targetId].wagonId.value].cargoWagon.value.size
    ensures (o.unit == Wagons && HasWagon(o, itemsState) && !RidesCargoWagon(o, itemsState, itemEntities)
             && RidesFluidWagon(o, itemsState, itemEntities)) ==>
      f * dispRate.value == itemEntities[itemsState[o.targetId].wagonId.value].fluidWagon.value.capacity
    ensures o.unit == Belts && !Truthy(itemsState[o.targetId].beltId) ==> f == 1.0
    ensures o.unit == Wagons && !HasWagon(o, itemsState) ==> f == 1.0
    ensures (o.unit == Wagons && HasWagon(o, itemsState)
             && !RidesCargoWagon(o, itemsState, itemEntities) && !RidesFluidWagon(o, itemsState, itemEntities)) ==> f == 1.0
  {
    match o.unit
    case Items => Reciprocal(dispRate.value)
    case Belts =>
      var beltId := itemsState[o.targetId].beltId;
      if Truthy(beltId) then beltSpeed[beltId.value] else 1.0
    case Wagons =>
      if !HasWagon(o, itemsState) then 1.0
      else
        var item := itemEntities[o.targetId];
        var wagon := itemEntities[itemsState[o.targetId].wagonId.value];
        if RidesCargoWagon(o, itemsState, itemEntities) then
          item.stack.value * wagon.cargoWagon.value.size / dispRate.value
        else if RidesFluidWagon(o, itemsState, itemEntities) then
          wagon.fluidWagon.value.capacity / dispRate.value
        else 1.0
    case Machines => 1.0
  }

  /** `objectiveNormalizedRate`: the objective's value in internal units. */
  function ObjectiveNormalizedRate(
    o: Objective,
    itemsState: map<string, ItemSettings>,
    beltSpeed: map<string, real>,
    dispRate: DisplayRateInfo,
    data: Dataset): (r: real)
    requires NormalizeDefined(o, itemsState, beltSpeed, dispRate, data)
    ensures PassesThrough(o) ==> r == o.value
    ensures !PassesThrough(o) && TechnologyRecipe(o, data).None? ==>
      r == o.value * UnitFactor(o, itemsState, beltSpeed, dispRate, data.itemEntities)
    ensures !PassesThrough(o) && TechnologyRecipe(o, data).Some? ==>
      r == o.value * UnitFactor(o, itemsState, beltSpeed, dispRate, data.itemEntities)
                   * TechnologyRecipe(o, data).value.productivity
  {
    if PassesThrough(o) then o.value
    else
      var factor := UnitFactor(o, itemsState, beltSpeed, dispRate, data.itemEntities);
      var tech := TechnologyRecipe(o, data);
      // The technology's productivity multiplies the factor.
      if tech.Some? then o.value * factor * tech.value.productivity else o.value * factor
  }

  /** An Items objective on an ordinary item, displayed again, is its own value. */
  lemma ItemsRoundTrip(
    o: Objective,
    itemsState: map<string, ItemSettings>,
    beltSpeed: map<string, real>,
    dispRate: DisplayRateInfo,
    data: Dataset)
    requires NormalizeDefined(o, itemsState, beltSpeed, dispRate, data)
    requires o.unit == Items && o.objectiveType != Maximize
    requires TechnologyRecipe(o, data).None?
    ensures ObjectiveNormalizedRate(o, itemsState, beltSpeed, dispRate, data) * dispRate.value == o.value
  {
    var f := UnitFactor(o, itemsState, beltSpeed, dispRate, data.itemEntities);
    assert o.value * f * dispRate.value == o.value * (f * dispRate.value);
  }

  /** Technology productivity scales the rate multiplicatively: the same
      objective on a technology target is `productivity` times the rate it
      would have on a non-technology target. */
  lemma TechnologyScales(
    o: Objective,
    itemsState: map<string, ItemSettings>,
    beltSpeed: map<string, real>,
    dispRate: DisplayRateInfo,
    data: Dataset,
    plain: Dataset)
    requires NormalizeDefined(o, itemsState, beltSpeed, dispRate, data)
    requires !PassesThrough(o)
    requires TechnologyRecipe(o, data).Some?
    requires plain == data.(itemRecipeIds := data.itemRecipeIds[o.targetId := []])
    ensures NormalizeDefined(o, itemsState, beltSpeed, dispRate, plain)
    ensures ObjectiveNormalizedRate(o, itemsState, beltSpeed, dispRate, data)
         == ObjectiveNormalizedRate(o, itemsState, beltSpeed, dispRate, plain)
            * TechnologyRecipe(o, data).value.productivity
  {
    var f := UnitFactor(o, itemsState, beltSpeed, dispRate, data.itemEntities);
    assert f == UnitFactor(o, itemsState, beltSpeed, dispRate, plain.itemEntities);
    assert TechnologyRecipe(o, plain).None?;
    var p := TechnologyRecipe(o, data).value.productivity;
    assert o.value * (f * p) == (o.value * f) * p;
  }

  /** Ten belts' worth of an item on a belt of speed 15: the code multiplies
      by the belt speed, giving 150 items per second. */
  lemma BeltScenario(
    o: Objective,
    itemsState: map<string, ItemSettings>,
    beltSpeed: map<string, real>,
    dispRate: DisplayRateInfo,
    data: Dataset)
    requires o.unit == Belts && o.objectiveType == Output && o.value == 10.0
    requires o.targetId in itemsState && itemsState[o.targetId].beltId == Some("belt")
    requires beltSpeed == map["belt" := 15.0]
    requires o.targetId in data.itemRecipeIds && data.itemRecipeIds[o.targetId] == []
    ensures NormalizeDefined(o, itemsState, beltSpeed, dispRate, data)
    ensures ObjectiveNormalizedRate(o, itemsState, beltSpeed, dispRate, data) == 150.0
  {
  }
}
