/** The records the step normaliser reads and writes: objectives, steps,
    per-item and per-recipe settings, and the read-only dataset catalog.
    Every optional TypeScript field is an `Option`; entity tables are maps. */
module Model {
  import opened Wrappers

  /** How an objective's value is measured. */
  datatype ObjectiveUnit = Items | Belts | Wagons | Machines

  /** What an objective asks the solver to do with its target. */
  datatype ObjectiveType = Output | Input | Maximize | Limit

  /** The only distinction among games that the normaliser draws is
      whether machine drain is cumulative (it is not in Dyson Sphere Program). */
  datatype Game = DysonSphereProgram | OtherGame

  datatype EnergyType = Burner | Electric

  datatype ModuleSettings = ModuleSettings(id: Option<string>, count: Option<real>)

  /** One beacon entry of a recipe's settings: the beacon item, how many
      affect each machine, an explicit overall total, and its modules. */
  datatype BeaconSettings = BeaconSettings(
    id: Option<string>,
    count: Option<real>,
    total: Option<real>,
    modules: Option<seq<ModuleSettings>>)

  /** Machine, fuel, module and beacon choice for a recipe. */
  datatype RecipeSettings = RecipeSettings(
    machineId: Option<string>,
    fuelId: Option<string>,
    modules: Option<seq<ModuleSettings>>,
    beacons: Option<seq<BeaconSettings>>)

  /** A dataset recipe, already adjusted for machine and module effects. */
  datatype Recipe = Recipe(
    id: string,
    time: real,
    inputs: map<string, real>,
    outputs: map<string, real>,
    part: bool,
    isTechnology: bool,
    productivity: real,
    drain: Option<real>,
    consumption: Option<real>,
    pollution: Option<real>)

  /** A production goal. An objective also carries the recipe settings it
      applies when its unit is `Machines`. */
  datatype Objective = Objective(
    id: string,
    targetId: string,
    value: real,
    unit: ObjectiveUnit,
    objectiveType: ObjectiveType,
    settings: RecipeSettings,
    recipe: Option<Recipe>)

  /** `isRecipeObjective`: the target is a recipe exactly when the unit is Machines. */
  predicate IsRecipeObjective(o: Objective) {
    o.unit == Machines
  }

  datatype CargoWagon = CargoWagon(size: real)
  datatype FluidWagon = FluidWagon(capacity: real)

  /** A dataset item; a wagon is itself an item carrying wagon data. */
  datatype Item = Item(
    stack: Option<real>,
    cargoWagon: Option<CargoWagon>,
    fluidWagon: Option<FluidWagon>)

  datatype Machine = Machine(silo: bool)

  datatype Beacon = Beacon(energyType: EnergyType, usage: Option<real>)

  /** The read-only catalog the normaliser consults. */
  datatype Dataset = Dataset(
    itemEntities: map<string, Item>,
    itemRecipeIds: map<string, seq<string>>,
    adjustedRecipe: map<string, Recipe>,
    recipeEntities: map<string, Recipe>,
    machineEntities: map<string, Machine>,
    beaconEntities: map<string, Beacon>,
    cargoWagonEntities: map<string, CargoWagon>,
    fluidWagonEntities: map<string, FluidWagon>)

  /** Per-item transport choice. */
  datatype ItemSettings = ItemSettings(beltId: Option<string>, wagonId: Option<string>)

  /** The global settings the normaliser reads. */
  datatype Settings = Settings(
    beaconReceivers: Option<real>,
    checkedItemIds: set<string>,
    checkedObjectiveIds: set<string>,
    checkedRecipeIds: set<string>)

  /** Scale from the internal per-second rate to the display unit. */
  datatype DisplayRateInfo = DisplayRateInfo(value: real)

  /** One row of the resolved plan. `parents` maps a consuming step id to
      the amount it takes from this item step; `outputs` maps an item id to
      the fraction of that item step's total this recipe step produces. */
  datatype Step = Step(
    id: string,
    itemId: Option<string>,
    recipeId: Option<string>,
    recipeObjectiveId: Option<string>,
    recipe: Option<Recipe>,
    machines: Option<real>,
    items: Option<real>,
    parents: Option<map<string, real>>,
    outputs: Option<map<string, real>>,
    belts: Option<real>,
    wagons: Option<real>,
    power: Option<real>,
    pollution: Option<real>,
    surplus: Option<real>,
    output: Option<real>,
    recipeSettings: Option<RecipeSettings>,
    checked: Option<bool>,
    depth: Option<int>)

  /** `rational.nonzero()` applied through optional chaining: `x?.nonzero()`. */
  predicate NonZero(x: Option<real>) {
    x.Some? && x.value != 0.0
  }

  /** JavaScript truthiness of an optional string: present and not empty. */
  predicate Truthy(s: Option<string>) {
    s.Some? && s.value != ""
  }

  /** The ids of a step sequence, in order. */
  function Ids(steps: seq<Step>): (r: seq<string>)
    ensures |r| == |steps|
    ensures forall i :: 0 <= i < |steps| ==> r[i] == steps[i].id
  {
    seq(|steps|, i requires 0 <= i < |steps| => steps[i].id)
  }

  /** No two steps share an id. */
  predicate UniqueIds(steps: seq<Step>) {
    forall i, j :: 0 <= i < j < |steps| ==> steps[i].id != steps[j].id
  }

  /** Taking out the row at `k` takes out one copy of it. */
  lemma RemoveAt(b: seq<Step>, k: nat)
    requires k < |b|
    ensures multiset(b[..k] + b[k + 1..]) == multiset(b) - multiset{b[k]}
  {
    assert b == b[..k] + [b[k]] + b[k + 1..];
  }

  /** ... and one copy of its id. */
  lemma RemoveIdAt(b: seq<Step>, k: nat)
    requires k < |b|
    ensures multiset(Ids(b)) == multiset(Ids(b[..k] + b[k + 1..])) + multiset{b[k].id}
  {
    var ids := Ids(b);
    assert ids == ids[..k] + [ids[k]] + ids[k + 1..];
    assert Ids(b[..k] + b[k + 1..]) == ids[..k] + ids[k + 1..];
  }

  /** Reordering the steps reorders their ids. */
  lemma {:induction false} IdsPermute(a: seq<Step>, b: seq<Step>)
    requires multiset(a) == multiset(b)
    ensures multiset(Ids(a)) == multiset(Ids(b))
    decreases |a|
  {
    if a != [] {
      var x := a[0];
      assert x in multiset(b);
      var k :| 0 <= k < |b| && b[k] == x;
      var rest := b[..k] + b[k + 1..];
      var tail := a[..0] + a[1..];
      assert multiset(tail) == multiset(rest) by {
        RemoveAt(b, k);
        RemoveAt(a, 0);
      }
      assert multiset(Ids(tail)) == multiset(Ids(rest)) by {
        IdsPermute(tail, rest);
      }
      assert multiset(Ids(b)) == multiset(Ids(rest)) + multiset{x.id} by {
        RemoveIdAt(b, k);
      }
      assert multiset(Ids(a)) == multiset(Ids(tail)) + multiset{x.id} by {
        RemoveIdAt(a, 0);
      }
    }
  }
}
