# Step normalisation in factoriolab's `RateUtility`

This project is a Dafny model of the post-solve step normaliser in factoriolab's
`RateUtility` (`src/app/utilities/rate.utility.ts`), with proofs about it. The
linear-programming solver has already fixed how many machines run each recipe.
The normaliser then turns those counts into the rows the application shows:

- which step consumes how much of each item (`parents`);
- what share of an item's total each recipe produces (`outputs`);
- belts, wagons, beacon totals, power and pollution;
- rates in the user's display unit and the checked flag;
- the order of the rows: a diagram sort, then a consumer hierarchy.

The model is functional. Each step is an immutable `Step` record whose optional
fields are `Option`s and whose per-id tables are `map<string, real>`. Each pass
is a function, or a method when the source's loop is followed key by key.
Rationals are Dafny `real`s, which are exact.

Modules, in pipeline order:

- `Wrappers`: `Option` and map lookups that may miss.
- `Model`: the records.
- `Rationals`: the ceiling and the reciprocal.
- `Normalizer`: `objectiveNormalizedRate`.
- `Flow`: `addEntityValue` and `calculateParentsOutputs`, and the pass that runs them over every step.
- `Enrichers`: `calculateSettings`, `calculateBelts`, `calculateDisplayRate`, `calculateChecked` and `adjustPowerPollution`.
- `Beacons`: `calculateBeacons`.
- `Sankey`: `sortBySankey`.
- `Hierarchy`: `calculateHierarchy` and `sortRecursive`.
- `Pipeline`: `normalizeSteps`.

Behaviour of the code worth noting:

- A Belts objective's value is multiplied by the belt speed (`rate.utility.ts:48-53`). It is not divided by it. Ten belts on a belt of speed 15 normalise to 150 (`Normalizer.BeltScenario`).
- Belts and wagons are cleared for research rows and for rocket-silo rows that do *not* make rocket parts: `isTechnology || (silo && !part)` (`rate.utility.ts:214`).
- `adjustPowerPollution` writes pollution whenever the machines are nonzero, the recipe is not a part and the recipe's pollution is nonzero. That holds even when drain and consumption are both zero, because the pollution guard sits outside the power guard (`rate.utility.ts:98-125`).
- In `calculateHierarchy`, a step whose `parents` map is present but empty gets no parent. The same happens when its one consumer is not a step. JavaScript then files it under the key `"undefined"`, so it is reached only if some step has that id (`Hierarchy.UndefinedKey`).

## Model

| member | source | states |
|---|---|---|
| Model.IdsPermute | src/app/utilities/rate.utility.ts:380-386 | reordering rows reorders their ids: equal multisets of steps give equal multisets of ids |
| Rationals.Ceil | src/app/utilities/rate.utility.ts:106 | `ceil()` is a whole number and the least one not below `x`: `x <= ceil(x) < x + 1` |
| Rationals.Reciprocal | src/app/utilities/rate.utility.ts:45 | `reciprocal()` of a nonzero value times that value is one |
| Rationals.CeilMonotone | src/app/utilities/rate.utility.ts:264 | more machines never need fewer whole machines |
| Normalizer.TechnologyRecipe | src/app/utilities/rate.utility.ts:73-75 | the recipe found is `adjustedRecipe[itemRecipeIds[target][0]]`, and it is found exactly when that recipe exists and is a technology |
| Normalizer.UnitFactor | src/app/utilities/rate.utility.ts:41-70 | the factor per unit: Items gives the reciprocal of the display rate; Belts gives the assigned belt's speed, else 1; Wagons gives `stack * cargo size / display rate`, else `fluid capacity / display rate`, else 1 |
| Normalizer.ObjectiveNormalizedRate | src/app/utilities/rate.utility.ts:26-80 | a Machines or Maximize objective keeps its value; otherwise the value is multiplied by the unit factor, and by the productivity when the first producing recipe is a technology |
| Normalizer.ItemsRoundTrip | src/app/utilities/rate.utility.ts:44-46 | an Items objective normalised and multiplied by the display rate gives back its value |
| Normalizer.TechnologyScales | src/app/utilities/rate.utility.ts:72-79 | on a technology target the rate is `productivity` times the rate without the technology adjustment |
| Normalizer.BeltScenario | src/app/utilities/rate.utility.ts:48-53 | 10 belts' worth on a belt of speed 15 normalises to 150 |
| Flow.AddEntityValue | src/app/utilities/rate.utility.ts:82-96 | the result map exists and has the old keys plus `key`; the entry is the old entry plus `v` (or `v` when new); every other entry is unchanged |
| Flow.AddEntityValueSum | src/app/utilities/rate.utility.ts:82-96 | adding `v` to one entry adds exactly `v` to the map's total |
| Flow.FindItemStep | src/app/utilities/rate.utility.ts:164 | `steps.find` by item id returns the first step of that item, and none when no step has it |
| Flow.ConsumedBy | src/app/utilities/rate.utility.ts:158-168 | only a running step consumes, and only through the first step of the item |
| Flow.ShareOf | src/app/utilities/rate.utility.ts:170-182 | a share exists only for a produced item whose first item step has a nonzero total, and then equals `out * machines / time` divided by that total |
| Flow.ProducedShares | src/app/utilities/rate.utility.ts:170-182 | the shares a step records are keyed by exactly the items it has a share of |
| Flow.MergeAddStep | src/app/utilities/rate.utility.ts:170-182 | crediting one more output key is one more `addEntityValue` |
| Flow.ParentsOutputs | src/app/utilities/rate.utility.ts:157-185 | the reference result of one call changes only `parents` and `outputs`, and only the calling step's `outputs` |
| Flow.ConsumedByFirst | src/app/utilities/rate.utility.ts:162-167 | a nonzero input is charged `in * machines / time` at its item's first step |
| Flow.PartialConsumptionStep | src/app/utilities/rate.utility.ts:161-169 | visiting one input key charges its first item step with `in * quantity` under the step id, or changes nothing when the input is zero or no item step exists |
| Flow.AddConsumption | src/app/utilities/rate.utility.ts:161-169 | the input loop, run key by key, arrives at the full consumption charge |
| Flow.VisitOutput | src/app/utilities/rate.utility.ts:171-182 | one pass of the output loop credits at most the share of that key |
| Flow.AddShares | src/app/utilities/rate.utility.ts:170-183 | the output loop merges exactly the produced shares into the step's `outputs` and changes nothing else |
| Flow.CalculateParentsOutputs | src/app/utilities/rate.utility.ts:157-185 | the key-by-key method equals the reference result |
| Flow.FlowFrom | src/app/utilities/rate.utility.ts:139-141 | the pass over every step keeps the number of steps |
| Flow.FlowFromFrame | src/app/utilities/rate.utility.ts:139-141 | the pass writes only `parents` and `outputs` |
| Flow.CalculateAllParentsOutputs | src/app/utilities/rate.utility.ts:139-141 | the loop over the steps, each call seeing the earlier updates, equals the pass |
| Flow.Conservation | src/app/utilities/rate.utility.ts:157-185 | after the pass an item step's `parents` total is its old total plus everything its consumers take from it |
| Flow.ConsumptionRecorded | src/app/utilities/rate.utility.ts:162-167 | a consuming step's amount is added under its own id; other entries are kept |
| Flow.ConsumptionOnlyWhereConsumed | src/app/utilities/rate.utility.ts:158-168 | an item step that a call does not consume from keeps its `parents` |
| Flow.SharesAttribute | src/app/utilities/rate.utility.ts:176-181 | the shares recorded against an item step add up to what its producers make divided by that step's total, and so to one when the producers make exactly the total |
| Flow.SumShares | src/app/utilities/rate.utility.ts:176-181 | a list of shares of one total adds up to the share of the list's sum |
| Flow.OutputsSettled | src/app/utilities/rate.utility.ts:139-141 | a step's `outputs` are final once the pass has visited it |
| Flow.FlowFromState | src/app/utilities/rate.utility.ts:139-141 | what the pass leaves in a step's `outputs` is what that step's own call writes, given the state the earlier calls left |
| Flow.SharesRecorded | src/app/utilities/rate.utility.ts:170-182 | after the pass each step's `outputs` entry is its old entry plus its share |
| Enrichers.CalculateSettings | src/app/utilities/rate.utility.ts:187-199 | only a step with a non-empty recipe id changes; only `recipeSettings` changes; it takes the recipe objective's settings when there is an objective id, else the recipe's state; a missing entry clears the settings |
| Enrichers.CalculateSettingsIdempotent | src/app/utilities/rate.utility.ts:187-199 | applying the pass twice gives the same step as applying it once |
| Enrichers.SettingsObjectiveFirst | src/app/utilities/rate.utility.ts:193-194 | a step with a recipe objective id gets the same settings whatever the recipe states are |
| Enrichers.SettingsRecipeOtherwise | src/app/utilities/rate.utility.ts:195-196 | a step without a recipe objective id gets the same settings whatever the objective table is |
| Enrichers.CalculateBelts | src/app/utilities/rate.utility.ts:201-237 | only belts and wagons change; suppressed rows lose both; otherwise `belts * belt speed = items`, `wagons * wagon capacity = items`, and other rows keep their values |
| Enrichers.DivideAll | src/app/utilities/rate.utility.ts:290-294 | dividing each consumer amount by the item rate keeps the keys, and the quotient times the rate gives back the amount |
| Enrichers.CalculateDisplayRate | src/app/utilities/rate.utility.ts:288-309 | consumer amounts become fractions of the pre-scale item rate; items, surplus, wagons, pollution and output, when present, are multiplied by the display rate; belts, power and the rest are untouched |
| Enrichers.DivideAllSum | src/app/utilities/rate.utility.ts:290-294 | the fractions total the old total divided by the rate |
| Enrichers.ParentFractionsSumToOne | src/app/utilities/rate.utility.ts:288-296 | when the consumers take the whole item rate, their fractions add up to one |
| Enrichers.CalculateChecked | src/app/utilities/rate.utility.ts:311-320 | the checked flag comes from the item's state first, then the recipe objective's, then the recipe's; only that flag changes |
| Enrichers.CalculateCheckedIdempotent | src/app/utilities/rate.utility.ts:311-320 | recomputing the flag changes nothing |
| Enrichers.CheckedItemFirst | src/app/utilities/rate.utility.ts:312-314 | an item step's flag is the same whatever the checked objective and recipe ids are |
| Enrichers.CheckedObjectiveSecond | src/app/utilities/rate.utility.ts:315-316 | a step with a recipe objective id and no item gets the same flag whatever the checked item and recipe ids are |
| Enrichers.DrainedMachines | src/app/utilities/rate.utility.ts:105-113 | drain is charged on `ceil(m)` machines, a whole number between `m` and `m + 1`; in Dyson Sphere Program only on the idle remainder, between 0 and 1, which brings `m` up to a whole number |
| Enrichers.AdjustPowerPollution | src/app/utilities/rate.utility.ts:98-125 | only power and pollution change, and only for nonzero machines on a non-part recipe; power is recomputed from zero as drain plus consumption when either is nonzero; pollution becomes `m * pollution` when the recipe pollutes, whatever the drain and consumption |
| Enrichers.DysonDrainDiscount | src/app/utilities/rate.utility.ts:105-113 | Dyson Sphere Program power is the other games' power less `m * drain` |
| Enrichers.PowerCoversRunningMachines | src/app/utilities/rate.utility.ts:105-117 | outside Dyson Sphere Program power is at least `m * (drain + consumption)` |
| Enrichers.PowerScenario | src/app/utilities/rate.utility.ts:105-117 | 2 machines with drain 5 and consumption 3 draw 16; 2.5 machines draw 22.5 |
| Beacons.BeaconTotal | src/app/utilities/rate.utility.ts:261-269 | an entry with an id and a count but no total gets `max(ceil(m) * count / receivers, count)`, never below `count`; any other entry keeps its total |
| Beacons.WithTotals | src/app/utilities/rate.utility.ts:259-285 | every entry keeps all its fields except the filled-in total |
| Beacons.CalculateBeacons | src/app/utilities/rate.utility.ts:239-286 | a step with no receivers, no recipe, no machines, a part recipe, no settings or no beacons is unchanged; otherwise the entries get their totals, and the power grows by each electric beacon's `total * usage` (from zero when absent) exactly when some entry draws |
| Beacons.BeaconsFilled | src/app/utilities/rate.utility.ts:239-286 | a step with no receivers, no recipe, no machines, a part recipe, no settings or no beacons is unchanged; otherwise only the beacon entries and the power change, each entry keeps all its fields but gets its filled-in total, and the power grows from its old value (zero when absent) by the draw of the filled entries exactly when some entry draws |
| Beacons.FillBeacon | src/app/utilities/rate.utility.ts:260-283 | one callback fills the entry's total and adds its draw to the power when it is an electric beacon with usage and a total |
| Beacons.Appended | src/app/utilities/rate.utility.ts:277-279 | each further entry adds its own draw to the running total |
| Beacons.BeaconsReachEveryMachine | src/app/utilities/rate.utility.ts:264-268 | the filled total, shared by `receivers` machines, covers `count` beacons for each of the `ceil(m)` machines |
| Sankey.Nodes | src/app/utilities/rate.utility.ts:341-368 | there are no nodes exactly when no step has a non-empty item or recipe id |
| Sankey.StepById | src/app/utilities/rate.utility.ts:334-337 | the id table finds a step exactly for the ids of steps; the step found has that id and no later step does |
| Sankey.FirstNode | src/app/utilities/rate.utility.ts:377 | the node found for a step is a node of that step and no earlier node is; none means the step has no node |
| Sankey.FirstNodeOfStep | src/app/utilities/rate.utility.ts:341-368 | with unique ids, the first node that stands for a step is the step's own item node, else its own recipe node |
| Sankey.WithDepths | src/app/utilities/rate.utility.ts:376-378 | only the depth of each step changes; with unique ids, a step with an item takes the layout depth of its own item node, else one with a recipe takes that of its own recipe node, else it has no depth |
| Sankey.Rank | src/app/utilities/rate.utility.ts:380-384 | a row with an output takes the fixed rank 100000, any other row its diagram depth, 0 when it has none |
| Sankey.RankSort | src/app/utilities/rate.utility.ts:386 | the sorted rows are in non-increasing rank and are a permutation of the input |
| Sankey.InsertStable | src/app/utilities/rate.utility.ts:386 | inserting keeps the order among equal ranks |
| Sankey.RankSortCorrect | src/app/utilities/rate.utility.ts:380-386 | the sort is by non-increasing rank, is a permutation, and is stable |
| Sankey.SortBySankey | src/app/utilities/rate.utility.ts:323-387 | with no nodes or no links the steps are unchanged; otherwise the result is the steps with their depths, sorted by non-increasing rank, stably, as a permutation |
| Sankey.OutputsFirst | src/app/utilities/rate.utility.ts:380-386 | with every layout depth below 100000, no row without an output precedes a row with one |
| Sankey.SortedOutputsFirst | src/app/utilities/rate.utility.ts:380-386 | in any rank-sorted permutation of rows where every row without an output ranks below the output rank, a row with an output is preceded only by rows with outputs |
| Hierarchy.FindById | src/app/utilities/rate.utility.ts:401 | `steps.find` by id returns a step with that id, and none only when no step has it |
| Hierarchy.SoleKey | src/app/utilities/rate.utility.ts:400 | the first key of a one-key map is its only key |
| Hierarchy.Group | src/app/utilities/rate.utility.ts:413-420 | a group holds exactly the steps with that parent key, each once, and any two of them in the order they have among the steps |
| Hierarchy.ParentKey | src/app/utilities/rate.utility.ts:392-411 | the key is the root when `parents` is absent, has a `''` entry or has several keys, or when its one key is the step's own id and a step has that id; a root key implies one of those shapes; an empty map gives the key of `undefined`; any other key is the map's sole key, differs from the step's own id, and is the id of a step |
| Hierarchy.ParentKeyCases | src/app/utilities/rate.utility.ts:392-411 | the parent is the root when `parents` is absent, has a `''` entry, has several keys or names only the step itself; it is the named step when that is another step; it is never assigned when the map is empty or names no step |
| Hierarchy.ChainUnique | src/app/utilities/rate.utility.ts:431-446 | each step is reached along at most one path from the root |
| Hierarchy.ChainBound | src/app/utilities/rate.utility.ts:431-446 | a path from the root is no longer than the list of steps, so the recursion ends |
| Hierarchy.ForestDistinct | src/app/utilities/rate.utility.ts:431-446 | the recursion emits no step twice |
| Hierarchy.Forest | src/app/utilities/rate.utility.ts:431-446 | the recursion emits only steps, emits every step of the group it is given, and starts with that group's first step |
| Hierarchy.ForestPreOrder | src/app/utilities/rate.utility.ts:438-443 | the recursion emits its steps in depth-first pre-order: along the root paths, an ancestor before its descendants and, where two paths part, the earlier sibling first |
| Hierarchy.VisitedPreOrder | src/app/utilities/rate.utility.ts:423 | the walk from the root group emits the reached steps in pre-order |
| Hierarchy.VisitedIffChain | src/app/utilities/rate.utility.ts:423-446 | a step is reached exactly when a path of parent links leads to it from the root group |
| Hierarchy.Leftover | src/app/utilities/rate.utility.ts:426 | the appended steps are exactly those not reached, each as often as in the input, and in input order |
| Hierarchy.CalculateHierarchy | src/app/utilities/rate.utility.ts:389-429 | the result is a permutation of the steps; reached steps come before the steps not reached; the reached steps are in depth-first pre-order; the rest keep their input order |
| Hierarchy.HierarchyPermutes | src/app/utilities/rate.utility.ts:389-429 | the result is a permutation of the input |
| Hierarchy.HierarchyOrder | src/app/utilities/rate.utility.ts:423-428 | the leading rows, as many as the walk visits, are exactly the steps reachable from the root group; the remaining rows are exactly the unreachable steps, in input order |
| Hierarchy.ParentPrecedes | src/app/utilities/rate.utility.ts:439-442 | a reached step comes before every step of its group |
| Hierarchy.SiblingOrder | src/app/utilities/rate.utility.ts:413-443 | any two steps of one group appear in the result in their input order |
| Hierarchy.SubtreeFollows | src/app/utilities/rate.utility.ts:438-443 | no step of a subtree comes at or before its top, and every row between the top and a step of its subtree belongs to the subtree: each reached step is followed directly by its whole subtree |
| Hierarchy.DanglingLeftOver | src/app/utilities/rate.utility.ts:399-426 | a step whose one consumer is not a step is not reached and is appended |
| Hierarchy.WellFormedPermutation | src/app/utilities/rate.utility.ts:386 | sorting keeps ids unique and non-empty |
| Pipeline.ToEntities | src/app/utilities/rate.utility.ts:143 | every objective's id is a key, and each key maps to one of the objectives with that id |
| Pipeline.ToEntitiesLast | src/app/utilities/rate.utility.ts:143 | when several objectives share an id, the table holds the last of them |
| Pipeline.Enrich | src/app/utilities/rate.utility.ts:145-151 | the per-step passes keep the id, the item and recipe ids, `outputs` and the depth, and the keys of `parents` |
| Pipeline.Normalized | src/app/utilities/rate.utility.ts:127-155 | the whole pass returns as many rows as it was given, with the same ids |
| Pipeline.NormalizeSteps | src/app/utilities/rate.utility.ts:127-155 | the method that runs the passes step by step equals the composed pass and keeps the ids |
| Pipeline.NormalizedRows | src/app/utilities/rate.utility.ts:127-155 | every output row is the fully processed input row with its id, apart from its depth |
| Pipeline.SortKeepsIds | src/app/utilities/rate.utility.ts:153 | the sankey sort keeps the step ids unique and non-empty and keeps the multiset of ids |
| Pipeline.BeltsRoundTrip | src/app/utilities/rate.utility.ts:48-53 | a Belts objective normalised and then counted in belts gives back its value |
| Pipeline.ItemsDisplayRoundTrip | src/app/utilities/rate.utility.ts:44-46 | an Items objective normalised and then scaled to the display rate gives back its value |
| Pipeline.WagonsRoundTrip | src/app/utilities/rate.utility.ts:55-63 | a Wagons objective on a stackable item, normalised, counted in wagons and scaled to the display rate gives back its value |

## Left out

- The sankey layout (`rate.utility.ts:370-373`) comes from the d3-sankey library, which is not part of this model and lays out in floating point. The depth it gives each node is a parameter of the model: a map from node id to depth. The nodes and links are modelled; the layout is not.
- The `Rational` class is not part of this model. Exact `real` arithmetic stands in for it. A division by zero would throw in the source; each one is excluded by a precondition.
- `copy` (`rate.utility.ts:448-452`) clones the steps so that the caller's array is not mutated. The model's values are immutable, so copying is the identity and no member models it.
- `copy` clones each step and its `parents` map but not its `outputs` map. When a step arrives with `outputs` already set, `addEntityValue` (`rate.utility.ts:91-94`) therefore writes into the caller's map as well. The model has no shared references, so it does not model this aliasing: the caller's steps never change.
- Every table the source indexes without a guard must contain the key. This applies to `itemsState`, the dataset's entity tables, `beltSpeed` and the sankey id table. It is a precondition (`BeltsDefined`, `BeaconsDefined`, `NormalizeDefined`, `SankeyDefined`). In the source a missing key throws.
- Hierarchy.WellFormed: the hierarchy requires unique, non-empty step ids. With a duplicate id, or an id equal to the root key `''`, `sortRecursive` can revisit a group and never end.
- `toEntities` lives in a helper file that is not part of this model. `Pipeline.ToEntities` assumes it keys the objectives by id, with later entries replacing earlier ones.
- `calculateSettings` assigns the objective record itself as the step's recipe settings (`rate.utility.ts:194`). The model keeps the objective's recipe-settings part, `Objective.settings`.
- JavaScript object-key corner cases are not modelled, such as keys that clash with `Object.prototype` members. Neither is the enumeration order of `Object.keys`. `Flow.CalculateParentsOutputs` reaches the same result in any key order.
- Flow.Conservation: states the `parents` total only. It does not state per-entry values across the whole pass; `Flow.ConsumptionRecorded` gives those for one call.
- Sankey.SortBySankey: the node and link lists are built as in the source. Only their emptiness matters to the model, because the layout that would read them is a parameter.
