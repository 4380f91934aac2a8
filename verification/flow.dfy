/** Flow accumulation: each running recipe step records what it consumes
    in the consumed items' `parents` maps and what fraction of each
    produced item it supplies in its own `outputs` map. */
module Flow {
  import opened Wrappers
  import opened Model

  /** `addEntityValue`: add `v` to the entry `key` of an optional map,
      creating the map or the entry when missing. */
  function AddEntityValue(m: Option<map<string, real>>, key: string, v: real): (r: Option<map<string, real>>)
    ensures r.Some?
    ensures r.value.Keys == m.GetOr(map[]).Keys + {key}
    ensures r.value[key] == Get(m.GetOr(map[]), key).GetOr(0.0) + v
    ensures forall k :: k in m.GetOr(map[]) && k != key ==> r.value[k] == m.value[k]
  {
    if m.None? then Some(map[key := v])
    else if key in m.value then Some(m.value[key := m.value[key] + v])
    else Some(m.value[key := v])
  }

  /** The total of a map's values. */
  ghost function MapSum(m: map<string, real>): real
    decreases |m|
  {
    if m == map[] then 0.0
    else
      var k :| k in m;
      m[k] + MapSum(m - {k})
  }

  /** Any key may be taken out first: the total does not depend on the order. */
  lemma {:induction false} MapSumRemove(m: map<string, real>, k: string)
    requires k in m
    ensures MapSum(m) == m[k] + MapSum(m - {k})
    decreases |m|
  {
    var k' :| k' in m && MapSum(m) == m[k'] + MapSum(m - {k'});
    if k' != k {
      var m1 := m - {k'};
      var m2 := m - {k};
      assert |m1| < |m| by { assert m1.Keys < m.Keys; }
      assert |m2| < |m| by { assert m2.Keys < m.Keys; }
      MapSumRemove(m1, k);
      MapSumRemove(m2, k');
      assert m1 - {k} == m2 - {k'};
    }
  }

  /** Replacing one entry changes the total by the difference. */
  lemma MapSumUpdate(m: map<string, real>, k: string, v: real)
    ensures MapSum(m[k := v]) == MapSum(m) - Get(m, k).GetOr(0.0) + v
  {
    var m' := m[k := v];
    MapSumRemove(m', k);
    assert m' - {k} == m - {k};
    if k in m {
      MapSumRemove(m, k);
    } else {
      assert m - {k} == m;
    }
  }

  /** Conservation: adding `v` to an entry adds exactly `v` to the total. */
  lemma AddEntityValueSum(m: Option<map<string, real>>, key: string, v: real)
    ensures MapSum(AddEntityValue(m, key, v).value) == MapSum(m.GetOr(map[])) + v
  {
    var base := m.GetOr(map[]);
    MapSumUpdate(base, key, v + Get(base, key).GetOr(0.0));
    assert AddEntityValue(m, key, v).value == base[key := Get(base, key).GetOr(0.0) + v];
  }

  /** `steps.find((s) => s.itemId === itemId)`: the first step of the item. */
  function FindItemStep(steps: seq<Step>, itemId: string): (r: Option<nat>)
    ensures r.Some? ==> r.value < |steps| && steps[r.value].itemId == Some(itemId)
    ensures r.Some? ==> forall j :: 0 <= j < r.value ==> steps[j].itemId != Some(itemId)
    ensures r.None? ==> forall j :: 0 <= j < |steps| ==> steps[j].itemId != Some(itemId)
  {
    if steps == [] then None
    else if steps[0].itemId == Some(itemId) then Some(0)
    else
      match FindItemStep(steps[1..], itemId)
      case None => None
      case Some(j) => Some(j + 1)
  }

  /** Two steps that differ at most in their flow fields, `parents` and
      `outputs`. */
  predicate SameStepFrame(a: Step, b: Step) {
    && a.id == b.id && a.itemId == b.itemId && a.recipeId == b.recipeId
    && a.recipeObjectiveId == b.recipeObjectiveId && a.recipe == b.recipe
    && a.machines == b.machines && a.items == b.items && a.belts == b.belts
    && a.wagons == b.wagons && a.power == b.power && a.pollution == b.pollution
    && a.surplus == b.surplus && a.output == b.output && a.recipeSettings == b.recipeSettings
    && a.checked == b.checked && a.depth == b.depth
  }

  /** Two step sequences that differ at most in their flow fields. */
  predicate SameFrame(a: seq<Step>, b: seq<Step>) {
    |a| == |b| && forall j :: 0 <= j < |a| ==> SameStepFrame(a[j], b[j])
  }

  /** Two step sequences that agree on every field accumulation reads. */
  predicate SameReads(a: seq<Step>, b: seq<Step>) {
    && |a| == |b|
    && forall j :: 0 <= j < |a| ==>
         && a[j].id == b[j].id && a[j].itemId == b[j].itemId && a[j].recipe == b[j].recipe
         && a[j].machines == b[j].machines && a[j].items == b[j].items
  }

  /** Equal frames agree on what accumulation reads. */
  lemma SameFrameReads(a: seq<Step>, b: seq<Step>)
    requires SameFrame(a, b)
    ensures SameReads(a, b)
  {
    forall j | 0 <= j < |a|
      ensures a[j].id == b[j].id && a[j].itemId == b[j].itemId && a[j].recipe == b[j].recipe
      ensures a[j].machines == b[j].machines && a[j].items == b[j].items
    {
      assert SameStepFrame(a[j], b[j]);
    }
  }

  /** The search for an item step only looks at item ids. */
  lemma FindItemStepFrame(a: seq<Step>, b: seq<Step>, itemId: string)
    requires SameReads(a, b)
    ensures FindItemStep(a, itemId) == FindItemStep(b, itemId)
  {
    var ra, rb := FindItemStep(a, itemId), FindItemStep(b, itemId);
    if ra.Some? {
      assert b[ra.value].itemId == a[ra.value].itemId;
    }
    if rb.Some? {
      assert a[rb.value].itemId == b[rb.value].itemId;
    }
  }

  /** A step that runs a recipe on a nonzero number of machines. */
  predicate Running(s: Step) {
    s.recipe.Some? && NonZero(s.machines)
  }

  /** Every running step's recipe has a nonzero cycle time (the divisor of
      `machines.div(recipe.time)`). */
  predicate FlowDefined(steps: seq<Step>) {
    forall j :: 0 <= j < |steps| && Running(steps[j]) ==> steps[j].recipe.value.time != 0.0
  }

  /** Recipe cycles completed per second: `machines / time`. */
  function Quantity(s: Step): real
    requires Running(s) && s.recipe.value.time != 0.0
  {
    s.machines.value / s.recipe.value.time
  }

  /** A per-cycle recipe amount at `quantity` cycles per second, as a rate. */
  function PerSecond(perCycle: real, quantity: real): real {
    perCycle * quantity
  }

  /** How much of item step `j`'s item the step `i` consumes, when it
      consumes any through `j`: nonzero inputs are charged to the first step
      of the item, and only that one. */
  function ConsumedBy(steps: seq<Step>, i: nat, j: nat): (r: Option<real>)
    requires i < |steps| && j < |steps| && FlowDefined(steps)
    ensures r.Some? ==> Running(steps[i]) && steps[j].itemId.Some?
    ensures r.Some? ==> FindItemStep(steps, steps[j].itemId.value) == Some(j)
  {
    if Running(steps[i]) && steps[j].itemId.Some? then
      var k := steps[j].itemId.value;
      RunConsumption(steps[i].recipe.value.inputs, Quantity(steps[i]), k, FindItemStep(steps, k) == Some(j))
    else None
  }

  /** What a recipe with these inputs, run `quantity` times per second,
      consumes of item `k` through a step; `charged` says whether that step
      is the one the item is charged to. */
  function RunConsumption(inputs: map<string, real>, quantity: real, k: string, charged: bool): (r: Option<real>)
    ensures r.Some? ==> charged && k in inputs && inputs[k] != 0.0
  {
    if charged && k in inputs && inputs[k] != 0.0 then Some(PerSecond(inputs[k], quantity)) else None
  }

  /** The fraction of `total` that `amount` makes up. */
  function Share(amount: real, total: real): real
    requires total != 0.0
  {
    amount / total
  }

  /** A share of a total, taken of that total, is the amount again. */
  lemma ShareScales(amount: real, total: real)
    requires total != 0.0
    ensures Share(amount, total) * total == amount
  {
  }

  /** The fraction of the first `itemId` step's total that step `i`
      supplies, when it produces a nonzero amount of that item and the
      item step has a nonzero total. */
  function ShareOf(steps: seq<Step>, i: nat, itemId: string): (r: Option<real>)
    requires i < |steps| && FlowDefined(steps)
    ensures r.Some? ==> Running(steps[i]) && itemId in steps[i].recipe.value.outputs
    ensures r.Some? ==>
      var j := FindItemStep(steps, itemId);
      j.Some? && NonZero(steps[j.value].items)
      && r.value == Share(PerSecond(steps[i].recipe.value.outputs[itemId], Quantity(steps[i])), steps[j.value].items.value)
  {
    if !Running(steps[i]) then None
    else
      var j := FindItemStep(steps, itemId);
      if j.Some? then RunShare(steps[i].recipe.value, Quantity(steps[i]), itemId, steps[j.value].items) else None
  }

  /** The share of an item step's total `items` that a recipe completing
      `quantity` cycles per second supplies of `itemId`. */
  function RunShare(recipe: Recipe, quantity: real, itemId: string, items: Option<real>): Option<real> {
    if itemId in recipe.outputs && recipe.outputs[itemId] != 0.0 && NonZero(items)
    then Some(Share(PerSecond(recipe.outputs[itemId], quantity), items.value))
    else None
  }

  /** A nonzero output is credited as a share of its first item step's
      nonzero total. */
  lemma ShareOfFirst(steps: seq<Step>, i: nat, k: string, j: nat, amount: real, share: real)
    requires i < |steps| && FlowDefined(steps) && Running(steps[i])
    requires k in steps[i].recipe.value.outputs && steps[i].recipe.value.outputs[k] != 0.0
    requires FindItemStep(steps, k) == Some(j) && NonZero(steps[j].items)
    requires amount == PerSecond(steps[i].recipe.value.outputs[k], Quantity(steps[i]))
    requires share == Share(amount, steps[j].items.value)
    ensures ShareOf(steps, i, k) == Some(share)
  {
  }

  /** Every produced share of step `i`, keyed by item id. */
  function ProducedShares(steps: seq<Step>, i: nat): (shares: map<string, real>)
    requires i < |steps| && FlowDefined(steps)
    ensures forall k :: k in shares <==> ShareOf(steps, i, k).Some?
    ensures forall k :: k in shares ==> shares[k] == ShareOf(steps, i, k).value
  {
    if !Running(steps[i]) then map[]
    else
      var outs := steps[i].recipe.value.outputs;
      map k | k in outs && ShareOf(steps, i, k).Some? :: ShareOf(steps, i, k).value
  }

  /** `restrict` of a map to a set of keys. */
  function Restrict(m: map<string, real>, keys: set<string>): (r: map<string, real>)
    ensures r.Keys == m.Keys * keys
    ensures forall k :: k in r ==> r[k] == m[k]
  {
    map k | k in m && k in keys :: m[k]
  }

  /** Add every entry of `adds` into `m` as repeated `AddEntityValue` would;
      no additions leave `m` as it was (absent stays absent). */
  function MergeAdd(m: Option<map<string, real>>, adds: map<string, real>): (r: Option<map<string, real>>)
    ensures adds == map[] ==> r == m
    ensures adds != map[] ==> r.Some? && r.value.Keys == m.GetOr(map[]).Keys + adds.Keys
    ensures adds != map[] ==> forall k :: k in r.value ==>
      r.value[k] == Get(m.GetOr(map[]), k).GetOr(0.0) + Get(adds, k).GetOr(0.0)
  {
    if adds == map[] then m
    else
      var base := m.GetOr(map[]);
      Some(map k | k in base.Keys + adds.Keys :: Get(base, k).GetOr(0.0) + Get(adds, k).GetOr(0.0))
  }

  /** Adding one more entry to a merge is one more `AddEntityValue`. */
  lemma MergeAddStep(m: Option<map<string, real>>, adds: map<string, real>, k: string, v: real)
    requires k !in adds
    ensures MergeAdd(m, adds[k := v]) == AddEntityValue(MergeAdd(m, adds), k, v)
  {
    var lhs, rhs := MergeAdd(m, adds[k := v]), AddEntityValue(MergeAdd(m, adds), k, v);
    assert rhs.value.Keys == lhs.value.Keys by {
      assert lhs.value.Keys == m.GetOr(map[]).Keys + adds.Keys + {k};
      if adds == map[] {
        assert rhs == AddEntityValue(m, k, v);
      } else {
        assert MergeAdd(m, adds).Some?;
      }
    }
    forall x | x in lhs.value
      ensures lhs.value[x] == rhs.value[x]
    {
      MergeAddStepAt(m, adds, k, v, x);
    }
    assert lhs.value == rhs.value;
  }

  /** `MergeAddStep` at one key. */
  lemma MergeAddStepAt(m: Option<map<string, real>>, adds: map<string, real>, k: string, v: real, x: string)
    requires k !in adds && MergeAdd(m, adds[k := v]).Some? && x in MergeAdd(m, adds[k := v]).value
    ensures AddEntityValue(MergeAdd(m, adds), k, v).value[x] == MergeAdd(m, adds[k := v]).value[x]
  {
    var base := m.GetOr(map[]);
    var lhs := MergeAdd(m, adds[k := v]).value[x];
    assert lhs == Get(base, x).GetOr(0.0) + Get(adds[k := v], x).GetOr(0.0);
    if x == k {
      assert lhs == Get(base, k).GetOr(0.0) + v;
    } else if adds == map[] {
      assert x in base;
    } else {
      assert x in MergeAdd(m, adds).value;
    }
  }

  /** Record in `s.parents` that step `consumer` consumes `a`, if it consumes anything. */
  function Charge(s: Step, consumer: string, a: Option<real>): (r: Step)
    ensures SameStepFrame(r, s) && r.outputs == s.outputs
    ensures a.None? ==> r == s
  {
    match a
    case Some(x) => s.(parents := AddEntityValue(s.parents, consumer, x))
    case None => s
  }

  /** The consumption part of `calculateParentsOutputs` for step `i`. */
  function WithConsumption(steps: seq<Step>, i: nat): (r: seq<Step>)
    requires i < |steps| && FlowDefined(steps)
    ensures SameFrame(r, steps)
    ensures forall j :: 0 <= j < |steps| ==> r[j].outputs == steps[j].outputs
  {
    seq(|steps|, j requires 0 <= j < |steps| => Charge(steps[j], steps[i].id, ConsumedBy(steps, i, j)))
  }

  /** The consumption charged once only the input keys in `done` are visited. */
  function PartialConsumption(steps: seq<Step>, i: nat, done: set<string>): (r: seq<Step>)
    requires i < |steps| && FlowDefined(steps)
    ensures SameFrame(r, steps)
  {
    seq(|steps|, j requires 0 <= j < |steps| =>
      Charge(steps[j], steps[i].id,
             if steps[j].itemId.Some? && steps[j].itemId.value in done then ConsumedBy(steps, i, j) else None))
  }

  /** Reference definition of `calculateParentsOutputs` for step `i`:
      every consumed item step gains the consumption under this step's id,
      and this step's `outputs` gain its produced shares. */
  function ParentsOutputs(steps: seq<Step>, i: nat): (r: seq<Step>)
    requires i < |steps| && FlowDefined(steps)
    ensures SameFrame(r, steps)
    ensures forall j :: 0 <= j < |steps| && j != i ==> r[j].outputs == steps[j].outputs
  {
    var c := WithConsumption(steps, i);
    c[i := c[i].(outputs := MergeAdd(steps[i].outputs, ProducedShares(steps, i)))]
  }

  /** A nonzero input is charged to its item's first step. */
  lemma ConsumedByFirst(steps: seq<Step>, i: nat, k: string, j: nat)
    requires i < |steps| && j < |steps| && FlowDefined(steps) && Running(steps[i])
    requires k in steps[i].recipe.value.inputs && steps[i].recipe.value.inputs[k] != 0.0
    requires FindItemStep(steps, k) == Some(j)
    ensures ConsumedBy(steps, i, j) == Some(PerSecond(steps[i].recipe.value.inputs[k], Quantity(steps[i])))
  {
    assert steps[j].itemId == Some(k);
  }

  /** Visiting one more input key `k` changes the partial consumption of
      item step `j` only if `j` is the first step of `k`. */
  lemma PartialConsumptionAt(steps: seq<Step>, i: nat, done: set<string>, k: string, j: nat)
    requires i < |steps| && j < |steps| && FlowDefined(steps) && Running(steps[i])
    requires k in steps[i].recipe.value.inputs && k !in done
    ensures var ins := steps[i].recipe.value.inputs;
            PartialConsumption(steps, i, done + {k})[j]
              == if ins[k] != 0.0 && FindItemStep(steps, k) == Some(j)
                 then Charge(PartialConsumption(steps, i, done)[j], steps[i].id, Some(PerSecond(ins[k], Quantity(steps[i]))))
                 else PartialConsumption(steps, i, done)[j]
  {
    var ins := steps[i].recipe.value.inputs;
    var next := PartialConsumption(steps, i, done + {k})[j];
    var cur := PartialConsumption(steps, i, done)[j];
    if steps[j].itemId == Some(k) {
      assert cur == steps[j];
      if ins[k] != 0.0 && FindItemStep(steps, k) == Some(j) {
        ConsumedByFirst(steps, i, k, j);
        assert next == Charge(steps[j], steps[i].id, ConsumedBy(steps, i, j));
      } else {
        assert ConsumedBy(steps, i, j).None?;
        assert next == steps[j];
      }
    } else {
      var inNext := steps[j].itemId.Some? && steps[j].itemId.value in done + {k};
      var inCur := steps[j].itemId.Some? && steps[j].itemId.value in done;
      assert inCur == inNext;
      assert FindItemStep(steps, k) != Some(j);
    }
  }

  /** Visiting one more input key charges at most its first item step. */
  lemma PartialConsumptionStep(steps: seq<Step>, i: nat, done: set<string>, k: string,
                               cur: seq<Step>, amount: real)
    requires i < |steps| && FlowDefined(steps) && Running(steps[i])
    requires k in steps[i].recipe.value.inputs && k !in done
    requires cur == PartialConsumption(steps, i, done)
    requires amount == PerSecond(steps[i].recipe.value.inputs[k], Quantity(steps[i]))
    ensures steps[i].recipe.value.inputs[k] == 0.0 || FindItemStep(steps, k).None? ==>
      PartialConsumption(steps, i, done + {k}) == cur
    ensures steps[i].recipe.value.inputs[k] != 0.0 && FindItemStep(steps, k).Some? ==>
      var j := FindItemStep(steps, k).value;
      PartialConsumption(steps, i, done + {k})
        == cur[j := cur[j].(parents := AddEntityValue(cur[j].parents, steps[i].id, amount))]
  {
    forall j | 0 <= j < |steps| {
      PartialConsumptionAt(steps, i, done, k, j);
    }
  }

  /** Before any input key nothing is charged; after all of them the
      charge is the full consumption. */
  lemma PartialConsumptionEnds(steps: seq<Step>, i: nat)
    requires i < |steps| && FlowDefined(steps) && Running(steps[i])
    ensures PartialConsumption(steps, i, {}) == steps
    ensures PartialConsumption(steps, i, steps[i].recipe.value.inputs.Keys) == WithConsumption(steps, i)
  {
    var all := steps[i].recipe.value.inputs.Keys;
    forall j | 0 <= j < |steps|
      ensures PartialConsumption(steps, i, all)[j] == WithConsumption(steps, i)[j]
    {
      if ConsumedBy(steps, i, j).Some? {
        assert steps[j].itemId.value in all;
      }
    }
  }

  /** The input loop of `calculateParentsOutputs`. */
  method AddConsumption(steps: seq<Step>, i: nat) returns (r: seq<Step>)
    requires i < |steps| && FlowDefined(steps) && Running(steps[i])
    ensures r == WithConsumption(steps, i)
  {
    r := steps;
    var step := steps[i];
    var recipe := step.recipe.value;
    var quantity := Quantity(step);
    var todo := recipe.inputs.Keys;
    ghost var done: set<string> := {};
    PartialConsumptionEnds(steps, i);
    while todo != {}
      invariant todo + done == recipe.inputs.Keys && todo !! done
      invariant r == PartialConsumption(steps, i, done)
      decreases todo
    {
      var k :| k in todo;
      PartialConsumptionStep(steps, i, done, k, r, PerSecond(recipe.inputs[k], quantity));
      assert FindItemStep(r, k) == FindItemStep(steps, k) by {
        SameFrameReads(r, steps);
        FindItemStepFrame(r, steps, k);
      }
      if recipe.inputs[k] != 0.0 {
        var amount := PerSecond(recipe.inputs[k], quantity);
        var found := FindItemStep(r, k);
        if found.Some? {
          var j := found.value;
          r := r[j := r[j].(parents := AddEntityValue(r[j].parents, step.id, amount))];
        }
      }
      todo := todo - {k};
      done := done + {k};
    }
  }

  /** Visiting one more output key credits at most one more share. */
  lemma RestrictStep(shares: map<string, real>, done: set<string>, k: string)
    ensures k in shares ==> Restrict(shares, done + {k}) == Restrict(shares, done)[k := shares[k]]
    ensures k !in shares ==> Restrict(shares, done + {k}) == Restrict(shares, done)
  {
  }

  /** The state of the output loop once the keys in `done` are visited. */
  ghost predicate SharesVisited(steps: seq<Step>, cur: seq<Step>, i: nat, done: set<string>, r: seq<Step>)
    requires i < |steps| && FlowDefined(steps) && |cur| == |steps|
  {
    && SameFrame(r, steps)
    && r == cur[i := cur[i].(outputs := MergeAdd(steps[i].outputs, Restrict(ProducedShares(steps, i), done)))]
  }

  /** Crediting a share advances the output loop by one key. */
  lemma CreditShare(steps: seq<Step>, cur: seq<Step>, i: nat, done: set<string>, k: string,
                    r: seq<Step>, share: real)
    requires i < |steps| && FlowDefined(steps) && |cur| == |steps| && k !in done
    requires SharesVisited(steps, cur, i, done, r)
    requires ShareOf(steps, i, k) == Some(share)
    ensures SharesVisited(steps, cur, i, done + {k}, r[i := r[i].(outputs := AddEntityValue(r[i].outputs, k, share))])
  {
    var shares := ProducedShares(steps, i);
    var m0 := MergeAdd(steps[i].outputs, Restrict(shares, done));
    var m1 := MergeAdd(steps[i].outputs, Restrict(shares, done + {k}));
    assert m1 == AddEntityValue(m0, k, share) by {
      RestrictStep(shares, done, k);
      MergeAddStep(steps[i].outputs, Restrict(shares, done), k, share);
    }
    var r' := r[i := r[i].(outputs := m1)];
    assert SameFrame(r', steps) by {
      SameFrameOutputs(r, steps, i, m1);
    }
    assert r' == cur[i := cur[i].(outputs := m1)] by {
      var x := cur[i].(outputs := m0);
      assert r[i] == x;
      OutputsTwice(cur[i], m0, m1);
      UpdateTwice(cur, i, x, cur[i].(outputs := m1));
    }
  }

  lemma OutputsTwice(s: Step, a: Option<map<string, real>>, b: Option<map<string, real>>)
    ensures s.(outputs := a).(outputs := b) == s.(outputs := b)
  {
  }

  lemma UpdateTwice<T>(s: seq<T>, i: nat, a: T, b: T)
    requires i < |s|
    ensures s[i := a][i := b] == s[i := b]
  {
  }

  /** Writing one step's `outputs` keeps the frame. */
  lemma SameFrameOutputs(r: seq<Step>, steps: seq<Step>, i: nat, o: Option<map<string, real>>)
    requires SameFrame(r, steps) && i < |r|
    ensures SameFrame(r[i := r[i].(outputs := o)], steps)
  {
    var r' := r[i := r[i].(outputs := o)];
    forall j | 0 <= j < |r'| ensures SameStepFrame(r'[j], steps[j]) {
      assert SameStepFrame(r[j], steps[j]);
    }
  }

  /** A key without a share leaves the output loop's state as it is. */
  lemma SkipShare(steps: seq<Step>, cur: seq<Step>, i: nat, done: set<string>, k: string, r: seq<Step>)
    requires i < |steps| && FlowDefined(steps) && |cur| == |steps|
    requires SharesVisited(steps, cur, i, done, r)
    requires ShareOf(steps, i, k).None?
    ensures SharesVisited(steps, cur, i, done + {k}, r)
  {
    RestrictStep(ProducedShares(steps, i), done, k);
  }

  /** One pass of the output loop: credit this step with its share of
      item `k`'s step, if it produces `k` and that step has a nonzero total. */
  method VisitOutput(steps: seq<Step>, cur: seq<Step>, i: nat, ghost done: set<string>, k: string, r: seq<Step>)
    returns (r': seq<Step>)
    requires i < |steps| && FlowDefined(steps) && Running(steps[i]) && |cur| == |steps|
    requires k in steps[i].recipe.value.outputs && k !in done
    requires SharesVisited(steps, cur, i, done, r)
    ensures SharesVisited(steps, cur, i, done + {k}, r')
  {
    assert FindItemStep(r, k) == FindItemStep(steps, k) by {
      SameFrameReads(r, steps);
      FindItemStepFrame(r, steps, k);
    }
    r' := r;
    var recipe := steps[i].recipe.value;
    if recipe.outputs[k] != 0.0 {
      var amount := PerSecond(recipe.outputs[k], Quantity(steps[i]));
      assert amount == PerSecond(steps[i].recipe.value.outputs[k], Quantity(steps[i]));
      var found := FindItemStep(r, k);
      if found.Some? && NonZero(r[found.value].items) {
        assert SameStepFrame(r[found.value], steps[found.value]);
        var share := amount / r[found.value].items.value;
        assert share == Share(amount, steps[found.value].items.value);
        ShareOfFirst(steps, i, k, found.value, amount, share);
        CreditShare(steps, cur, i, done, k, r, share);
        r' := r[i := r[i].(outputs := AddEntityValue(r[i].outputs, k, share))];
      } else {
        if found.Some? {
          assert SameStepFrame(r[found.value], steps[found.value]);
        }
        SkipShare(steps, cur, i, done, k, r);
      }
    } else {
      SkipShare(steps, cur, i, done, k, r);
    }
  }

  /** The output loop of `calculateParentsOutputs`, run on the sequence
      `cur` that the input loop left behind. */
  method AddShares(steps: seq<Step>, cur: seq<Step>, i: nat) returns (r: seq<Step>)
    requires i < |steps| && FlowDefined(steps) && Running(steps[i])
    requires SameFrame(cur, steps) && cur[i].outputs == steps[i].outputs
    ensures r == cur[i := cur[i].(outputs := MergeAdd(steps[i].outputs, ProducedShares(steps, i)))]
  {
    r := cur;
    var todo := steps[i].recipe.value.outputs.Keys;
    ghost var done: set<string> := {};
    assert cur[i := cur[i]] == cur;
    while todo != {}
      invariant todo + done == steps[i].recipe.value.outputs.Keys && todo !! done
      invariant SharesVisited(steps, cur, i, done, r)
      decreases todo
    {
      var k :| k in todo;
      r := VisitOutput(steps, cur, i, done, k, r);
      todo := todo - {k};
      done := done + {k};
    }
    assert Restrict(ProducedShares(steps, i), done) == ProducedShares(steps, i);
  }

  /** `calculateParentsOutputs`: walks the recipe's inputs and outputs one
      key at a time, exactly as the source does, and arrives at the
      reference result whatever order the keys are visited in. */
  method CalculateParentsOutputs(steps: seq<Step>, i: nat) returns (r: seq<Step>)
    requires i < |steps| && FlowDefined(steps)
    ensures r == ParentsOutputs(steps, i)
  {
    if !Running(steps[i]) {
      assert WithConsumption(steps, i) == steps;
      assert ProducedShares(steps, i) == map[];
      return steps;
    }
    var c := AddConsumption(steps, i);
    r := AddShares(steps, c, i);
  }

  /** Sequences with the same frame agree on where flow is defined. */
  lemma FlowDefinedFrame(a: seq<Step>, b: seq<Step>)
    requires SameFrame(a, b) && FlowDefined(b)
    ensures FlowDefined(a)
  {
    forall j | 0 <= j < |a| && Running(a[j])
      ensures a[j].recipe.value.time != 0.0
    {
      assert SameStepFrame(a[j], b[j]);
    }
  }

  /** Consumption only depends on the frame. */
  lemma ConsumedByFrame(a: seq<Step>, b: seq<Step>, i: nat, j: nat)
    requires SameReads(a, b) && FlowDefined(a) && FlowDefined(b)
    requires i < |a| && j < |a|
    ensures ConsumedBy(a, i, j) == ConsumedBy(b, i, j)
  {
    if Running(a[i]) && a[j].itemId.Some? {
      var k := a[j].itemId.value;
      assert FindItemStep(a, k) == FindItemStep(b, k) by {
        FindItemStepFrame(a, b, k);
      }
      assert a[i].recipe == b[i].recipe && a[i].machines == b[i].machines;
    }
  }

  /** Production shares only depend on the frame. */
  lemma ShareOfFrame(a: seq<Step>, b: seq<Step>, i: nat, itemId: string)
    requires SameReads(a, b) && FlowDefined(a) && FlowDefined(b) && i < |a|
    ensures ShareOf(a, i, itemId) == ShareOf(b, i, itemId)
  {
    FindItemStepFrame(a, b, itemId);
    var j := FindItemStep(a, itemId);
    if Running(a[i]) && j.Some? {
      assert a[j.value].items == b[j.value].items;
    }
  }

  /** `ShareOf` spelled out for a given first item step `j`. */
  lemma ShareOfAt(steps: seq<Step>, i: nat, itemId: string, j: nat)
    requires i < |steps| && FlowDefined(steps) && FindItemStep(steps, itemId) == Some(j)
    ensures ShareOf(steps, i, itemId)
         == if Running(steps[i]) && itemId in steps[i].recipe.value.outputs
               && steps[i].recipe.value.outputs[itemId] != 0.0 && NonZero(steps[j].items)
            then Some(Share(PerSecond(steps[i].recipe.value.outputs[itemId], Quantity(steps[i])), steps[j].items.value))
            else None
  {
  }

  /** Frame equality chains. */
  lemma SameFrameTrans(a: seq<Step>, b: seq<Step>, c: seq<Step>)
    requires SameFrame(a, b) && SameFrame(b, c)
    ensures SameFrame(a, c)
  {
  }

  /** The flow pass of `normalizeSteps` from step `n` on: `calculateParentsOutputs`
      on steps `n`, `n + 1`, ... in order, each seeing its predecessors' updates.
      The whole pass is `FlowFrom(steps, 0)`. */
  function FlowFrom(cur: seq<Step>, n: nat): (r: seq<Step>)
    requires n <= |cur| && FlowDefined(cur)
    ensures |r| == |cur|
    decreases |cur| - n
  {
    if n == |cur| then cur
    else
      var next := ParentsOutputs(cur, n);
      FlowDefinedFrame(next, cur);
      FlowFrom(next, n + 1)
  }

  /** One visit of the flow pass, then the rest. */
  lemma FlowFromNext(cur: seq<Step>, n: nat)
    requires n < |cur| && FlowDefined(cur)
    ensures FlowDefined(ParentsOutputs(cur, n))
    ensures FlowFrom(cur, n) == FlowFrom(ParentsOutputs(cur, n), n + 1)
  {
    FlowDefinedFrame(ParentsOutputs(cur, n), cur);
  }

  /** The flow pass only writes `parents` and `outputs`. */
  lemma {:induction false} FlowFromFrame(cur: seq<Step>, n: nat)
    requires n <= |cur| && FlowDefined(cur)
    ensures SameFrame(FlowFrom(cur, n), cur)
    decreases |cur| - n
  {
    if n < |cur| {
      var next := ParentsOutputs(cur, n);
      FlowFromNext(cur, n);
      assert SameFrame(FlowFrom(next, n + 1), next) by { FlowFromFrame(next, n + 1); }
      SameFrameTrans(FlowFrom(next, n + 1), next, cur);
    }
  }

  /** The loop of `normalizeSteps` that runs `calculateParentsOutputs`
      over every step. */
  method CalculateAllParentsOutputs(steps: seq<Step>) returns (r: seq<Step>)
    requires FlowDefined(steps)
    ensures r == FlowFrom(steps, 0)
  {
    r := steps;
    var n := 0;
    while n < |steps|
      invariant n <= |r| == |steps| && FlowDefined(r)
      invariant FlowFrom(r, n) == FlowFrom(steps, 0)
    {
      var next := CalculateParentsOutputs(r, n);
      FlowFromNext(r, n);
      r := next;
      n := n + 1;
    }
  }

  /** The consumption charged to item step `j` by steps `n` onwards. */
  function ConsumedFrom(steps: seq<Step>, j: nat, n: nat): real
    requires j < |steps| && n <= |steps| && FlowDefined(steps)
    decreases |steps| - n
  {
    if n == |steps| then 0.0 else ConsumedBy(steps, n, j).GetOr(0.0) + ConsumedFrom(steps, j, n + 1)
  }

  /** One visit adds to an item step's `parents` total exactly what the
      visited step consumes through it. */
  lemma ConservationStep(steps: seq<Step>, cur: seq<Step>, j: nat, n: nat)
    requires j < |steps| && n < |steps| && FlowDefined(steps) && FlowDefined(cur) && SameFrame(cur, steps)
    ensures MapSum(ParentsOutputs(cur, n)[j].parents.GetOr(map[]))
         == MapSum(cur[j].parents.GetOr(map[])) + ConsumedBy(steps, n, j).GetOr(0.0)
  {
    assert ConsumedBy(cur, n, j) == ConsumedBy(steps, n, j) by {
      SameFrameReads(cur, steps);
      ConsumedByFrame(cur, steps, n, j);
    }
    assert ParentsOutputs(cur, n)[j].parents == WithConsumption(cur, n)[j].parents;
    match ConsumedBy(cur, n, j)
    case Some(a) =>
      AddEntityValueSum(cur[j].parents, cur[n].id, a);
    case None =>
  }

  /** Conservation for the pass from step `n` on, over any state `cur` with
      the frame of `steps`. */
  lemma {:induction false} ConservationFrom(steps: seq<Step>, cur: seq<Step>, j: nat, n: nat)
    requires j < |steps| && n <= |steps| && FlowDefined(steps) && FlowDefined(cur) && SameFrame(cur, steps)
    ensures MapSum(FlowFrom(cur, n)[j].parents.GetOr(map[]))
         == MapSum(cur[j].parents.GetOr(map[])) + ConsumedFrom(steps, j, n)
    decreases |steps| - n
  {
    if n < |steps| {
      var next := ParentsOutputs(cur, n);
      FlowDefinedFrame(next, cur);
      SameFrameTrans(next, cur, steps);
      ConservationFrom(steps, next, j, n + 1);
      ConservationStep(steps, cur, j, n);
      assert FlowFrom(cur, n) == FlowFrom(next, n + 1);
    }
  }

  /** Conservation: after the flow pass, the amounts in an item step's
      `parents` total exactly what it had plus everything its consumers take. */
  lemma Conservation(steps: seq<Step>, j: nat)
    requires j < |steps| && FlowDefined(steps)
    ensures MapSum(FlowFrom(steps, 0)[j].parents.GetOr(map[]))
         == MapSum(steps[j].parents.GetOr(map[])) + ConsumedFrom(steps, j, 0)
  {
    ConservationFrom(steps, steps, j, 0);
  }

  /** One call of `calculateParentsOutputs` records its consumption under
      its own id and leaves every other entry of the item step alone. */
  lemma ConsumptionRecorded(steps: seq<Step>, i: nat, j: nat)
    requires i < |steps| && j < |steps| && FlowDefined(steps)
    requires ConsumedBy(steps, i, j).Some?
    ensures var p := ParentsOutputs(steps, i)[j].parents;
            && p.Some?
            && p.value.Keys == steps[j].parents.GetOr(map[]).Keys + {steps[i].id}
            && p.value[steps[i].id]
               == Get(steps[j].parents.GetOr(map[]), steps[i].id).GetOr(0.0) + ConsumedBy(steps, i, j).value
            && (forall k :: k in steps[j].parents.GetOr(map[]) && k != steps[i].id ==>
                  p.value[k] == steps[j].parents.value[k])
  {
    assert ParentsOutputs(steps, i)[j].parents == WithConsumption(steps, i)[j].parents;
  }

  /** Steps that do not run a recipe, and item steps no running step
      consumes, keep their `parents` untouched. */
  lemma ConsumptionOnlyWhereConsumed(steps: seq<Step>, i: nat, j: nat)
    requires i < |steps| && j < |steps| && FlowDefined(steps)
    requires ConsumedBy(steps, i, j).None?
    ensures ParentsOutputs(steps, i)[j].parents == steps[j].parents
  {
    assert ParentsOutputs(steps, i)[j].parents == WithConsumption(steps, i)[j].parents;
  }

  /** The sum of a sequence of reals. */
  function Sum(xs: seq<real>): real {
    if xs == [] then 0.0 else Sum(xs[..|xs| - 1]) + xs[|xs| - 1]
  }

  /** Shares of one total add up: `a/t + b/t == (a + b)/t`. */
  lemma ShareAdd(x: real, a: real, b: real, total: real)
    requires total != 0.0 && x == a + b
    ensures Share(a, total) + Share(b, total) == Share(x, total)
  {
  }

  /** The shares of a list of amounts add up to the share of their sum. */
  lemma {:induction false} SumShares(xs: seq<real>, ys: seq<real>, total: real)
    requires total != 0.0
    requires |xs| == |ys| && forall k :: 0 <= k < |xs| ==> xs[k] == Share(ys[k], total)
    ensures Sum(xs) == Share(Sum(ys), total)
  {
    if xs != [] {
      var n := |xs| - 1;
      SumShares(xs[..n], ys[..n], total);
      ShareAdd(Sum(ys), Sum(ys[..n]), ys[n], total);
    }
  }

  /** The first `n` steps' shares of item `itemId`'s step total (zero
      without one). */
  function Shares(steps: seq<Step>, itemId: string, n: nat): (r: seq<real>)
    requires n <= |steps| && FlowDefined(steps)
    ensures |r| == n
    ensures forall i :: 0 <= i < n ==> r[i] == ShareOf(steps, i, itemId).GetOr(0.0)
  {
    if n == 0 then [] else Shares(steps, itemId, n - 1) + [ShareOf(steps, n - 1, itemId).GetOr(0.0)]
  }

  /** The amount of `itemId` step `i` produces per second when it is
      credited a share of it, else nothing. */
  function Produced(steps: seq<Step>, i: nat, itemId: string): real
    requires i < |steps| && FlowDefined(steps)
  {
    if ShareOf(steps, i, itemId).Some?
    then PerSecond(steps[i].recipe.value.outputs[itemId], Quantity(steps[i]))
    else 0.0
  }

  /** What each of the first `n` steps produces of `itemId` when it is
      credited a share of it. */
  function Produces(steps: seq<Step>, itemId: string, n: nat): (r: seq<real>)
    requires n <= |steps| && FlowDefined(steps)
    ensures |r| == n
    ensures forall i :: 0 <= i < n ==> r[i] == Produced(steps, i, itemId)
  {
    if n == 0 then [] else Produces(steps, itemId, n - 1) + [Produced(steps, n - 1, itemId)]
  }

  /** Fractional attribution: the producers' shares of an item step add up
      to the fraction of its total that they produce, so they add up to one
      exactly when the total is what they produce. */
  lemma SharesAttribute(steps: seq<Step>, itemId: string, j: nat)
    requires FlowDefined(steps)
    requires FindItemStep(steps, itemId) == Some(j) && NonZero(steps[j].items)
    ensures Sum(Shares(steps, itemId, |steps|)) == Share(Sum(Produces(steps, itemId, |steps|)), steps[j].items.value)
    ensures Sum(Produces(steps, itemId, |steps|)) == steps[j].items.value ==> Sum(Shares(steps, itemId, |steps|)) == 1.0
  {
    var xs, ys := Shares(steps, itemId, |steps|), Produces(steps, itemId, |steps|);
    var total := steps[j].items.value;
    forall k | 0 <= k < |xs|
      ensures xs[k] == Share(ys[k], total)
    {
      ShareOfProduced(steps, itemId, j, k);
    }
    SumShares(xs, ys, total);
    ShareWhole(Sum(ys), total);
  }

  /** A total's share of itself is one. */
  lemma ShareWhole(amount: real, total: real)
    requires total != 0.0
    ensures amount == total ==> Share(amount, total) == 1.0
  {
  }

  /** One step's share of the item step's total is the share its output
      makes up (zero when it has no share). */
  lemma ShareOfProduced(steps: seq<Step>, itemId: string, j: nat, i: nat)
    requires i < |steps| && FlowDefined(steps)
    requires FindItemStep(steps, itemId) == Some(j) && NonZero(steps[j].items)
    ensures ShareOf(steps, i, itemId).GetOr(0.0) == Share(Produced(steps, i, itemId), steps[j].items.value)
  {
  }

  /** Once the flow pass has visited step `i`, its `outputs` are final. */
  lemma {:induction false} OutputsSettled(cur: seq<Step>, i: nat, n: nat)
    requires i < n <= |cur| && FlowDefined(cur)
    ensures FlowFrom(cur, n)[i].outputs == cur[i].outputs
    decreases |cur| - n
  {
    if n < |cur| {
      var next := ParentsOutputs(cur, n);
      FlowDefinedFrame(next, cur);
      OutputsSettled(next, i, n + 1);
    }
  }

  /** An `outputs` map that records `amount` for `itemId`. */
  predicate Credited(o: Option<map<string, real>>, itemId: string, amount: real) {
    o.Some? && itemId in o.value && o.value[itemId] == amount
  }

  /** Visiting step `i` credits it its share of each item it produces. */
  lemma SharesRecordedAt(steps: seq<Step>, cur: seq<Step>, i: nat, itemId: string)
    requires i < |steps| && FlowDefined(steps) && FlowDefined(cur) && SameReads(cur, steps)
    requires cur[i].outputs == steps[i].outputs && ShareOf(steps, i, itemId).Some?
    ensures Credited(ParentsOutputs(cur, i)[i].outputs, itemId,
                     Get(steps[i].outputs.GetOr(map[]), itemId).GetOr(0.0) + ShareOf(steps, i, itemId).value)
  {
    assert ShareOf(cur, i, itemId) == ShareOf(steps, i, itemId) by {
      ShareOfFrame(cur, steps, i, itemId);
    }
    var shares := ProducedShares(cur, i);
    assert itemId in shares && shares[itemId] == ShareOf(steps, i, itemId).value;
    assert ParentsOutputs(cur, i)[i].outputs == MergeAdd(steps[i].outputs, shares);
  }

  /** The state the pass from step `n` is in when it reaches step `i`:
      the reads are those of the start, and step `i`'s `outputs` are still
      untouched. */
  function StateAt(cur: seq<Step>, n: nat, i: nat): (r: seq<Step>)
    requires n <= i < |cur| && FlowDefined(cur)
    ensures SameReads(r, cur) && FlowDefined(r) && r[i].outputs == cur[i].outputs
    decreases i - n
  {
    if n == i then cur
    else
      var next := ParentsOutputs(cur, n);
      FlowDefinedFrame(next, cur);
      SameFrameReads(next, cur);
      StateAt(next, n + 1, i)
  }

  /** What the pass leaves in step `i`'s `outputs` is what visiting `i`
      writes there. */
  lemma {:induction false} FlowFromState(cur: seq<Step>, n: nat, i: nat)
    requires n <= i < |cur| && FlowDefined(cur)
    ensures FlowFrom(cur, n)[i].outputs == ParentsOutputs(StateAt(cur, n, i), i)[i].outputs
    decreases i - n
  {
    var next := ParentsOutputs(cur, n);
    FlowDefinedFrame(next, cur);
    assert FlowFrom(cur, n) == FlowFrom(next, n + 1);
    if n < i {
      assert StateAt(cur, n, i) == StateAt(next, n + 1, i);
      FlowFromState(next, n + 1, i);
    } else {
      assert StateAt(cur, n, i) == cur;
      OutputsSettled(next, i, n + 1);
    }
  }

  /** After the flow pass, each step's `outputs` entry for an item is what
      it had plus its share of that item's step total. */
  lemma SharesRecorded(steps: seq<Step>, i: nat, itemId: string)
    requires i < |steps| && FlowDefined(steps) && ShareOf(steps, i, itemId).Some?
    ensures var o := FlowFrom(steps, 0)[i].outputs;
            && o.Some? && itemId in o.value
            && o.value[itemId] == Get(steps[i].outputs.GetOr(map[]), itemId).GetOr(0.0)
                                   + ShareOf(steps, i, itemId).value
  {
    FlowFromState(steps, 0, i);
    SharesRecordedAt(steps, StateAt(steps, 0, i), i, itemId);
  }
}
