/** `calculateBeacons`: fill in the total number of each beacon a recipe
    step needs and add the beacons' electric usage to the step's power. */
module Beacons {
  import opened Wrappers
  import opened Model
  import opened Rationals

  /** The total of one beacon entry: an explicit total is kept; otherwise a
      beacon with a count gets `ceil(machines) * count / receivers`, raised
      to `count` when that is smaller. */
  function BeaconTotal(b: BeaconSettings, machines: real, receivers: real): (t: Option<real>)
    requires receivers != 0.0
    ensures b.id.None? || b.count.None? || b.total.Some? ==> t == b.total
    ensures b.id.Some? && b.count.Some? && b.total.None? ==>
              && t.Some?
              && t.value >= b.count.value
              && t.value >= Ceil(machines) * b.count.value / receivers
              && (t.value == b.count.value || t.value == Ceil(machines) * b.count.value / receivers)
  {
    if b.id.Some? && b.count.Some? && b.total.None? then
      var total := Ceil(machines) * b.count.value / receivers;
      Some(if total < b.count.value then b.count.value else total)
    else b.total
  }

  /** A beacon entry that draws electric power: a known electric beacon with
      a usage and a total. */
  predicate Draws(b: BeaconSettings, data: Dataset) {
    && b.id.Some? && b.id.value in data.beaconEntities
    && data.beaconEntities[b.id.value].energyType == Electric
    && data.beaconEntities[b.id.value].usage.Some?
    && b.total.Some?
  }

  /** The power one beacon entry draws: its total times the beacon's usage. */
  function Draw(b: BeaconSettings, data: Dataset): real {
    if Draws(b, data) then b.total.value * data.beaconEntities[b.id.value].usage.value else 0.0
  }

  /** The power all beacon entries draw together. */
  function TotalDraw(bs: seq<BeaconSettings>, data: Dataset): real {
    if bs == [] then 0.0 else TotalDraw(bs[..|bs| - 1], data) + Draw(bs[|bs| - 1], data)
  }

  /** Some entry draws power, so the step's power is written. */
  predicate AnyDraws(bs: seq<BeaconSettings>, data: Dataset) {
    exists k :: 0 <= k < |bs| && Draws(bs[k], data)
  }

  /** Every beacon entry is filled in with its total. */
  function WithTotals(bs: seq<BeaconSettings>, machines: real, receivers: real): (r: seq<BeaconSettings>)
    requires receivers != 0.0
    ensures |r| == |bs|
    ensures forall k :: 0 <= k < |bs| ==> r[k] == bs[k].(total := BeaconTotal(bs[k], machines, receivers))
  {
    seq(|bs|, k requires 0 <= k < |bs| => bs[k].(total := BeaconTotal(bs[k], machines, receivers)))
  }

  /** `calculateBeacons` returns early for these steps. */
  predicate Skipped(step: Step, beaconReceivers: Option<real>, data: Dataset)
    requires BeaconsDefined(step, beaconReceivers, data)
  {
    || !NonZero(beaconReceivers) || step.recipeId.None? || !NonZero(step.machines)
    || data.recipeEntities[step.recipeId.value].part
    || step.recipeSettings.None? || step.recipeSettings.value.beacons.None?
  }

  /** The lookups `calculateBeacons` makes without a guard succeed: the
      step's recipe, and, unless that recipe is a part, every beacon entry's
      beacon. */
  predicate BeaconsDefined(step: Step, beaconReceivers: Option<real>, data: Dataset) {
    NonZero(beaconReceivers) && step.recipeId.Some? && NonZero(step.machines) ==>
      && step.recipeId.value in data.recipeEntities
      && (!data.recipeEntities[step.recipeId.value].part
          && step.recipeSettings.Some? && step.recipeSettings.value.beacons.Some? ==>
            forall b :: b in step.recipeSettings.value.beacons.value && b.id.Some? ==>
              b.id.value in data.beaconEntities)
  }

  /** What `calculateBeacons` leaves behind, stated declaratively: a skipped
      step is unchanged; otherwise every entry carries its total, and the
      power grows by the total draw when some entry draws at all. */
  function BeaconsFilled(step: Step, beaconReceivers: Option<real>, data: Dataset): (r: Step)
    requires BeaconsDefined(step, beaconReceivers, data)
    ensures Skipped(step, beaconReceivers, data) ==> r == step
    ensures !Skipped(step, beaconReceivers, data) ==>
              var settings := step.recipeSettings.value;
              var bs := settings.beacons.value;
              && r.recipeSettings.Some? && r.recipeSettings.value.beacons.Some?
              && var bs' := r.recipeSettings.value.beacons.value;
              && r == step.(recipeSettings := r.recipeSettings, power := r.power)
              && r.recipeSettings.value == settings.(beacons := Some(bs'))
              && |bs'| == |bs|
              && (forall k :: 0 <= k < |bs| ==>
                    bs'[k] == bs[k].(total := BeaconTotal(bs[k], step.machines.value, beaconReceivers.value)))
              && r.power == if AnyDraws(bs', data) then Some(step.power.GetOr(0.0) + TotalDraw(bs', data))
                            else step.power
  {
    if Skipped(step, beaconReceivers, data) then step
    else
      var settings := step.recipeSettings.value;
      var filled := WithTotals(settings.beacons.value, step.machines.value, beaconReceivers.value);
      step.(recipeSettings := Some(settings.(beacons := Some(filled))),
            power := if AnyDraws(filled, data) then Some(step.power.GetOr(0.0) + TotalDraw(filled, data))
                     else step.power)
  }

  /** `calculateBeacons`. The loop follows the source's `map` over the
      beacon entries, adding each electric beacon's usage as it goes. */
  method CalculateBeacons(step: Step, beaconReceivers: Option<real>, data: Dataset) returns (r: Step)
    requires BeaconsDefined(step, beaconReceivers, data)
    ensures Skipped(step, beaconReceivers, data) ==> r == step
    ensures !Skipped(step, beaconReceivers, data) ==>
              var settings := step.recipeSettings.value;
              var filled := WithTotals(settings.beacons.value, step.machines.value, beaconReceivers.value);
              && r == step.(recipeSettings := Some(settings.(beacons := Some(filled))), power := r.power)
              && r.power == if AnyDraws(filled, data)
                            then Some(step.power.GetOr(0.0) + TotalDraw(filled, data))
                            else step.power
    ensures r == BeaconsFilled(step, beaconReceivers, data)
  {
    if Skipped(step, beaconReceivers, data) {
      return step;
    }
    var machines := step.machines.value;
    var receivers := beaconReceivers.value;
    var settings := step.recipeSettings.value;
    var bs := settings.beacons.value;
    ghost var filled := WithTotals(bs, machines, receivers);
    var out: seq<BeaconSettings> := [];
    var power := step.power;
    var k := 0;
    while k < |bs|
      invariant k <= |bs| && out == filled[..k]
      invariant power == if AnyDraws(out, data) then Some(step.power.GetOr(0.0) + TotalDraw(out, data))
                         else step.power
    {
      var nb;
      nb, power := FillBeacon(bs[k], machines, receivers, data, power);
      assert nb == filled[k];
      Appended(out, nb, data);
      if !AnyDraws(out, data) {
        NothingDrawn(out, data);
      }
      out := out + [nb];
      k := k + 1;
    }
    assert filled[..|bs|] == filled;
    r := step.(recipeSettings := Some(settings.(beacons := Some(out))), power := power);
  }

  /** The total the callback computes for an entry without one. */
  lemma RaisedShare(b: BeaconSettings, machines: real, receivers: real, share: real, t: real)
    requires receivers != 0.0 && b.id.Some? && b.count.Some? && b.total.None?
    requires share == Ceil(machines) * b.count.value / receivers
    requires t == if share < b.count.value then b.count.value else share
    ensures BeaconTotal(b, machines, receivers) == Some(t)
  {
  }

  /** The first half of the source's `map` callback for one beacon entry:
      an entry with a beacon and a count but no total gets one. */
  method FillTotal(b: BeaconSettings, machines: real, receivers: real) returns (total: Option<real>)
    requires receivers != 0.0
    ensures total == BeaconTotal(b, machines, receivers)
  {
    total := b.total;
    if b.id.Some? && b.count.Some? && total.None? {
      var share := Ceil(machines) * b.count.value / receivers;
      total := Some(share);
      if share < b.count.value {
        // the total never drops below the count
        total := Some(b.count.value);
      }
      RaisedShare(b, machines, receivers, share, total.value);
    }
  }

  /** The whole `map` callback for one beacon entry: its total, and the
      power after adding its electric usage. */
  method FillBeacon(b: BeaconSettings, machines: real, receivers: real, data: Dataset, power: Option<real>)
    returns (nb: BeaconSettings, power': Option<real>)
    requires receivers != 0.0 && (b.id.Some? ==> b.id.value in data.beaconEntities)
    ensures nb == b.(total := BeaconTotal(b, machines, receivers))
    ensures power' == if Draws(nb, data) then Some(power.GetOr(0.0) + Draw(nb, data)) else power
  {
    var total := FillTotal(b, machines, receivers);
    nb := b.(total := total);
    power' := power;
    if b.id.Some? {
      var beacon := data.beaconEntities[b.id.value];
      if beacon.energyType == Electric && beacon.usage.Some? && total.Some? {
        power' := Some(power.GetOr(0.0) + total.value * beacon.usage.value);
        assert Draw(nb, data) == total.value * beacon.usage.value;
      }
    }
  }

  /** Appending an entry extends the total draw by that entry's draw, and
      marks the power written when the entry draws. */
  lemma Appended(bs: seq<BeaconSettings>, b: BeaconSettings, data: Dataset)
    ensures TotalDraw(bs + [b], data) == TotalDraw(bs, data) + Draw(b, data)
    ensures AnyDraws(bs + [b], data) <==> AnyDraws(bs, data) || Draws(b, data)
  {
    assert (bs + [b])[..|bs|] == bs;
    if AnyDraws(bs, data) {
      var k :| 0 <= k < |bs| && Draws(bs[k], data);
      assert (bs + [b])[k] == bs[k];
    }
    if Draws(b, data) {
      assert (bs + [b])[|bs|] == b;
    }
  }

  /** With no entry drawing power, the total draw is zero. */
  lemma {:induction false} NothingDrawn(bs: seq<BeaconSettings>, data: Dataset)
    requires !AnyDraws(bs, data)
    ensures TotalDraw(bs, data) == 0.0
  {
    if bs != [] {
      var front := bs[..|bs| - 1];
      assert forall k :: 0 <= k < |front| ==> front[k] == bs[k];
      NothingDrawn(front, data);
      assert !Draws(bs[|bs| - 1], data);
    }
  }

  /** Enough beacons: the filled-in total of a beacon with `count` per
      machine, shared by `receivers` machines each, reaches every machine
      that runs, counting the last partial one as whole. */
  lemma BeaconsReachEveryMachine(b: BeaconSettings, machines: real, receivers: real)
    requires receivers > 0.0 && b.id.Some? && b.count.Some? && b.count.value >= 0.0 && b.total.None?
    ensures BeaconTotal(b, machines, receivers).value * receivers >= Ceil(machines) * b.count.value
    ensures BeaconTotal(b, machines, receivers).value * receivers >= machines * b.count.value
  {
    var t := BeaconTotal(b, machines, receivers).value;
    var c := b.count.value;
    var need := Ceil(machines) * c;
    assert t >= need / receivers;
    assert need / receivers * receivers == need;
    assert t * receivers >= need / receivers * receivers;
    assert Ceil(machines) * c >= machines * c;
  }
}
