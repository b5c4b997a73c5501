/**
 Validating one light service call (custom_components/smartthings_web/light.py:239-267):
 what a call may ask for, and what the accepted call turns into.
 */
module LightValues {
  import opened Wrappers

  datatype Attribute = Level | ColorTemperature | Hue | Saturation
  type Values = map<Attribute, real>
  datatype ColorMode = ColorTemp | HueSaturation

  /** A keyword argument as Home Assistant passes it: absent, a finite number, or junk. */
  datatype Argument = Absent | Number(value: real) | Malformed
  datatype ColorArgument = NoColor | Pair(hue: Argument, saturation: Argument) | MalformedColor

  datatype Call = Call(brightness: Argument, kelvin: Argument, color: ColorArgument)

  /** What the device catalog currently offers. */
  datatype Abilities = Abilities(minKelvin: real, maxKelvin: real, hasColor: bool,
                                 planVerified: bool, scalarControls: set<Attribute>)

  datatype Prepared = Rejected | SwitchOff | SwitchOn(plan: seq<(Attribute, real)>, mode: Option<ColorMode>)

  /** Python's round(): the nearest integer, ties to the even neighbour. */
  function RoundHalfEven(x: real): (r: int)
    ensures -0.5 <= x - r as real <= 0.5
    ensures x - x.Floor as real == 0.5 ==> r % 2 == 0
  {
    var below := x.Floor;
    var rest := x - below as real;
    if rest < 0.5 then below
    else if rest > 0.5 then below + 1
    else if below % 2 == 0 then below else below + 1
  }

  predicate InRange(a: Argument, lo: real, hi: real) {
    a.Number? && lo <= a.value <= hi
  }

  function BrightnessToLevel(brightness: real): int {
    var level := RoundHalfEven(brightness * 100.0 / 255.0);
    if level < 1 then 1 else level
  }

  /** The level the Bridge pushes back, shown on Home Assistant's 0..255 scale. */
  function LevelToBrightness(level: real): int {
    RoundHalfEven(level * 255.0 / 100.0)
  }

  /** `_prepare_values`: brightness 0 means "off" before anything else is looked at. */
  function PrepareValues(call: Call, able: Abilities): Prepared {
    if call.brightness != Absent && !InRange(call.brightness, 0.0, 255.0) then Rejected
    else if call.brightness == Number(0.0) then SwitchOff
    else
      var level := if call.brightness == Absent then []
                   else [(Level, BrightnessToLevel(call.brightness.value) as real)];
      if call.kelvin != Absent && !InRange(call.kelvin, able.minKelvin, able.maxKelvin) then Rejected
      else
        var white := if call.kelvin == Absent then []
                     else [(ColorTemperature, RoundHalfEven(call.kelvin.value) as real)];
        if call.color == NoColor then
          Checked(level + white, if call.kelvin == Absent then None else Some(ColorTemp), able)
        else if call.color.MalformedColor? || call.kelvin != Absent then Rejected
        else if !InRange(call.color.hue, 0.0, 360.0) || !InRange(call.color.saturation, 0.0, 100.0) then Rejected
        else if !able.hasColor then Rejected
        else
          Checked(level + white + [(Hue, call.color.hue.value * 100.0 / 360.0),
                                   (Saturation, call.color.saturation.value)], Some(HueSaturation), able)
  }

  /** Without a verified light plan every requested attribute needs a control of its own. */
  function Checked(plan: seq<(Attribute, real)>, mode: Option<ColorMode>, able: Abilities): Prepared {
    if able.planVerified || Controlled(plan, able) then SwitchOn(plan, mode) else Rejected
  }

  /** Python's dict(): the last pair of a key wins. */
  function ToValues(plan: seq<(Attribute, real)>): Values {
    if plan == [] then map[]
    else ToValues(plan[..|plan| - 1])[plan[|plan| - 1].0 := plan[|plan| - 1].1]
  }

  /** Colour comes as a hue/saturation pair, and never together with a colour temperature. */
  predicate WellPaired(v: Values) {
    (Hue in v <==> Saturation in v) && !(Hue in v && ColorTemperature in v)
  }

  lemma ToValuesOfShortPlan(plan: seq<(Attribute, real)>)
    requires |plan| <= 3
    ensures forall a :: a in ToValues(plan) <==> HasAttribute(plan, a)
  {
    if plan != [] {
      var rest := plan[..|plan| - 1];
      ToValuesOfShortPlan(rest);
      forall a ensures a in ToValues(plan) <==> HasAttribute(plan, a) {
        if a in ToValues(rest) {
          assert HasAttribute(rest, a);
          var i :| 0 <= i < |rest| && rest[i].0 == a;
          assert plan[i].0 == a;
        }
        if i :| 0 <= i < |plan| && plan[i].0 == a && i < |rest| {
          assert rest[i].0 == a;
        }
      }
    }
  }

  lemma HueScale(hue: real)
    requires 0.0 <= hue <= 360.0
    ensures 0.0 <= hue * 100.0 / 360.0 <= 100.0
  {
    assert hue * 100.0 <= 36000.0;
  }

  lemma BrightnessScale(brightness: real)
    requires 0.0 <= brightness <= 255.0
    ensures 1 <= BrightnessToLevel(brightness) <= 100
  {
    assert brightness * 100.0 <= 25500.0;
    assert brightness * 100.0 / 255.0 <= 100.0;
  }

  predicate HasAttribute(plan: seq<(Attribute, real)>, a: Attribute) { exists i :: 0 <= i < |plan| && plan[i].0 == a }

  /** What an accepted call asks for, said of the plan alone. */
  lemma PlanIsWellPaired(call: Call, able: Abilities)
    requires PrepareValues(call, able).SwitchOn?
    ensures var p := PrepareValues(call, able);
            && |p.plan| <= 3
            && (forall i, j :: 0 <= i < j < |p.plan| ==> p.plan[i].0 != p.plan[j].0)
            && (HasAttribute(p.plan, Hue) <==> p.mode == Some(HueSaturation))
            && (HasAttribute(p.plan, Saturation) <==> p.mode == Some(HueSaturation))
            && (HasAttribute(p.plan, ColorTemperature) <==> p.mode == Some(ColorTemp))
  {
    var plan := PrepareValues(call, able).plan;
    assert forall a :: HasAttribute(plan, a) <==>
      (|plan| > 0 && plan[0].0 == a) || (|plan| > 1 && plan[1].0 == a) || (|plan| > 2 && plan[2].0 == a);
  }

  lemma PlanIsInRange(call: Call, able: Abilities)
    requires PrepareValues(call, able).SwitchOn?
    ensures var plan := PrepareValues(call, able).plan;
            && (forall i :: 0 <= i < |plan| && plan[i].0 == Level ==> 1.0 <= plan[i].1 <= 100.0)
            && (forall i :: 0 <= i < |plan| && plan[i].0 in {Hue, Saturation} ==> 0.0 <= plan[i].1 <= 100.0)
  {
    if call.brightness != Absent { BrightnessScale(call.brightness.value); }
    if call.color.Pair? { HueScale(call.color.hue.value); }
  }

  /** Every accepted call yields paired colour values, a level of 1..100 and in-range colour. */
  lemma PreparedValuesAreWellPaired(call: Call, able: Abilities)
    requires PrepareValues(call, able).SwitchOn?
    ensures var p := PrepareValues(call, able);
            && WellPaired(ToValues(p.plan))
            && (forall i :: 0 <= i < |p.plan| && p.plan[i].0 == Level ==> 1.0 <= p.plan[i].1 <= 100.0)
            && (forall i :: 0 <= i < |p.plan| && p.plan[i].0 in {Hue, Saturation} ==> 0.0 <= p.plan[i].1 <= 100.0)
            && (forall i, j :: 0 <= i < j < |p.plan| ==> p.plan[i].0 != p.plan[j].0)
            && (p.mode == Some(HueSaturation) <==> Hue in ToValues(p.plan))
            && (p.mode == Some(ColorTemp) <==> ColorTemperature in ToValues(p.plan))
  {
    PlanIsWellPaired(call, able);
    PlanIsInRange(call, able);
    ToValuesOfShortPlan(PrepareValues(call, able).plan);
  }

  /** Reading back a level and sending it again never drifts: the scales invert on 1..100. */
  lemma LevelSurvivesBrightness(level: int)
    requires 1 <= level <= 100
    ensures BrightnessToLevel(LevelToBrightness(level as real) as real) == level
  {
    var b := LevelToBrightness(level as real);
    var scaled := b as real * 100.0 / 255.0;
    assert -0.5 <= level as real * 255.0 / 100.0 - b as real <= 0.5;
    assert -0.2 <= scaled - level as real <= 0.2;
    assert scaled.Floor == level || scaled.Floor == level - 1;
  }

  // ---------------------------------------------------------------------------
  // What a call asks for is what is planned
  // ---------------------------------------------------------------------------

  /** The attributes a call wants to set. */
  function Requested(call: Call): set<Attribute> {
    (if call.brightness == Absent then {} else {Level})
    + (if call.kelvin == Absent then {} else {ColorTemperature})
    + (if call.color == NoColor then {} else {Hue, Saturation})
  }

  /** A call is "off" exactly at brightness 0, and otherwise accepted exactly if every argument is a
      number in its range, a colour comes alone and to a light that has colour, and the whole plan
      or each of its attributes can be controlled. */
  lemma PreparedExactly(call: Call, able: Abilities)
    ensures PrepareValues(call, able).SwitchOff? <==> call.brightness == Number(0.0)
    ensures PrepareValues(call, able).SwitchOn? <==>
            && (call.brightness == Absent || (call.brightness.Number? && 0.0 < call.brightness.value <= 255.0))
            && (call.kelvin == Absent
                || (call.kelvin.Number? && able.minKelvin <= call.kelvin.value <= able.maxKelvin))
            && (call.color == NoColor
                || (&& call.color.Pair? && call.kelvin == Absent && able.hasColor
                    && call.color.hue.Number? && 0.0 <= call.color.hue.value <= 360.0
                    && call.color.saturation.Number? && 0.0 <= call.color.saturation.value <= 100.0))
            && (able.planVerified || Requested(call) <= able.scalarControls)
  {
    var level := if call.brightness.Number? then [(Level, BrightnessToLevel(call.brightness.value) as real)] else [];
    var white := if call.kelvin.Number? then [(ColorTemperature, RoundHalfEven(call.kelvin.value) as real)] else [];
    var color := if call.color.Pair? && call.color.hue.Number? && call.color.saturation.Number?
                 then [(Hue, call.color.hue.value * 100.0 / 360.0), (Saturation, call.color.saturation.value)] else [];
    AllControlled(level + white, color, able);
    AllControlled(level, white, able);
    assert level != [] ==> (Controlled(level, able) <==> level[0].0 in able.scalarControls);
    assert white != [] ==> (Controlled(white, able) <==> white[0].0 in able.scalarControls);
    assert color != [] ==>
      (Controlled(color, able) <==> color[0].0 in able.scalarControls && color[1].0 in able.scalarControls);
    assert level + white + [] == level + white;
  }

  predicate Controlled(plan: seq<(Attribute, real)>, able: Abilities) {
    forall i :: 0 <= i < |plan| ==> plan[i].0 in able.scalarControls
  }

  lemma AllControlled(a: seq<(Attribute, real)>, b: seq<(Attribute, real)>, able: Abilities)
    ensures Controlled(a + b, able) <==> Controlled(a, able) && Controlled(b, able)
  {
    if Controlled(a + b, able) {
      assert forall i :: 0 <= i < |a| ==> (a + b)[i] == a[i];
      assert forall i :: 0 <= i < |b| ==> (a + b)[|a| + i] == b[i];
    }
  }

  /** Home Assistant shows hue in degrees to four places, and whole kelvins. */
  function ShownHue(hue: real): real { RoundHalfEven(hue * 3.6 * 10000.0) as real / 10000.0 }
  function ShownKelvin(kelvin: real): int { RoundHalfEven(kelvin) }

  predicate Near(a: real, b: real, distance: real) { -distance <= a - b <= distance }

  lemma ValuesOfShortPlan(plan: seq<(Attribute, real)>, k: nat)
    requires k < |plan| <= 3 && forall i, j :: 0 <= i < j < |plan| ==> plan[i].0 != plan[j].0
    ensures plan[k].0 in ToValues(plan) && ToValues(plan)[plan[k].0] == plan[k].1
  {
    if k < |plan| - 1 { ValuesOfShortPlan(plan[..|plan| - 1], k); }
  }

  lemma HueScaleInverts(hue: real)
    ensures hue * 100.0 / 360.0 * 3.6 == hue
  {
  }

  /** Every attribute is planned exactly if asked for, with the value asked for: hue and saturation
      exactly, a colour temperature to the nearest kelvin and a level to the nearest step, but at
      least 1. */
  lemma PlanSaysWhatWasAsked(call: Call, able: Abilities)
    requires PrepareValues(call, able).SwitchOn?
    ensures var v := ToValues(PrepareValues(call, able).plan);
            && v.Keys == Requested(call)
            && (call.color != NoColor ==>
                  v[Saturation] == call.color.saturation.value && v[Hue] * 3.6 == call.color.hue.value)
            && (call.kelvin != Absent ==> Near(v[ColorTemperature], call.kelvin.value, 0.5))
            && (call.brightness != Absent ==>
                  v[Level] >= 1.0
                  && (Near(v[Level], call.brightness.value * 100.0 / 255.0, 0.5)
                      || (v[Level] == 1.0 && call.brightness.value * 100.0 / 255.0 < 1.0)))
  {
    var plan := PrepareValues(call, able).plan;
    PlanIsWellPaired(call, able);
    ToValuesOfShortPlan(plan);
    PlanHasRequested(call, able);
    forall k | 0 <= k < |plan|
      ensures plan[k].0 in ToValues(plan) && ToValues(plan)[plan[k].0] == plan[k].1
    {
      ValuesOfShortPlan(plan, k);
    }
    PlanEntries(call, able);
    if call.color.Pair? { HueScaleInverts(call.color.hue.value); }
  }

  lemma PlanHasRequested(call: Call, able: Abilities)
    requires PrepareValues(call, able).SwitchOn?
    ensures forall a :: HasAttribute(PrepareValues(call, able).plan, a) <==> a in Requested(call)
  {
    var plan := PrepareValues(call, able).plan;
    assert |plan| <= 3;
    assert forall a :: HasAttribute(plan, a) <==>
      (|plan| > 0 && plan[0].0 == a) || (|plan| > 1 && plan[1].0 == a) || (|plan| > 2 && plan[2].0 == a);
  }

  predicate HasEntry(plan: seq<(Attribute, real)>, a: Attribute, value: real) {
    exists k :: 0 <= k < |plan| && plan[k] == (a, value)
  }

  lemma PlanEntries(call: Call, able: Abilities)
    requires PrepareValues(call, able).SwitchOn?
    ensures var plan := PrepareValues(call, able).plan;
            && (call.color != NoColor ==>
                  && HasEntry(plan, Hue, call.color.hue.value * 100.0 / 360.0)
                  && HasEntry(plan, Saturation, call.color.saturation.value))
            && (call.kelvin != Absent ==>
                  HasEntry(plan, ColorTemperature, RoundHalfEven(call.kelvin.value) as real))
            && (call.brightness != Absent ==>
                  HasEntry(plan, Level, BrightnessToLevel(call.brightness.value) as real))
  {
    var plan := PrepareValues(call, able).plan;
    var n := |plan|;
    if call.color != NoColor {
      assert plan[n - 2] == (Hue, call.color.hue.value * 100.0 / 360.0);
      assert plan[n - 1] == (Saturation, call.color.saturation.value);
    }
    if call.kelvin != Absent { assert plan[n - 1] == (ColorTemperature, RoundHalfEven(call.kelvin.value) as real); }
    if call.brightness != Absent { assert plan[0] == (Level, BrightnessToLevel(call.brightness.value) as real); }
  }

  /** A hue that was asked for is shown again, to the four places Home Assistant shows. */
  lemma HueSurvives(hue: real)
    ensures Near(ShownHue(hue * 100.0 / 360.0), hue, 0.00005)
  {
    HueScaleInverts(hue);
    var scaled := hue * 10000.0;
    assert hue * 100.0 / 360.0 * 3.6 * 10000.0 == scaled;
    assert -0.5 <= scaled - RoundHalfEven(scaled) as real <= 0.5;
  }

  /** A whole colour temperature survives being sent and shown. */
  lemma KelvinSurvives(kelvin: int)
    ensures RoundHalfEven(kelvin as real) == kelvin && ShownKelvin(RoundHalfEven(kelvin as real) as real) == kelvin
  {
  }
}
