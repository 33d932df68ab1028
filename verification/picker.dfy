/** The colour wheel's event handlers: pointer movement records a colour,
    the palette icon of a lamp targets that lamp, and a click on the wheel
    applies the recorded colour to the targeted lamp, or holds it back as
    the lamp's saved colour while the lamp is off. */
module Picker {
  import opened Wheel
  import opened Devices

  /** `findIndex` on the lamp list: the first lamp with the id, or -1. */
  function FindLamp(lamps: seq<Lamp>, id: string): (k: int)
    ensures -1 <= k < |lamps|
    ensures k == -1 <==> forall j :: 0 <= j < |lamps| ==> lamps[j].id != id
    ensures 0 <= k ==> lamps[k].id == id
    ensures forall j :: 0 <= j < k ==> lamps[j].id != id
  {
    FirstIndex(Ids(lamps, (l: Lamp) => l.id), id)
  }

  /** `mousemove` over the wheel: store the colour under the pointer. */
  function MouseMove(reg: Registry, heading: real, radius: real): (reg': Registry)
    requires 0.0 <= heading <= 360.0
    requires 0.0 <= radius
    ensures reg'.colorRGB == Some(WheelColor(heading, radius))
    ensures IsColor(reg'.colorRGB.value)
    ensures radius >= 0.8 ==> reg'.colorRGB.value == RoundMix(Ring(heading))
    ensures radius == 0.0 ==> reg'.colorRGB.value == White
    // inside the rim the stored colour lies between the ring colour and white
    ensures var ring, c := RoundMix(Ring(heading)), reg'.colorRGB.value;
            && ring.r <= c.r <= 255 && ring.g <= c.g <= 255 && ring.b <= c.b <= 255
    ensures reg'.lamps == reg.lamps && reg'.plugs == reg.plugs
    ensures reg'.colorPicker == reg.colorPicker
  {
    BetweenRingAndWhite(heading, radius);
    reg.(colorRGB := Some(WheelColor(heading, radius)))
  }

  /** Of two pointer positions at the same heading, the one nearer the
      centre stores a colour no darker in any channel. */
  lemma MoveFades(reg: Registry, heading: real, inner: real, outer: real)
    requires 0.0 <= heading <= 360.0
    requires 0.0 <= inner <= outer
    ensures var ci, co := MouseMove(reg, heading, inner).colorRGB.value, MouseMove(reg, heading, outer).colorRGB.value;
            && ci.r >= co.r && ci.g >= co.g && ci.b >= co.b
  {
    TowardWhite(heading, inner, outer);
  }

  /** A click on the palette icon of lamp `i`: target the first lamp with
      that lamp's id. Nothing else changes. */
  function SelectPalette(reg: Registry, i: int): (reg': Registry)
    requires 0 <= i < |reg.lamps|
    ensures reg'.lamps == reg.lamps && reg'.plugs == reg.plugs
    ensures 0 <= reg'.colorPicker <= i
    ensures reg'.lamps[reg'.colorPicker].id == reg.lamps[i].id
    ensures LampIdsDistinct(reg.lamps) ==> reg'.colorPicker == i
    ensures reg'.colorRGB == reg.colorRGB
    ensures Valid(reg) ==> Valid(reg')
  {
    reg.(colorPicker := FindLamp(reg.lamps, reg.lamps[i].id))
  }

  /** Whether a click on the wheel has a lamp to act on. */
  predicate Targeted(reg: Registry) {
    0 <= reg.colorPicker < |reg.lamps|
  }

  /** A click on the wheel. `toHsb` is the protocol conversion of the
      recorded colour; its definition is outside this model.
      - No targeted lamp: nothing happens (the handler just returns).
      - No colour recorded yet: reading its channels throws.
      - Targeted lamp off: the converted colour becomes its saved colour.
      - Targeted lamp on: the converted colour is written to the lamp's
        top-level fields and sent with `setLightColor`, whose promise is not
        awaited, so its failure does not reach this handler. */
  function ColorClick(reg: Registry, toHsb: Rgb -> Hsb): (s: Step)
    ensures SameDevices(reg, s.reg)
    ensures s.reg.plugs == reg.plugs && s.reg.colorRGB == reg.colorRGB
    ensures forall j :: 0 <= j < |reg.lamps| && j != reg.colorPicker ==> s.reg.lamps[j] == reg.lamps[j]
    ensures !Targeted(reg) ==> s == Step(reg, [], Completed)
    ensures Targeted(reg) && reg.colorRGB.None? ==> s == Step(reg, [], Aborted(TypeError))
    ensures s.outcome.Completed? && Targeted(reg) ==>
              && s.reg.colorPicker == -1
              && s.reg.lamps[reg.colorPicker].state == reg.lamps[reg.colorPicker].state
    ensures Targeted(reg) && reg.colorRGB.Some? && !reg.lamps[reg.colorPicker].state.on ==>
              var lamp := reg.lamps[reg.colorPicker];
              && s.outcome == Completed && s.reg.colorPicker == -1
              && s.trace == []
              && s.reg.lamps[reg.colorPicker] == lamp.(savedColor := Some(toHsb(reg.colorRGB.value)))
    ensures Targeted(reg) && reg.colorRGB.Some? && reg.lamps[reg.colorPicker].state.on ==>
              var lamp := reg.lamps[reg.colorPicker];
              var c := toHsb(reg.colorRGB.value);
              && s.outcome == Completed && s.reg.colorPicker == -1
              && s.trace == [SetLightColor(lamp.id, c.hue, c.bri, c.sat)]
              && s.reg.lamps[reg.colorPicker] == lamp.(color := Some(c))
    ensures Valid(reg) ==> Valid(s.reg)
  {
    if reg.colorPicker < 0 || reg.colorPicker >= |reg.lamps| then
      Step(reg, [], Completed)
    else if reg.colorRGB.None? then
      Step(reg, [], Aborted(TypeError))
    else
      var i := reg.colorPicker;
      var lamp := reg.lamps[i];
      var c := toHsb(reg.colorRGB.value);
      if !lamp.state.on then
        Step(WithLamp(reg, i, lamp.(savedColor := Some(c))).(colorPicker := -1), [], Completed)
      else
        Step(WithLamp(reg, i, lamp.(color := Some(c))).(colorPicker := -1),
             [SetLightColor(lamp.id, c.hue, c.bri, c.sat)], Completed)
  }
}
