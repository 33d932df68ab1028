/** A page session: start-up, the one-second refresh tick, and runs of user
    and timer events, each handler running to completion before the next.
    The lemmas here relate several handlers: the saved colour of a lamp is
    applied on the next power-on and then never again without a new click. */
module Session {
  import opened Wheel
  import opened Devices
  import opened Picker
  import opened Lamps
  import opened Plugs

  // ---------------------------------------------------------------------
  // Start-up

  /** What a lamp entry of the lamp fleet status carries. */
  datatype LampInfo = LampInfo(name: string, state: LampState)

  /** The lamp list built from the lamp fleet status: one record per key, in
      key order, with no colour written and none saved. */
  function LampsFrom(fleet: seq<(string, LampInfo)>): (lamps: seq<Lamp>)
    ensures |lamps| == |fleet|
    ensures forall k :: 0 <= k < |fleet| ==>
              && lamps[k].id == fleet[k].0 && lamps[k].name == fleet[k].1.name
              && lamps[k].state == fleet[k].1.state
              && lamps[k].color.None? && lamps[k].savedColor.None?
    // the ids are the fleet keys, so distinct keys give distinct lamp ids
    ensures (forall i, j :: 0 <= i < j < |fleet| ==> fleet[i].0 != fleet[j].0) ==> LampIdsDistinct(lamps)
  {
    seq(|fleet|, k requires 0 <= k < |fleet| => Lamp(fleet[k].0, fleet[k].1.name, fleet[k].1.state, None, None))
  }

  /** The registry once both device lists are placed, before any refresh. */
  function Placed(plugFleet: seq<Entry>, lampFleet: seq<(string, LampInfo)>): Registry {
    Registry(LampsFrom(lampFleet), Registered(plugFleet), -1, None)
  }

  datatype Startup = Startup(reg: Registry, polling: bool)

  /** Page load: plugs are discovered, then lamps. When some device was
      found, the first refresh tick runs (`power` and `fetch` are its
      reads), and polling starts only after that tick completes: a failed
      read throws out of the load handler before `setInterval`, so the page
      never refreshes again. A failed plug fleet read throws before the
      lamps are placed, so nothing starts. */
  function Boot(plugFleet: Option<seq<Entry>>, lampFleet: seq<(string, LampInfo)>,
                power: string -> Option<real>, fetch: string -> Option<LampState>): (b: Startup)
    ensures plugFleet.None? ==> b == Startup(Initial, false)
    ensures plugFleet.Some? ==>
              && SameDevices(Placed(plugFleet.value, lampFleet), b.reg)
              && b.reg.plugs == Registered(plugFleet.value)
              && (forall k :: 0 <= k < |lampFleet| ==>
                    b.reg.lamps[k] == LampsFrom(lampFleet)[k].(state := b.reg.lamps[k].state))
              && b.reg.colorPicker == -1 && b.reg.colorRGB.None?
    // polling starts exactly when some device exists and the first tick completes
    ensures b.polling <==>
              && plugFleet.Some?
              && |Registered(plugFleet.value)| + |lampFleet| > 0
              && Tick(Placed(plugFleet.value, lampFleet), power, fetch).outcome == Completed
    // one failed read at load is enough to stop all refreshing
    ensures plugFleet.Some? && (exists k :: 0 <= k < |lampFleet| && fetch(lampFleet[k].0).None?) ==> !b.polling
    ensures plugFleet.Some? && (exists p :: p in Registered(plugFleet.value) && power(p.id).None?) ==> !b.polling
    // once polling, every lamp shows what its first read returned
    ensures b.polling ==> forall k :: 0 <= k < |lampFleet| ==> b.reg.lamps[k].state == fetch(lampFleet[k].0).value
    ensures forall k :: 0 <= k < |b.reg.lamps| ==> b.reg.lamps[k].savedColor.None?
    ensures plugFleet.Some?
            && (forall i, j :: 0 <= i < j < |plugFleet.value| ==> plugFleet.value[i].0 != plugFleet.value[j].0)
            && (forall i, j :: 0 <= i < j < |lampFleet| ==> lampFleet[i].0 != lampFleet[j].0)
            ==> Valid(b.reg)
  {
    if plugFleet.None? then Startup(Initial, false)
    else
      RegisteredIds(plugFleet.value);
      var reg := Placed(plugFleet.value, lampFleet);
      if |reg.plugs| + |reg.lamps| == 0 then Startup(reg, false)
      else
        var first := Tick(reg, power, fetch);
        Startup(first.reg, first.outcome == Completed)
  }

  // ---------------------------------------------------------------------
  // The refresh tick

  /** `refreshAllStates`: the plug pass, then the lamp pass. A failed plug
      read ends the tick before any lamp is read. */
  function Tick(reg: Registry, power: string -> Option<real>, fetch: string -> Option<LampState>): (s: Step)
    ensures SameDevices(reg, s.reg)
    ensures s.trace == []
    ensures s.reg.plugs == reg.plugs && s.reg.colorPicker == reg.colorPicker && s.reg.colorRGB == reg.colorRGB
    ensures RefreshPlugs(reg, power).outcome != Completed ==>
              s.reg == reg && s.outcome == Aborted(RemoteError)
    ensures RefreshPlugs(reg, power).outcome == Completed ==>
              s.reg.lamps == RefreshLamps(reg.lamps, fetch).lamps
    ensures forall j :: 0 <= j < |reg.lamps| ==>
              s.reg.lamps[j] == reg.lamps[j].(state := s.reg.lamps[j].state)
    // the tick completes exactly when every plug read and every lamp read resolves
    ensures s.outcome == Completed <==>
              RefreshPlugs(reg, power).outcome == Completed && FirstFailure(reg.lamps, fetch) == |reg.lamps|
    ensures s.outcome != Completed ==> s.outcome == Aborted(RemoteError)
    ensures s.outcome == Completed ==>
              forall j :: 0 <= j < |reg.lamps| ==> s.reg.lamps[j].state == fetch(reg.lamps[j].id).value
    ensures Valid(reg) ==> Valid(s.reg)
  {
    RefreshLampsSpec(reg.lamps, fetch);
    var p := RefreshPlugs(reg, power);
    if p.outcome != Completed then p else RefreshHue(reg, fetch)
  }

  /** A failed read of lamp `k` leaves every later lamp unrefreshed, even
      those whose read would have resolved: failures are not isolated. */
  lemma NoPerLampIsolation(reg: Registry, power: string -> Option<real>,
                             fetch: string -> Option<LampState>, k: int)
    requires 0 <= k < |reg.lamps|
    requires forall j :: 0 <= j < k ==> fetch(reg.lamps[j].id).Some?
    requires fetch(reg.lamps[k].id).None?
    ensures Tick(reg, power, fetch).outcome == Aborted(RemoteError)
    ensures forall j :: k <= j < |reg.lamps| ==> Tick(reg, power, fetch).reg.lamps[j] == reg.lamps[j]
  {
    FirstFailureUnique(reg.lamps, fetch, k);
    RefreshLampsSpec(reg.lamps, fetch);
  }

  /** A refresh that reports the lamp on does not drop its saved colour:
      "saved colour only while off" is not an invariant of this code. */
  lemma OnWithSavedColor(lamp: Lamp, c: Hsb, st: LampState, power: string -> Option<real>)
    requires st.on
    ensures
      var reg := Registry([lamp.(savedColor := Some(c))], [], -1, None);
      var s := Tick(reg, power, (id: string) => Some(st));
      && s.outcome == Completed
      && s.reg.lamps[0].state.on
      && s.reg.lamps[0].savedColor == Some(c)
  {
    var reg := Registry([lamp.(savedColor := Some(c))], [], -1, None);
    var fetch := (id: string) => Some(st);
    FirstFailureUnique(reg.lamps, fetch, 1);
    RefreshLampsSpec(reg.lamps, fetch);
  }

  // ---------------------------------------------------------------------
  // Runs of events

  /** One event the page reacts to, with the results of the remote calls
      its handler awaits. */
  datatype Event =
    | Move(heading: real, radius: real)
    | Palette(lamp: int)
    | Click(toHsb: Rgb -> Hsb)
    | Power(lamp: int, stateOk: bool, read: Option<LampState>, colorOk: bool)
    | Dim(lamp: int, bri: int, ok: bool)
    | PlugClick(plugId: string, ok: bool)
    | Poll(power: string -> Option<real>, fetch: string -> Option<LampState>)

  /** Events that can occur on a page showing `n` lamps: the lamp controls
      exist only for listed lamps, and the pointer geometry yields a heading
      in [0,360] and a non-negative radius. */
  predicate Enabled(n: nat, e: Event) {
    match e
    case Move(heading, radius) => 0.0 <= heading <= 360.0 && 0.0 <= radius
    case Palette(i) => 0 <= i < n
    case Power(i, _, _, _) => 0 <= i < n
    case Dim(i, _, _) => 0 <= i < n
    case _ => true
  }

  function Apply(reg: Registry, e: Event): (s: Step)
    requires Enabled(|reg.lamps|, e)
    ensures SameDevices(reg, s.reg)
    ensures Valid(reg) ==> Valid(s.reg)
  {
    match e
    case Move(heading, radius) => Step(MouseMove(reg, heading, radius), [], Completed)
    case Palette(i) => Step(SelectPalette(reg, i), [], Completed)
    case Click(toHsb) => ColorClick(reg, toHsb)
    case Power(i, stateOk, read, colorOk) => PowerToggle(reg, i, stateOk, read, colorOk)
    case Dim(i, bri, ok) => BrightnessChange(reg, i, bri, ok)
    case PlugClick(id, ok) => PlugToggle(reg, id, ok)
    case Poll(power, fetch) => Tick(reg, power, fetch)
  }

  /** The registry after a run and every command it sent, in order. */
  datatype History = History(reg: Registry, trace: seq<Command>)

  predicate AllEnabled(n: nat, events: seq<Event>) {
    forall k :: 0 <= k < |events| ==> Enabled(n, events[k])
  }

  /** Events handled one after another; a handler that throws ends only its
      own event. */
  function Run(reg: Registry, events: seq<Event>): (h: History)
    requires AllEnabled(|reg.lamps|, events)
    ensures SameDevices(reg, h.reg)
    ensures Valid(reg) ==> Valid(h.reg)
    decreases |events|
  {
    if |events| == 0 then History(reg, [])
    else
      var s := Apply(reg, events[0]);
      var h := Run(s.reg, events[1..]);
      History(h.reg, s.trace + h.trace)
  }

  /** Without colour picks, no handler gives lamp `i` a saved colour or
      writes a colour to it unless one was already saved. */
  lemma ApplyKeepsNothingSaved(reg: Registry, e: Event, i: int)
    requires Valid(reg)
    requires 0 <= i < |reg.lamps|
    requires Enabled(|reg.lamps|, e)
    requires !e.Click?
    requires reg.lamps[i].savedColor.None?
    ensures Apply(reg, e).reg.lamps[i].savedColor.None?
    ensures ColorWrites(Apply(reg, e).trace, reg.lamps[i].id) == 0
  {
    var s := Apply(reg, e);
    var id := reg.lamps[i].id;
    ColorWritesSmall(id);
    match e
    case Power(j, stateOk, read, colorOk) =>
      if |s.trace| == 2 {
        assert j != i;
        assert s.trace == [s.trace[0]] + [s.trace[1]];
        ColorWritesAppend([s.trace[0]], [s.trace[1]], id);
      }
    case _ =>
  }

  /** Without colour picks, a lamp with nothing saved never has a colour
      written and never gains a saved colour, whatever else happens. */
  lemma {:induction false} RunKeepsNothingSaved(reg: Registry, events: seq<Event>, i: int)
    requires Valid(reg)
    requires 0 <= i < |reg.lamps|
    requires AllEnabled(|reg.lamps|, events)
    requires forall k :: 0 <= k < |events| ==> !events[k].Click?
    requires reg.lamps[i].savedColor.None?
    ensures Run(reg, events).reg.lamps[i].savedColor.None?
    ensures ColorWrites(Run(reg, events).trace, reg.lamps[i].id) == 0
    decreases |events|
  {
    if |events| > 0 {
      var s := Apply(reg, events[0]);
      ApplyKeepsNothingSaved(reg, events[0], i);
      assert AllEnabled(|s.reg.lamps|, events[1..]);
      RunKeepsNothingSaved(s.reg, events[1..], i);
      ColorWritesAppend(s.trace, Run(s.reg, events[1..]).trace, reg.lamps[i].id);
    }
  }

  /** The deferred colour round: with lamp `i` off, picking it and clicking
      the wheel saves the colour and sends nothing; powering it on (every
      call resolving) sends the power write and exactly one colour write
      with the saved values, and clears the saved colour; afterwards, until
      the next colour pick, no colour is written to it again. The lamp's
      `state` is the fresh read, not the applied colour. */
  lemma {:induction false} DeferredColorAppliedOnce(reg: Registry, i: int, toHsb: Rgb -> Hsb,
                                                    st: LampState, later: seq<Event>)
    requires Valid(reg)
    requires 0 <= i < |reg.lamps|
    requires !reg.lamps[i].state.on
    requires reg.colorRGB.Some?
    requires AllEnabled(|reg.lamps|, later)
    requires forall k :: 0 <= k < |later| ==> !later[k].Click?
    ensures
      var id := reg.lamps[i].id;
      var c := toHsb(reg.colorRGB.value);
      var picked := ColorClick(SelectPalette(reg, i), toHsb);
      var powered := PowerToggle(picked.reg, i, true, Some(st), true);
      var after := Run(powered.reg, later);
      && picked.trace == []
      && picked.reg.lamps[i].savedColor == Some(c)
      && picked.reg.lamps[i].state == reg.lamps[i].state
      && powered.trace == [SetLightState(id, true), SetLightColor(id, c.hue, c.bri, c.sat)]
      && powered.reg.lamps[i].savedColor.None?
      && powered.reg.lamps[i].color == Some(c)
      && powered.reg.lamps[i].state == st
      && ColorWrites(powered.trace + after.trace, id) == 1
  {
    var id := reg.lamps[i].id;
    var c := toHsb(reg.colorRGB.value);
    var selected := SelectPalette(reg, i);
    var picked := ColorClick(selected, toHsb);
    var powered := PowerToggle(picked.reg, i, true, Some(st), true);
    assert powered.trace == [powered.trace[0]] + [powered.trace[1]];
    ColorWritesSmall(id);
    ColorWritesAppend([powered.trace[0]], [powered.trace[1]], id);
    RunKeepsNothingSaved(powered.reg, later, i);
    ColorWritesAppend(powered.trace, Run(powered.reg, later).trace, id);
  }
}
