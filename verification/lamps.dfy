/** The lamp handlers: the power button, the brightness slider and the
    periodic lamp refresh. Each awaited remote call is given as an input
    that says whether it resolved (and, for reads, with what); a rejected
    call ends the handler there, keeping what was already done. */
module Lamps {
  import opened Devices

  // ---------------------------------------------------------------------
  // Power button

  /** Whether a power click on `lamp` gets as far as applying its saved
      colour: the state write resolved, the lamp was off, the refreshed read
      resolved, and a colour is saved. */
  predicate AppliesSaved(lamp: Lamp, stateOk: bool, read: Option<LampState>) {
    stateOk && !lamp.state.on && read.Some? && lamp.savedColor.Some?
  }

  /** A click on the power button of lamp `i`.
      The new power flag is sent first; only when that resolves does the
      local flag flip. On power-on the lamp is then re-read and its whole
      `state` replaced by the read, and a saved colour, if any, is written
      to the top-level fields and sent; only when that send resolves is the
      saved colour dropped. Power-off keeps the saved colour. */
  function PowerToggle(reg: Registry, i: int, stateOk: bool, read: Option<LampState>, colorOk: bool): (s: Step)
    requires 0 <= i < |reg.lamps|
    ensures SameDevices(reg, s.reg)
    ensures s.reg.plugs == reg.plugs && s.reg.colorPicker == reg.colorPicker && s.reg.colorRGB == reg.colorRGB
    ensures forall j :: 0 <= j < |reg.lamps| && j != i ==> s.reg.lamps[j] == reg.lamps[j]
    ensures Valid(reg) ==> Valid(s.reg)
    // the power write always goes out first, with the negated flag
    ensures 1 <= |s.trace| <= 2
    ensures s.trace[0] == SetLightState(reg.lamps[i].id, !reg.lamps[i].state.on)
    ensures |s.trace| == 2 <==> AppliesSaved(reg.lamps[i], stateOk, read)
    ensures s.reg.lamps[i].id == reg.lamps[i].id && s.reg.lamps[i].name == reg.lamps[i].name
    // a rejected power write changes nothing
    ensures !stateOk ==> s.reg == reg && s.outcome == Aborted(RemoteError)
    // power-off: only the flag changes, the saved colour stays
    ensures stateOk && reg.lamps[i].state.on ==>
              && s.outcome == Completed
              && s.reg.lamps[i].state == reg.lamps[i].state.(on := false)
              && s.reg.lamps[i].savedColor == reg.lamps[i].savedColor
              && s.reg.lamps[i].color == reg.lamps[i].color
    // power-on with a failed read: the flag is on, nothing else happens
    ensures stateOk && !reg.lamps[i].state.on && read.None? ==>
              && s.outcome == Aborted(RemoteError)
              && s.reg.lamps[i] == reg.lamps[i].(state := reg.lamps[i].state.(on := true))
    // power-on: the read replaces the state wholesale
    ensures stateOk && !reg.lamps[i].state.on && read.Some? ==>
              s.reg.lamps[i].state == read.value
    // power-on with nothing saved: no colour write
    ensures stateOk && !reg.lamps[i].state.on && read.Some? && reg.lamps[i].savedColor.None? ==>
              && s.outcome == Completed
              && s.reg.lamps[i] == reg.lamps[i].(state := read.value)
    // power-on with a saved colour: it is sent once, with its own values,
    // and is gone afterwards exactly when that send resolved
    ensures AppliesSaved(reg.lamps[i], stateOk, read) ==>
              var c := reg.lamps[i].savedColor.value;
              && s.trace[1] == SetLightColor(reg.lamps[i].id, c.hue, c.bri, c.sat)
              && s.reg.lamps[i].color == Some(c)
              && (s.reg.lamps[i].savedColor.None? <==> colorOk)
              // a rejected colour write keeps the saved colour for the next power-on
              && (!colorOk ==> s.reg.lamps[i].savedColor == reg.lamps[i].savedColor)
              && (s.outcome == Completed <==> colorOk)
  {
    var lamp := reg.lamps[i];
    var on := !lamp.state.on;
    var sent := [SetLightState(lamp.id, on)];
    if !stateOk then
      Step(reg, sent, Aborted(RemoteError))
    else
      var flipped := lamp.(state := lamp.state.(on := on));
      if !on then
        Step(WithLamp(reg, i, flipped), sent, Completed)
      else if read.None? then
        Step(WithLamp(reg, i, flipped), sent, Aborted(RemoteError))
      else
        var refreshed := flipped.(state := read.value);
        if refreshed.savedColor.None? then
          Step(WithLamp(reg, i, refreshed), sent, Completed)
        else
          var c := refreshed.savedColor.value;
          var applied := refreshed.(color := Some(c));
          var sent' := sent + [SetLightColor(lamp.id, c.hue, c.bri, c.sat)];
          if !colorOk then
            Step(WithLamp(reg, i, applied), sent', Aborted(RemoteError))
          else
            Step(WithLamp(reg, i, applied.(savedColor := None)), sent', Completed)
  }

  // ---------------------------------------------------------------------
  // Brightness slider

  /** A change of the brightness slider of lamp `i` to `bri`: the value is
      sent, and only once that resolves is the local `state.bri` set. No
      other field of any device changes. */
  function BrightnessChange(reg: Registry, i: int, bri: int, ok: bool): (s: Step)
    requires 0 <= i < |reg.lamps|
    ensures SameDevices(reg, s.reg)
    ensures s.reg.plugs == reg.plugs && s.reg.colorPicker == reg.colorPicker && s.reg.colorRGB == reg.colorRGB
    ensures forall j :: 0 <= j < |reg.lamps| && j != i ==> s.reg.lamps[j] == reg.lamps[j]
    ensures Valid(reg) ==> Valid(s.reg)
    ensures s.trace == [SetLightBri(reg.lamps[i].id, bri)]
    ensures !ok ==> s.reg == reg && s.outcome == Aborted(RemoteError)
    ensures ok ==>
              var before, after := reg.lamps[i], s.reg.lamps[i];
              && s.outcome == Completed
              && after.state.bri == bri
              && after.state.on == before.state.on
              && after.state.hue == before.state.hue
              && after.state.sat == before.state.sat
              && after.savedColor == before.savedColor
              && after.color == before.color
              && after.id == before.id && after.name == before.name
  {
    var lamp := reg.lamps[i];
    var sent := [SetLightBri(lamp.id, bri)];
    if !ok then
      Step(reg, sent, Aborted(RemoteError))
    else
      Step(WithLamp(reg, i, lamp.(state := lamp.state.(bri := bri))), sent, Completed)
  }

  /** Moving the slider to the same value twice leaves the registry as one
      move does. */
  lemma BrightnessIdempotent(reg: Registry, i: int, bri: int)
    requires 0 <= i < |reg.lamps|
    ensures
      var once := BrightnessChange(reg, i, bri, true).reg;
      BrightnessChange(once, i, bri, true).reg == once
  {
    var once := BrightnessChange(reg, i, bri, true).reg;
    assert once.lamps[i := once.lamps[i]] == once.lamps;
  }

  // ---------------------------------------------------------------------
  // Periodic refresh

  /** Index of the first lamp whose read fails, or the lamp count when all
      reads resolve. */
  function FirstFailure(lamps: seq<Lamp>, fetch: string -> Option<LampState>): (k: nat)
    ensures k <= |lamps|
    ensures forall j :: 0 <= j < k ==> fetch(lamps[j].id).Some?
    ensures k < |lamps| ==> fetch(lamps[k].id).None?
  {
    if |lamps| == 0 then 0
    else if fetch(lamps[0].id).None? then 0
    else 1 + FirstFailure(lamps[1..], fetch)
  }

  /** The first failing read is the only index with both properties. */
  lemma FirstFailureUnique(lamps: seq<Lamp>, fetch: string -> Option<LampState>, k: nat)
    requires k <= |lamps|
    requires forall j :: 0 <= j < k ==> fetch(lamps[j].id).Some?
    requires k < |lamps| ==> fetch(lamps[k].id).None?
    ensures FirstFailure(lamps, fetch) == k
  {
  }

  /** The lamp list after a refresh pass, and whether every read resolved. */
  datatype Sweep = Sweep(lamps: seq<Lamp>, complete: bool)

  /** One pass of the lamp refresh: lamps are read in list order, each
      read replacing that lamp's `state`; a read that fails ends the pass. */
  function RefreshLamps(lamps: seq<Lamp>, fetch: string -> Option<LampState>): (r: Sweep)
    ensures |r.lamps| == |lamps|
  {
    if |lamps| == 0 then Sweep([], true)
    else match fetch(lamps[0].id)
      case None => Sweep(lamps, false)
      case Some(st) =>
        var rest := RefreshLamps(lamps[1..], fetch);
        Sweep([lamps[0].(state := st)] + rest.lamps, rest.complete)
  }

  /** What a refresh pass does, against the first failing read: each read
      replaces that lamp's `state` and nothing else; the lamps before the
      failure are refreshed, it and the lamps after it are left as they
      were; the pass completes exactly when no read fails. */
  lemma {:induction false} RefreshLampsSpec(lamps: seq<Lamp>, fetch: string -> Option<LampState>)
    ensures RefreshLamps(lamps, fetch).complete <==> FirstFailure(lamps, fetch) == |lamps|
    ensures forall j :: 0 <= j < |lamps| ==>
              RefreshLamps(lamps, fetch).lamps[j] == lamps[j].(state := RefreshLamps(lamps, fetch).lamps[j].state)
    ensures forall j :: 0 <= j < FirstFailure(lamps, fetch) ==>
              RefreshLamps(lamps, fetch).lamps[j].state == fetch(lamps[j].id).value
    ensures forall j :: FirstFailure(lamps, fetch) <= j < |lamps| ==>
              RefreshLamps(lamps, fetch).lamps[j] == lamps[j]
    decreases |lamps|
  {
    if |lamps| > 0 && fetch(lamps[0].id).Some? {
      var tail := lamps[1..];
      var r := RefreshLamps(lamps, fetch);
      var rest := RefreshLamps(tail, fetch);
      RefreshLampsSpec(tail, fetch);
      var k := FirstFailure(lamps, fetch);
      assert k == 1 + FirstFailure(tail, fetch);
      assert r.lamps == [lamps[0].(state := fetch(lamps[0].id).value)] + rest.lamps;
      forall j | 1 <= j < |lamps|
        ensures r.lamps[j] == rest.lamps[j - 1] && tail[j - 1] == lamps[j]
      {
      }
    }
  }

  /** Refreshing twice against the same remote answers gives what one
      refresh gives: a refresh only copies remote state in. */
  lemma RefreshIdempotent(lamps: seq<Lamp>, fetch: string -> Option<LampState>)
    ensures RefreshLamps(RefreshLamps(lamps, fetch).lamps, fetch) == RefreshLamps(lamps, fetch)
  {
    var once := RefreshLamps(lamps, fetch);
    var k := FirstFailure(lamps, fetch);
    RefreshLampsSpec(lamps, fetch);
    FirstFailureUnique(once.lamps, fetch, k);
    RefreshLampsSpec(once.lamps, fetch);
    var twice := RefreshLamps(once.lamps, fetch);
    assert twice.lamps == once.lamps;
  }

  /** `RefreshHueInfo` as a handler on the registry. */
  function RefreshHue(reg: Registry, fetch: string -> Option<LampState>): (s: Step)
    ensures SameDevices(reg, s.reg)
    ensures s.reg.plugs == reg.plugs && s.reg.colorPicker == reg.colorPicker && s.reg.colorRGB == reg.colorRGB
    ensures s.reg.lamps == RefreshLamps(reg.lamps, fetch).lamps
    ensures s.trace == []
    ensures s.outcome == Completed <==> FirstFailure(reg.lamps, fetch) == |reg.lamps|
    ensures s.outcome != Completed ==> s.outcome == Aborted(RemoteError)
    ensures Valid(reg) ==> Valid(s.reg)
  {
    RefreshLampsSpec(reg.lamps, fetch);
    var r := RefreshLamps(reg.lamps, fetch);
    Step(reg.(lamps := r.lamps), [], if r.complete then Completed else Aborted(RemoteError))
  }
}
