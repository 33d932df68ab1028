/** The dashboard's in-memory state: the lamp and plug lists, the lamp the
    colour wheel targets and the last colour the wheel produced, plus the
    remote commands a handler issues and how it ended. */
module Devices {
  import opened Wheel

  datatype Option<T> = None | Some(value: T)

  /** A colour in the lamp protocol's encoding, in the field order the
      handlers use: hue, brightness, saturation. */
  datatype Hsb = Hsb(hue: int, bri: int, sat: int)

  /** The `state` object a lamp read returns. */
  datatype LampState = LampState(on: bool, hue: int, sat: int, bri: int)

  /** A lamp record. `color` stands for the top-level `hue`/`bri`/`sat` fields,
      absent until a colour is written and always written together;
      `savedColor` is the colour held back while the lamp is off. */
  datatype Lamp = Lamp(
    id: string,
    name: string,
    state: LampState,
    color: Option<Hsb>,
    savedColor: Option<Hsb>)

  /** A plug record; `power` is the draw in watts seen at discovery. */
  datatype Plug = Plug(id: string, ip: string, name: string, isOn: bool, power: real)

  /** The page's module-level variables. `colorPicker` is the index of the
      lamp the wheel targets, -1 for none; `colorRGB` is absent until the
      pointer first moves over the wheel. */
  datatype Registry = Registry(
    lamps: seq<Lamp>,
    plugs: seq<Plug>,
    colorPicker: int,
    colorRGB: Option<Rgb>)

  /** The remote writes a handler issues, with their arguments in call order. */
  datatype Command =
    | SetLightColor(lampId: string, hue: int, bri: int, sat: int)
    | SetLightState(lampId: string, on: bool)
    | SetLightBri(lampId: string, bri: int)
    | SetPlugState(relay: int, ip: string, turn: string)

  /** Why a handler stopped early: a property read on `undefined`, or an
      awaited remote call that rejected. */
  datatype Fault = TypeError | RemoteError

  datatype Outcome = Completed | Aborted(fault: Fault)

  /** The result of running one handler to completion (or to the throw). */
  datatype Step = Step(reg: Registry, trace: seq<Command>, outcome: Outcome)

  /** The state at page load, before discovery. */
  const Initial: Registry := Registry([], [], -1, None)

  predicate LampIdsDistinct(lamps: seq<Lamp>) {
    forall i, j :: 0 <= i < j < |lamps| ==> lamps[i].id != lamps[j].id
  }

  predicate PlugIdsDistinct(plugs: seq<Plug>) {
    forall i, j :: 0 <= i < j < |plugs| ==> plugs[i].id != plugs[j].id
  }

  /** What holds of the registry between handlers: ids are keys of the
      fleet objects, hence distinct, and the wheel targets a listed lamp
      or none. */
  predicate Valid(reg: Registry) {
    && LampIdsDistinct(reg.lamps)
    && PlugIdsDistinct(reg.plugs)
    && -1 <= reg.colorPicker < |reg.lamps|
  }

  /** No handler adds, removes, reorders or renames devices. */
  predicate SameDevices(reg: Registry, reg': Registry) {
    && |reg'.lamps| == |reg.lamps|
    && (forall i :: 0 <= i < |reg.lamps| ==> reg'.lamps[i].id == reg.lamps[i].id)
    && |reg'.plugs| == |reg.plugs|
    && (forall i :: 0 <= i < |reg.plugs| ==> reg'.plugs[i].id == reg.plugs[i].id)
  }

  /** The first position of `id` in a list of ids, or -1: what the
      handlers' `find`/`findIndex` by id compute. */
  function FirstIndex(ids: seq<string>, id: string): (k: int)
    ensures -1 <= k < |ids|
    ensures k == -1 <==> id !in ids
    ensures 0 <= k ==> ids[k] == id
    ensures forall j :: 0 <= j < k ==> ids[j] != id
  {
    if |ids| == 0 then -1
    else if ids[0] == id then 0
    else
      var k := FirstIndex(ids[1..], id);
      if k == -1 then -1 else k + 1
  }

  /** The key of every element of a device list, in list order. */
  function Ids<T>(xs: seq<T>, key: T -> string): (ids: seq<string>)
    ensures |ids| == |xs| && forall k :: 0 <= k < |xs| ==> ids[k] == key(xs[k])
  {
    seq(|xs|, k requires 0 <= k < |xs| => key(xs[k]))
  }

  /** The registry with lamp `i` replaced. */
  function WithLamp(reg: Registry, i: int, lamp: Lamp): (reg': Registry)
    requires 0 <= i < |reg.lamps|
    ensures |reg'.lamps| == |reg.lamps|
    ensures reg'.lamps[i] == lamp
    ensures forall j :: 0 <= j < |reg.lamps| && j != i ==> reg'.lamps[j] == reg.lamps[j]
    ensures reg'.plugs == reg.plugs
    ensures reg'.colorPicker == reg.colorPicker && reg'.colorRGB == reg.colorRGB
  {
    reg.(lamps := reg.lamps[i := lamp])
  }

  /** The registry with plug `k` replaced. */
  function WithPlug(reg: Registry, k: int, plug: Plug): (reg': Registry)
    requires 0 <= k < |reg.plugs|
    ensures |reg'.plugs| == |reg.plugs|
    ensures reg'.plugs[k] == plug
    ensures forall j :: 0 <= j < |reg.plugs| && j != k ==> reg'.plugs[j] == reg.plugs[j]
    ensures reg'.lamps == reg.lamps
    ensures reg'.colorPicker == reg.colorPicker && reg'.colorRGB == reg.colorRGB
  {
    reg.(plugs := reg.plugs[k := plug])
  }

  /** How many of the commands are colour writes to the lamp `id`. */
  function ColorWrites(trace: seq<Command>, id: string): (n: nat)
    ensures n <= |trace|
  {
    if |trace| == 0 then 0
    else ColorWrites(trace[..|trace| - 1], id)
         + (if trace[|trace| - 1].SetLightColor? && trace[|trace| - 1].lampId == id then 1 else 0)
  }

  lemma {:induction false} ColorWritesAppend(t: seq<Command>, u: seq<Command>, id: string)
    ensures ColorWrites(t + u, id) == ColorWrites(t, id) + ColorWrites(u, id)
    decreases |u|
  {
    if |u| == 0 {
      assert t + u == t;
    } else {
      assert (t + u)[..|t + u| - 1] == t + u[..|u| - 1];
      ColorWritesAppend(t, u[..|u| - 1], id);
    }
  }

  /** Colour writes counted in the empty trace and in a one-command trace. */
  lemma ColorWritesSmall(id: string)
    ensures ColorWrites([], id) == 0
    ensures forall c: Command :: ColorWrites([c], id) == (if c.SetLightColor? && c.lampId == id then 1 else 0)
  {
    forall c: Command
      ensures ColorWrites([c], id) == (if c.SetLightColor? && c.lampId == id then 1 else 0)
    {
      assert [c][..0] == [];
    }
  }
}
