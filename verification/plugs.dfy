/** The plug side: discovery of plugs from the fleet status, the plug power
    button, and the periodic plug power read. */
module Plugs {
  import opened Devices

  /** The fields discovery reads from one device of the fleet status:
      `_dev_info.code`, `wifi_sta.ip`, `getinfo.fw_info.device`,
      `relays[0].ison` and `meters[0].power`. */
  datatype DeviceStatus = DeviceStatus(code: string, ip: string, device: string, relayOn: bool, power: real)

  /** One `[id, device]` pair of the fleet status, in iteration order. */
  type Entry = (string, DeviceStatus)

  /** The model code of the plugs the dashboard shows. */
  const PlugModel: string := "SHPLG-S"

  predicate IsPlug(d: DeviceStatus) { d.code == PlugModel }

  function ToPlug(e: Entry): Plug {
    Plug(e.0, e.1.ip, e.1.device, e.1.relayOn, e.1.power)
  }

  /** The plug records discovery makes from a fleet status, in order. */
  function Registered(fleet: seq<Entry>): (ps: seq<Plug>)
    ensures |ps| <= |fleet|
  {
    if |fleet| == 0 then []
    else (if IsPlug(fleet[0].1) then [ToPlug(fleet[0])] else []) + Registered(fleet[1..])
  }

  /** Discovery treats the fleet status entry by entry, left to right. */
  lemma {:induction false} RegisteredAppend(f: seq<Entry>, g: seq<Entry>)
    ensures Registered(f + g) == Registered(f) + Registered(g)
    decreases |f|
  {
    if |f| == 0 {
      assert f + g == g;
    } else {
      var head := if IsPlug(f[0].1) then [ToPlug(f[0])] else [];
      assert (f + g)[0] == f[0];
      assert (f + g)[1..] == f[1..] + g;
      assert Registered(f + g) == head + Registered(f[1..] + g);
      RegisteredAppend(f[1..], g);
      assert head + (Registered(f[1..]) + Registered(g)) == (head + Registered(f[1..])) + Registered(g);
    }
  }

  /** Exactly the entries with the plug model code are registered. */
  lemma {:induction false} RegisteredExactly(fleet: seq<Entry>, p: Plug)
    ensures p in Registered(fleet) <==> exists e :: e in fleet && IsPlug(e.1) && p == ToPlug(e)
    decreases |fleet|
  {
    if |fleet| > 0 {
      RegisteredExactly(fleet[1..], p);
      assert fleet == [fleet[0]] + fleet[1..];
      if exists e :: e in fleet && IsPlug(e.1) && p == ToPlug(e) {
        var e :| e in fleet && IsPlug(e.1) && p == ToPlug(e);
        if e != fleet[0] {
          assert e in fleet[1..];
        }
      }
    }
  }

  /** Registered plugs carry their entry's key, so distinct keys give
      distinct plug ids. */
  lemma {:induction false} RegisteredIds(fleet: seq<Entry>)
    ensures forall p :: p in Registered(fleet) ==> exists e :: e in fleet && p.id == e.0
    ensures (forall i, j :: 0 <= i < j < |fleet| ==> fleet[i].0 != fleet[j].0) ==>
              PlugIdsDistinct(Registered(fleet))
    decreases |fleet|
  {
    if |fleet| > 0 {
      var tail := fleet[1..];
      RegisteredIds(tail);
      var rest := Registered(tail);
      var all := Registered(fleet);
      forall p | p in rest
        ensures exists e :: e in fleet && p.id == e.0
      {
        var e :| e in tail && p.id == e.0;
        assert e in fleet;
      }
      if forall i, j :: 0 <= i < j < |fleet| ==> fleet[i].0 != fleet[j].0 {
        forall i, j | 0 <= i < j < |tail|
          ensures tail[i].0 != tail[j].0
        {
          assert tail[i] == fleet[i + 1] && tail[j] == fleet[j + 1];
        }
        forall p | p in rest
          ensures p.id != fleet[0].0
        {
          var e :| e in tail && p.id == e.0;
          var j :| 0 <= j < |tail| && tail[j] == e;
          assert fleet[j + 1] == e;
        }
        if IsPlug(fleet[0].1) {
          assert all == [ToPlug(fleet[0])] + rest;
          forall i, j | 0 <= i < j < |all|
            ensures all[i].id != all[j].id
          {
            assert all[j] == rest[j - 1];
            if i > 0 {
              assert all[i] == rest[i - 1];
            } else {
              assert all[j] in rest;
            }
          }
        } else {
          assert all == rest;
        }
      }
    }
  }

  /** `placeShellyOnDom`'s registration loop: the plugs are appended to
      `plugs` in fleet order. A failed fleet read (`undefined`) throws
      before any plug is registered. */
  method DiscoverPlugs(plugs: seq<Plug>, fleet: Option<seq<Entry>>) returns (r: seq<Plug>, outcome: Outcome)
    ensures fleet.None? ==> r == plugs && outcome == Aborted(TypeError)
    ensures fleet.Some? ==> outcome == Completed && r == plugs + Registered(fleet.value)
  {
    if fleet.None? {
      return plugs, Aborted(TypeError);
    }
    var entries := fleet.value;
    r := plugs;
    var k := 0;
    while k < |entries|
      invariant 0 <= k <= |entries|
      invariant r == plugs + Registered(entries[..k])
    {
      var e := entries[k];
      assert entries[..k + 1] == entries[..k] + [e];
      RegisteredAppend(entries[..k], [e]);
      assert Registered([e]) == (if IsPlug(e.1) then [ToPlug(e)] else []) by {
        assert [e][1..] == [];
      }
      if IsPlug(e.1) {
        r := r + [ToPlug(e)];
      }
      k := k + 1;
    }
    assert entries[..k] == entries;
    outcome := Completed;
  }

  /** `find` on the plug list: the index of the first plug with the id, or -1. */
  function FindPlug(plugs: seq<Plug>, id: string): (k: int)
    ensures -1 <= k < |plugs|
    ensures k == -1 <==> forall j :: 0 <= j < |plugs| ==> plugs[j].id != id
    ensures 0 <= k ==> plugs[k].id == id
    ensures forall j :: 0 <= j < k ==> plugs[j].id != id
  {
    FirstIndex(Ids(plugs, (p: Plug) => p.id), id)
  }

  function TurnWord(on: bool): string {
    if on then "on" else "off"
  }

  /** A click on the power button of plug `id`. The negated flag is sent as
      `"on"`/`"off"` to relay 0 at the plug's address; the local flag flips
      only when that resolves. A rejection is caught, so the handler still
      completes. A plug missing from the list makes the lookup `undefined`. */
  function PlugToggle(reg: Registry, id: string, ok: bool): (s: Step)
    ensures SameDevices(reg, s.reg)
    ensures s.reg.lamps == reg.lamps && s.reg.colorPicker == reg.colorPicker && s.reg.colorRGB == reg.colorRGB
    ensures Valid(reg) ==> Valid(s.reg)
    ensures FindPlug(reg.plugs, id) == -1 ==> s == Step(reg, [], Aborted(TypeError))
    ensures FindPlug(reg.plugs, id) >= 0 ==>
              var k := FindPlug(reg.plugs, id);
              var plug := reg.plugs[k];
              && s.outcome == Completed
              && s.trace == [SetPlugState(0, plug.ip, TurnWord(!plug.isOn))]
              && (forall j :: 0 <= j < |reg.plugs| && j != k ==> s.reg.plugs[j] == reg.plugs[j])
              && s.reg.plugs[k] == (if ok then plug.(isOn := !plug.isOn) else plug)
    ensures !ok ==> s.reg == reg
  {
    var k := FindPlug(reg.plugs, id);
    if k == -1 then
      Step(reg, [], Aborted(TypeError))
    else
      var plug := reg.plugs[k];
      var on := !plug.isOn;
      var sent := [SetPlugState(0, plug.ip, TurnWord(on))];
      if ok then Step(WithPlug(reg, k, plug.(isOn := on)), sent, Completed)
      else Step(reg, sent, Completed)
  }

  /** Two successful clicks on a listed plug restore the registry and send
      the two opposite words. */
  lemma PlugToggleTwice(reg: Registry, id: string)
    requires FindPlug(reg.plugs, id) >= 0
    ensures
      var first := PlugToggle(reg, id, true);
      var second := PlugToggle(first.reg, id, true);
      && second.reg == reg
      && {first.trace[0].turn, second.trace[0].turn} == {"on", "off"}
  {
    var k := FindPlug(reg.plugs, id);
    var first := PlugToggle(reg, id, true);
    assert FindPlug(first.reg.plugs, id) == k;
    assert first.reg.plugs[k := reg.plugs[k]] == reg.plugs;
  }

  /** The power values the plug pass shows, in list order: each plug's
      power is read and shown, and a read that fails ends the pass, so the
      readings are those of the plugs before the first failure. */
  function PowerReadings(plugs: seq<Plug>, power: string -> Option<real>): (shown: seq<real>)
    ensures |shown| <= |plugs|
    ensures forall j :: 0 <= j < |shown| ==> power(plugs[j].id) == Some(shown[j])
    ensures |shown| < |plugs| ==> power(plugs[|shown|].id).None?
  {
    if |plugs| == 0 then []
    else match power(plugs[0].id)
      case None => []
      case Some(watts) => [watts] + PowerReadings(plugs[1..], power)
  }

  /** `RefreshShellyInfo`: the power is only shown, so the registry never
      changes; the pass completes exactly when every read resolves. */
  function RefreshPlugs(reg: Registry, power: string -> Option<real>): (s: Step)
    ensures s.reg == reg && s.trace == []
    ensures s.outcome == Completed <==> forall k :: 0 <= k < |reg.plugs| ==> power(reg.plugs[k].id).Some?
    ensures s.outcome != Completed ==> s.outcome == Aborted(RemoteError)
  {
    var shown := PowerReadings(reg.plugs, power);
    Step(reg, [], if |shown| == |reg.plugs| then Completed else Aborted(RemoteError))
  }
}
