# Home dashboard: colour wheel and device-state model

This project models, in Dafny, the browser dashboard that controls Shelly
smart plugs and Philips Hue lamps (`resources/js/script.js`). Two parts are
modelled:

- **The colour wheel** (module `Wheel`). A pointer heading in degrees is
  scaled onto the seven-entry anchor palette, whose last entry repeats the
  first. The two neighbouring anchors are interpolated. The radius is cut
  off at 1. The ring colour is blended toward white with weight
  `cw = r < 0.8 ? r/0.8 : 1`. Each channel is then rounded with `Math.round`.
  The arithmetic is exact `real`. Rounding is `(x + 0.5).Floor`.
- **The device handlers** (modules `Devices`, `Picker`, `Lamps`, `Plugs`,
  `Session`). The page's module-level variables are one immutable
  `Registry`: the lamp list, the plug list, the wheel target `colorPicker`
  and the last wheel colour `colorRGB`. Each event handler is a pure
  function. It maps the registry and the results of the remote calls it
  awaits to a `Step`: the new registry, the remote writes issued
  (`setLightColor`, `setLightState`, `setLightBri`, `setPlugState`, in call
  order), and whether the handler completed or threw. A rejected awaited
  call ends the handler at that point. What the handler did before that
  point stays done.

The colour conversion `rgbToHSB` is not defined in `script.js` or
`shelly.js`. It is a function parameter (`toHsb`) of the click handler.
Remote reads are inputs: `getLightInfo` gives an `Option<LampState>`, the
fleet status reads give entry sequences, and `GetPlugPower` gives an
`Option<real>`.

The model follows the code as written:

- A failed read during a refresh tick is not isolated per device. The rest
  of the tick is skipped. A failed plug power read means no lamp is read at
  all (`Session.NoPerLampIsolation`, `Session.Tick`).
- Nothing is rolled back. A failed plug write leaves the flag unchanged,
  because the flag is only set after the write resolves. A failed lamp read
  after power-on leaves `state.on` already flipped.
- A saved colour can coexist with `state.on`. A refresh that reports the
  lamp on keeps the saved colour (`Session.OnWithSavedColor`). So does a
  power-on whose colour write rejects.
- After a deferred colour is applied, `state` is the fresh read. The applied
  colour goes to the top-level `hue`/`bri`/`sat` fields (`Lamp.color`).
- The direct apply writes the top-level fields too, not `state`. The
  argument order is `setLightColor(id, hue, bri, sat)`.
- `setPlugState` receives relay `0` as its first argument, not the plug id.
- There is no duplicate-id or not-found error. Lookups are JavaScript's
  `find` and `findIndex`.
- A heading of exactly 360 is accepted. Floating-point `a + 360` can round
  to 360. The code's `% colors.length` then selects the seventh anchor,
  which equals the first (`Wheel.SeamCloses`).
- Headings run clockwise from the top of the wheel (lines 90-91). A pointer
  due right of the centre sits at heading 90, between the second and third
  anchors (`Wheel.PointerRightOfCentre`).
- The first refresh at page load runs before polling is set up. If any
  plug or lamp read of that first tick fails, the load handler throws
  before `setInterval`, and the page never refreshes again
  (`Session.Boot`).

## Model

| member | source | states |
|---|---|---|
| Wheel.PaletteWellFormed | resources/js/script.js:13-21 | the palette has seven anchors, every channel is a byte, and the last anchor equals the first |
| Wheel.Scale | resources/js/script.js:93 | a heading in [0,360] lands in [0,6], at one palette step per 60 degrees |
| Wheel.Segment | resources/js/script.js:95 | `a0` is a valid palette index and equals the floor of the scaled heading |
| Wheel.Next | resources/js/script.js:96 | `a1` is a valid palette index: the next anchor, or 0 after the last |
| Wheel.Weight | resources/js/script.js:100-101 | `a1w` lies in [0,1), `a0w = 1 - a1w` lies in (0,1], and floor plus `a1w` gives back the scaled heading |
| Wheel.Lerp | resources/js/script.js:103-105 | an interpolated channel lies between the two anchors' channels, and equals the first anchor when `a1w = 0` |
| Wheel.Ring | resources/js/script.js:93-106 | every channel of the ring colour lies in [0,255] |
| Wheel.ClampRadius | resources/js/script.js:109 | the radius used is in [0,1] and unchanged when at most 1 |
| Wheel.RingWeight | resources/js/script.js:111 | `cw` is in [0,1]; it is 1 exactly when r >= 0.8 and 0 exactly when r = 0 |
| Wheel.Blend | resources/js/script.js:112-115 | a blended channel lies between the ring channel and 255; it is the ring channel when `cw = 1` and 255 when `cw = 0` |
| Wheel.Round | resources/js/script.js:113-115 | `Math.round` gives the integer within one half, halves rounded up, and keeps a byte-range value in [0,255] |
| Wheel.WheelColor | resources/js/script.js:93-115 | every output channel is an integer in [0,255]; for r >= 0.8 the output is the rounded ring colour; for r = 0 it is (255,255,255) |
| Wheel.RingHitsAnchors | resources/js/script.js:13-21 | at each multiple of 60 degrees, the seventh anchor at 360 included, the ring colour is exactly that anchor |
| Wheel.PointerRightOfCentre | resources/js/script.js:90-115 | a pointer due right of the centre at radius 0.9 (heading 90) gives (168,216,38), halfway between the second and third anchors |
| Wheel.SeamCloses | resources/js/script.js:95-96 | heading 0 and heading 360 give the same colour at every radius |
| Wheel.SeamContinuous | resources/js/script.js:93-106 | for headings in [300,360), each ring channel is within 255 per 60 degrees of the first anchor, so the ring colour meets it at the seam |
| Wheel.TowardWhite | resources/js/script.js:108-115 | a smaller radius never lowers any output channel, so colours fade monotonically toward white |
| Wheel.BetweenRingAndWhite | resources/js/script.js:111-115 | each output channel lies between the rounded ring channel and 255 |
| Picker.MouseMove | resources/js/script.js:85-116 | the stored colour is the wheel colour of the pointer: a byte triple, each channel between the rounded ring channel and 255, equal to the rounded ring colour for r >= 0.8 and white at the centre; lamps, plugs and target are unchanged |
| Picker.MoveFades | resources/js/script.js:108-116 | at the same heading, a pointer nearer the centre stores a colour no darker in any channel |
| Devices.FirstIndex | resources/js/script.js:257 | the id search gives -1 exactly when the id is absent, and otherwise the first position that holds it |
| Picker.FindLamp | resources/js/script.js:257 | `findIndex` returns -1 exactly when no lamp has the id; otherwise it returns the first index whose lamp has the id |
| Picker.SelectPalette | resources/js/script.js:256-263 | the palette click of lamp i targets a lamp with lamp i's id, at index i when ids are distinct, and changes nothing else |
| Picker.ColorClick | resources/js/script.js:118-150 | with no valid target nothing changes and nothing is sent; with no colour yet it throws and changes nothing; for an off lamp the converted colour becomes `savedColor` and nothing is sent; for an on lamp exactly one `setLightColor(id, hue, bri, sat)` is sent and the top-level colour is set; in both of the last two cases the click completes, `state` is kept and the target is reset to -1; other lamps are untouched |
| Lamps.PowerToggle | resources/js/script.js:272-298 | `setLightState(id, !on)` goes first and a rejection changes nothing; power-off flips only the flag and keeps `savedColor`; power-on replaces `state` by the fresh read; a saved colour is sent exactly once with its own values and is cleared exactly when that send resolves, and kept unchanged for the next power-on when it rejects; with none saved, no colour write is sent |
| Lamps.BrightnessChange | resources/js/script.js:265-270 | `setLightBri(id, bri)` is sent; only when it resolves does `state.bri` become `bri`; `state.on/hue/sat`, `savedColor`, the top-level colour and every other device are preserved |
| Lamps.BrightnessIdempotent | resources/js/script.js:265-270 | moving the slider to the same value twice gives the registry one move gives |
| Lamps.FirstFailure | resources/js/script.js:69-72 | the index where the sequential lamp pass stops: every earlier read resolves and the read there fails, or the lamp count when none fails |
| Lamps.RefreshLamps | resources/js/script.js:69-79 | the lamp pass keeps the lamp count; what it does to each lamp is stated by `Lamps.RefreshLampsSpec` |
| Lamps.RefreshLampsSpec | resources/js/script.js:69-79 | lamps are read in order; each read replaces only that lamp's `state`; the lamps before the first failed read are refreshed, and that lamp and all later ones are untouched; the pass completes exactly when no read fails |
| Lamps.RefreshIdempotent | resources/js/script.js:69-79 | refreshing twice against the same answers equals refreshing once |
| Lamps.RefreshHue | resources/js/script.js:69-79 | the lamp refresh sends nothing, keeps plugs and target, keeps every saved colour, and aborts exactly when some read fails |
| Plugs.Registered | resources/js/script.js:161-169 | discovery registers at most one plug per fleet entry; which ones and in what order is stated by `Plugs.RegisteredExactly` and `Plugs.RegisteredAppend` |
| Plugs.RegisteredAppend | resources/js/script.js:161-169 | discovery of a concatenated fleet status is discovery of the first part followed by the second, so plugs come in iteration order |
| Plugs.RegisteredExactly | resources/js/script.js:161-169 | a plug is registered exactly when some entry has code "SHPLG-S" and that plug's fields |
| Plugs.RegisteredIds | resources/js/script.js:161-169 | every registered id is a key of the fleet status, and distinct keys give distinct plug ids |
| Plugs.DiscoverPlugs | resources/js/script.js:155-169 | a failed fleet read throws with no plug added; otherwise the registered plugs are appended to the plug list in fleet order |
| Plugs.FindPlug | resources/js/script.js:191 | `find` yields the first plug with the id, or none exactly when no plug has it |
| Plugs.PlugToggle | resources/js/script.js:190-207 | one `setPlugState(0, ip, "on"/"off")` carries the negated flag; on success only that plug's `isOn` flips; on failure the registry is unchanged and the handler still completes; an unknown id throws and sends nothing |
| Plugs.PlugToggleTwice | resources/js/script.js:190-207 | two successful clicks restore the registry and send one "on" and one "off" |
| Plugs.PowerReadings | resources/js/script.js:57-64 | plugs are read in list order and each reading shown; the pass stops at the first failed read, so the shown values are the reads of exactly the plugs before it |
| Plugs.RefreshPlugs | resources/js/script.js:57-64 | the plug power pass never changes the registry (power is only displayed), and completes exactly when every power read resolves |
| Session.LampsFrom | resources/js/script.js:232-235 | lamp ids are the fleet keys in key order, so distinct keys give distinct lamp ids; no lamp starts with a top-level or saved colour |
| Session.Boot | resources/js/script.js:26-44 | a failed plug fleet read leaves nothing registered and no polling; otherwise plugs then lamps are registered and only lamp states change; polling starts exactly when some device exists and the first tick completes, so one failed plug or lamp read at load stops all refreshing; once polling, every lamp holds its first read; distinct keys give a valid registry |
| Session.Tick | resources/js/script.js:49-79 | a tick sends nothing and changes only lamp states; a failed plug power read skips the whole lamp pass; the tick completes exactly when every plug and lamp read resolves, and then every lamp holds its read |
| Session.NoPerLampIsolation | resources/js/script.js:69-79 | when lamp k's read fails, the tick aborts and lamp k and every later lamp stay unrefreshed |
| Session.OnWithSavedColor | resources/js/script.js:69-79 | a refresh that reports a lamp on keeps its saved colour, so "saved colour only while off" is not an invariant |
| Session.Apply | resources/js/script.js:118-298 | every handler keeps the set and order of devices and preserves distinct ids and a valid wheel target |
| Session.Run | resources/js/script.js:118-298 | a run of events keeps the devices and preserves registry validity |
| Session.ApplyKeepsNothingSaved | resources/js/script.js:272-292 | without a colour click, a handler neither gives a lamp a saved colour nor writes a colour to a lamp that had none saved |
| Session.RunKeepsNothingSaved | resources/js/script.js:272-292 | over any click-free run, a lamp with nothing saved never gains a saved colour and is never sent a colour write |
| Session.DeferredColorAppliedOnce | resources/js/script.js:127-292 | picking an off lamp and clicking saves the colour and sends nothing; the next successful power-on sends `setLightState(id, true)` and then exactly one `setLightColor` with the saved values, and clears the saved colour; no later click-free run writes that lamp's colour again |

## Left out

- Pointer geometry (lines 86-91: bounding box, `atan2`) and the radius
  `sqrt` (line 108) are not modelled. Heading and radius are inputs. They
  are transcendental floating-point operations.
- Floating-point rounding error in the interpolation and the blend is not
  modelled. The arithmetic is exact `real`.
- `rgbToHSB`, `getLightInfo`, `getLampsInfo`, `setLightColor`,
  `setLightState` and `setLightBri` are not in script.js or shelly.js. The conversion is a parameter. The reads are inputs. The writes
  appear only as trace commands.
- `resources/js/shelly.js` is a network client (`fetch`, the auth key,
  async boilerplate). Its reads are inputs and its writes are trace
  commands.
- DOM and display are not modelled: tiles, colours, `hsl(...)` strings,
  `innerText`, the slider value, the `choosecolor` popup position and
  console logging.
- Timing and concurrency are not modelled: `setInterval`, overlapping
  ticks, and callbacks interleaving between awaits. Each handler runs to
  completion before the next event.
- `Number(lamp.id)` in the `setLightColor` calls is not modelled. The
  command carries the string id.
- `parseInt` of the slider value is not modelled. The brightness is an
  integer input.
- A failing lamp fleet read at start-up is not modelled, because its client
  is not in script.js or shelly.js.
- A device whose `relays[0]` or `meters[0]` is missing would throw during
  discovery. This is not modelled, because discovery reads those fields as
  given.
- Lamp fields other than `id`, `name` and `state` are not modelled. They
  come from the spread of the fleet entry and no handler touches them.
- The hue/saturation/brightness ranges of the lamp protocol are not
  modelled. The code never checks them.
- `RefreshShellyInfo` is declared twice with identical bodies (lines 57
  and 216). It is modelled once.
- Display of the power readings (`innerText` of the plug tile) is not
  modelled; `Plugs.PowerReadings` gives the values that would be shown.
