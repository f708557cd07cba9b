# Clip blending in MotionPreviewer's ModelChacker

A Dafny model of the animation cross-fade logic in `ModelChacker`, the Unity
component that previews a character's animation clips. Each resource group
becomes one layer with its own `Mixer`. The mixer gives every clip a slot,
and a UI toggle per clip selects that clip with `Play`. Every frame an update
recomputes the slot weights. It fades from the previously selected clip
(`prev`) to the newly selected one (`next`) through a blend curve evaluated
at the time elapsed since the last selection.

Layout:

- `wrappers.dfy` (module `Wrappers`): `Option` stands for C#'s nullable
  strings. `Result` stands for the exceptions the code lets escape.
- `weights.dfy` (module `Weights`): weight vectors, their sum and their
  non-zero slots.
- `mixer.dfy` (module `Mixer`): the nested `Mixer` class. Its fields become
  the immutable `State`. The constructor is `Init`, the selection is `Play`,
  and the per-frame update is the pure function `Tick`. `Tick` returns the
  weight vector by slot instead of calling `SetInputWeight`. It takes the
  state as a value and returns only weights, so the update cannot change
  `prev`, `next` or `currentTime`.
- `model_chacker.dfy` (module `ModelChacker`): the per-group construction in
  `Awake` (`BuildLayers`), the toggles it creates (`Toggles`), and the routing
  of a toggle to its own layer (`Select`, `Press`, `Run`). A `Layer` pairs a
  blender with its per-frame subscription. `Frame` runs one layer's update,
  and `FrameAll` runs one frame of every layer, each through its own
  subscription (`StartAll`, `SelectLayer`).

Time and the curve are parameters. `now` stands for `Time.timeSinceLevelLoad`.
`curve` is an arbitrary total `real -> real` function standing for
`AnimationCurve.Evaluate`. Weights are reals.

The code has these edge behaviours, and the model keeps them:

- An empty clip list builds a mixer with no slots.
- `Play` accepts any name. An unknown name surfaces only at the next update,
  as a failed lookup.
- A previous clip named `""` counts as "no previous", because the test is
  `string.IsNullOrEmpty`.
- Selecting the current clip again fades the clip into itself. Its slot gets
  the bare ratio, not 1.
- A toggle is bound to its own mixer by a closure, so a selection always
  addresses an existing layer. `Select` therefore takes a layer index below
  the layer count.
- The update runs as the only handler of a per-frame subscription. A failed
  lookup escapes the handler and ends that subscription, so the layer gets
  no further updates (`Layer`, `Frame`).

## Model

| member | source | states |
|---|---|---|
| `Mixer.BuildIndexCorrect` | Assets/Scripts/ModelChacker.cs:101-109 | Adding the clips in order succeeds exactly when their names are distinct. On success the i-th clip's name maps to slot i and to its length, and the keys are exactly the clip names. On failure the reported position is the first clip whose name already occurred, with all earlier names distinct. |
| `Mixer.Init` | Assets/Scripts/ModelChacker.cs:95-109 | Construction succeeds iff the clip names are distinct. It creates one slot per clip, selects nothing (both names null) and leaves the timestamp at 0. It records each clip's length under its name. A failure names the first position whose clip repeats an earlier name. |
| `Mixer.InitIsBijection` | Assets/Scripts/ModelChacker.cs:101-107 | With distinct names, the index maps clip i to i, has exactly the clip names as keys, and sends every key k to a slot below n whose clip is named k. So it is a bijection onto [0, n). Both selected names are null or indexed clips. |
| `Mixer.Play` | Assets/Scripts/ModelChacker.cs:132-137 | The old target becomes the previous clip, the given name becomes the target without validation, and the timestamp becomes the call time. The index, lengths and slot count are unchanged. |
| `Mixer.Tick` | Assets/Scripts/ModelChacker.cs:113-130 | The update succeeds exactly when every key it looks up is present, with one weight per slot. Each weight equals the per-slot reference `ExpectedWeight`: 1 for the target when there is no previous clip, otherwise the ratio for the target and 1 - ratio for the previous clip, and 0 everywhere else. Failures follow the lookup order: an unknown previous clip first, then a null target, then an unknown target. |
| `Mixer.TickBeforePlayFails` | Assets/Scripts/ModelChacker.cs:119-121 | Before any selection the update looks up a null target and fails. |
| `Mixer.SoloAfterFirstPlay` | Assets/Scripts/ModelChacker.cs:119-122 | After exactly one selection of a clip, that clip has weight 1 and every other slot 0, whatever time has passed. |
| `Mixer.SoloSumsToOne` | Assets/Scripts/ModelChacker.cs:119-122 | With no previous clip the weights sum to 1. |
| `Mixer.CrossFadeSumsToOne` | Assets/Scripts/ModelChacker.cs:123-129 | When the previous and target clips differ, the weights sum to 1 for any curve value. This relies on the index being injective. |
| `Mixer.SelfBlendKeepsLastWrite` | Assets/Scripts/ModelChacker.cs:127-128 | When the previous clip is the target, the second write wins. That slot carries curve(elapsed), not 1, and this is also the total weight. |
| `Mixer.AtMostTwoNonZero` | Assets/Scripts/ModelChacker.cs:115-129 | Only the target's slot and the previous clip's slot can be non-zero, so at most two slots carry weight. |
| `Mixer.OverlapRestartsFade` | Assets/Scripts/ModelChacker.cs:132-137 | A selection made mid-fade drops the clip that was fading out to 0 at once. The fade restarts at curve(0) from the interrupted target to the new one. |
| `Mixer.UnknownNameBreaksTwoSelections` | Assets/Scripts/ModelChacker.cs:119-128 | After `Play` with a non-empty unknown name the update fails. It still fails with that name after the next valid selection, because the name has moved to `prev`. |
| `Mixer.EmptyPreviousCountsAsNone` | Assets/Scripts/ModelChacker.cs:119-122 | A previous clip named "" is treated as no previous clip, so the target gets weight 1 and every other slot 0. |
| `Mixer.PlayKeepsKnown` | Assets/Scripts/ModelChacker.cs:132-137 | Selecting an indexed clip keeps the index injective and both names resolvable, so the following update succeeds. |
| `ModelChacker.BuildLayersCorrect` | Assets/Scripts/ModelChacker.cs:54-73 | Start-up builds one mixer per group, in order. It succeeds iff every group has distinct names, and then layer k is group k's mixer, wired to exactly that group's names. Otherwise it reports the first group whose construction fails, with all earlier groups valid. |
| `ModelChacker.Toggles` | Assets/Scripts/ModelChacker.cs:61-71 | There is a toggle for every clip of every group. Each toggle names an existing layer and a clip of that layer's group. |
| `ModelChacker.Select` | Assets/Scripts/ModelChacker.cs:67-70 | A selection plays the name on the addressed layer. Every other layer is unchanged. |
| `ModelChacker.Press` | Assets/Scripts/ModelChacker.cs:67-70 | Pressing a toggle applies `Play` with its clip and the press time to its own layer. That clip becomes the target, the previous target becomes the previous clip, the timestamp becomes the press time, and the index, lengths and slot count stay unchanged. No other layer changes. |
| `ModelChacker.FrameAll` | Assets/Scripts/ModelChacker.cs:111-130 | Each layer's frame result and subscription after the frame are exactly those of its own `Frame`. A layer whose update failed, in this frame or an earlier one, yields nothing, and the other layers are unaffected. |
| `ModelChacker.StartAll` | Assets/Scripts/ModelChacker.cs:54-73 | Right after start-up every built blender is subscribed to the per-frame update, unchanged. |
| `ModelChacker.SelectLayer` | Assets/Scripts/ModelChacker.cs:67-70 | A selection plays the name on the addressed layer's blender without touching its subscription. Every other layer is unchanged. |
| `ModelChacker.FirstFrameStopsEveryLayer` | Assets/Scripts/ModelChacker.cs:111-121 | If the first frame after start-up comes before any selection, every layer looks up a null target. Every subscription then ends, and no layer yields weights. |
| `ModelChacker.SelectIsolatesLayers` | Assets/Scripts/ModelChacker.cs:54-72 | After a selection in layer k, every other layer's frame result and subscription are exactly what they would have been without it. |
| `ModelChacker.PressKeepsWired` | Assets/Scripts/ModelChacker.cs:61-70 | Pressing any toggle of the groups keeps every layer wired to its group, and the pressed layer's update then succeeds. |
| `ModelChacker.RunKeepsWired` | Assets/Scripts/ModelChacker.cs:54-73 | After any sequence of toggle presses the layers stay wired to their groups. For every layer that has a target, the update `Tick` finds all its keys. |
| `ModelChacker.Frame` | Assets/Scripts/ModelChacker.cs:111-130 | A frame never changes the blender. While subscribed, a layer whose keys resolve yields its `Tick` weights and stays subscribed. A failed lookup yields nothing and ends the subscription. An ended subscription yields nothing and stays ended. |
| `ModelChacker.FrameBeforePlayStopsForGood` | Assets/Scripts/ModelChacker.cs:111-121 | A frame arriving before any selection on a freshly built blender ends its subscription. After any later selection its frames still yield no weights. |
| `ModelChacker.KnownLayerKeepsUpdating` | Assets/Scripts/ModelChacker.cs:113-130 | A subscribed layer whose target and previous clip are indexed stays subscribed through a frame and yields its `Tick` weights. |

## Left out

- Unity Playables plumbing is not modelled: the graph, layer mixer, mixer and clip playables, their creation and wiring, and graph play and destroy (lines 44-49, 75-82, 97-98, 103-104). These are engine calls. Weights are returned instead of being set with `SetInputWeight`.
- UI construction is not modelled: prefab instantiation, toggle groups and button labels (lines 51-52, 58-66). Only the toggle-to-layer routing is kept.
- The UniRx subscriptions are replaced by explicit calls. A toggle press is a call to `Press`. A frame is a call to `Frame`, which ends the layer's updates after an escaping exception. That ending follows UniRx's handling of an exception thrown from a subscriber; UniRx is not part of this model.
- `ModelChacker.Toggles`: `OnValueChangedAsObservable` (line 68) also emits the toggle's state when it is subscribed. A toggle that starts switched on therefore plays its clip during `Awake`. The model does not build that initial press in; it can be expressed as a `Run` of presses starting from the built layers.
- `Resources.LoadAll` is I/O. Its result is the `groups` parameter.
- `Time.timeSinceLevelLoad` is the `now` parameter.
- `AnimationCurve.Evaluate` is the arbitrary `curve` parameter.
- The weights modelled are the values passed to `SetInputWeight`. The mixer playable is created with input normalisation switched on (line 97), so the engine rescales them before blending, for example a lone self-blend weight `ratio`. That rescaling is engine behaviour and is not modelled.
- Single-precision rounding of the weights and of `1 - ratio` is not modelled. All arithmetic is on reals.
- `Mixer.Tick`: when a lookup fails, the real update has already zeroed every slot, and possibly written the previous clip's weight. The model returns only the error, not these partially written weights.
- `ModelChacker.BuildLayersCorrect`: when a group fails, the real `Awake` aborts but keeps the mixers already built, together with their running update subscriptions. The model reports only the failure.
- The `times` dictionary is recorded and kept unchanged but never read, as in the code.
