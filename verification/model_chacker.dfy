/** The `ModelChacker` component around the blenders: one blender per
    resource group, built in group order, and one toggle per clip whose
    selection is routed to its own group's blender only. */
module ModelChacker {
  import opened Wrappers
  import opened Mixer

  /** Building a group's blender failed; the whole start-up aborts. */
  datatype LayerError = LayerError(layer: nat, cause: InitError)

  /** A UI toggle: pressing it plays `clip` on the blender of `layer`. */
  datatype Toggle = Toggle(layer: nat, clip: string)

  /** Builds one blender per resource group in order, stopping at the first
      group whose construction fails. */
  function BuildLayers(groups: seq<seq<Clip>>): Result<seq<State>, LayerError>
  {
    if |groups| == 0 then Success([])
    else
      var last := |groups| - 1;
      match BuildLayers(groups[..last])
      case Failure(e) => Failure(e)
      case Success(layers) =>
        match Init(groups[last])
        case Failure(e) => Failure(LayerError(last, e))
        case Success(m) => Success(layers + [m])
  }

  /** The blenders are in one-to-one correspondence with the groups: each
      indexes exactly its own group's clips, one slot per clip, and selects
      only clips it indexes. */
  ghost predicate Wired(groups: seq<seq<Clip>>, layers: seq<State>)
  {
    && |layers| == |groups|
    && forall k :: 0 <= k < |layers| ==>
         && layers[k].index.Keys == Names(groups[k])
         && layers[k].slots == |groups[k]|
         && Valid(layers[k]) && Known(layers[k])
  }

  /** Start-up succeeds exactly when every group has distinct clip names;
      then layer k is the blender of group k.  Otherwise the reported layer is
      the first group that cannot be built. */
  lemma {:induction false} BuildLayersCorrect(groups: seq<seq<Clip>>)
    ensures var r := BuildLayers(groups);
      && (r.Success? <==> forall k :: 0 <= k < |groups| ==> DistinctNames(groups[k]))
      && (r.Success? ==> |r.value| == |groups|)
      && (r.Success? ==> forall k :: 0 <= k < |groups| ==> Init(groups[k]) == Success(r.value[k]))
      && (r.Success? ==> Wired(groups, r.value))
      && (r.Failure? ==>
            && r.error.layer < |groups|
            && Init(groups[r.error.layer]) == Failure(r.error.cause)
            && forall k :: 0 <= k < r.error.layer ==> DistinctNames(groups[k]))
  {
    if |groups| > 0 {
      var last := |groups| - 1;
      var front := groups[..last];
      BuildLayersCorrect(front);
      assert forall k :: 0 <= k < last ==> front[k] == groups[k];
      InitWiresLayer(groups[last]);
    }
  }

  /** A blender that was built indexes exactly its group's names, validly. */
  lemma InitWiresLayer(clips: seq<Clip>)
    ensures Init(clips).Success? ==>
      && Init(clips).value.index.Keys == Names(clips)
      && Valid(Init(clips).value) && Known(Init(clips).value)
  {
    if DistinctNames(clips) {
      InitIsBijection(clips);
    }
  }

  /** One toggle per clip of every group, in group order then clip order. */
  function Toggles(groups: seq<seq<Clip>>): (r: seq<Toggle>)
    ensures forall j :: 0 <= j < |r| ==> r[j].layer < |groups| && r[j].clip in Names(groups[r[j].layer])
    ensures forall k, i :: 0 <= k < |groups| && 0 <= i < |groups[k]| ==> Toggle(k, groups[k][i].name) in r
  {
    if |groups| == 0 then []
    else
      var last := |groups| - 1;
      var front := Toggles(groups[..last]);
      var own := seq(|groups[last]|, i requires 0 <= i < |groups[last]| => Toggle(last, groups[last][i].name));
      assert forall k :: 0 <= k < last ==> groups[..last][k] == groups[k];
      assert forall i :: 0 <= i < |groups[last]| ==> own[i] == Toggle(last, groups[last][i].name);
      front + own
  }

  /** Routes a selection to one blender; no other blender is touched. */
  function Select(layers: seq<State>, k: nat, name: string, now: real): (r: seq<State>)
    requires k < |layers|
    ensures |r| == |layers|
    ensures r[k] == Play(layers[k], name, now)
    ensures forall j :: 0 <= j < |layers| && j != k ==> r[j] == layers[j]
  {
    layers[k := Play(layers[k], name, now)]
  }

  /** Pressing a toggle plays its clip on its own layer. */
  function Press(layers: seq<State>, t: Toggle, now: real): (r: seq<State>)
    requires t.layer < |layers|
    ensures |r| == |layers|
    ensures r[t.layer] == Play(layers[t.layer], t.clip, now)
    ensures forall j :: 0 <= j < |layers| && j != t.layer ==> r[j] == layers[j]
  {
    Select(layers, t.layer, t.clip, now)
  }

  /** Pressing a toggle keeps the layers wired to their groups, and the
      pressed layer's update succeeds from then on. */
  lemma PressKeepsWired(groups: seq<seq<Clip>>, layers: seq<State>, t: Toggle, now: real, curve: real -> real)
    requires Wired(groups, layers) && t in Toggles(groups)
    ensures t.layer < |layers|
    ensures Wired(groups, Press(layers, t, now))
    ensures Tick(Press(layers, t, now)[t.layer], now, curve).Success?
  {
  }

  /** Replays a sequence of toggle presses, each at its own time. */
  function Run(layers: seq<State>, presses: seq<(Toggle, real)>): seq<State>
    requires forall j :: 0 <= j < |presses| ==> presses[j].0.layer < |layers|
    decreases |presses|
  {
    if |presses| == 0 then layers
    else Run(Press(layers, presses[0].0, presses[0].1), presses[1..])
  }

  /** A toggle of the groups addresses an existing layer. */
  lemma ToggleInRange(groups: seq<seq<Clip>>, t: Toggle)
    requires t in Toggles(groups)
    ensures t.layer < |groups|
  {
  }

  /** In wired layers, every layer that has a selection updates without a
      lookup failure. */
  lemma WiredTicks(groups: seq<seq<Clip>>, layers: seq<State>, now: real, curve: real -> real)
    requires Wired(groups, layers)
    ensures forall k :: 0 <= k < |layers| && layers[k].next.Some? ==> Tick(layers[k], now, curve).Success?
  {
  }

  /** Whatever toggles the user presses, the layers stay wired to their groups
      and every layer that has been selected at least once updates without
      a lookup failure. */
  lemma {:induction false} RunKeepsWired(groups: seq<seq<Clip>>, layers: seq<State>, presses: seq<(Toggle, real)>, now: real, curve: real -> real)
    requires Wired(groups, layers)
    requires forall j :: 0 <= j < |presses| ==> presses[j].0 in Toggles(groups)
    ensures forall j :: 0 <= j < |presses| ==> presses[j].0.layer < |layers|
    ensures Wired(groups, Run(layers, presses))
    ensures forall k :: 0 <= k < |layers| && Run(layers, presses)[k].next.Some? ==>
      Tick(Run(layers, presses)[k], now, curve).Success?
    decreases |presses|
  {
    forall j | 0 <= j < |presses|
      ensures presses[j].0.layer < |layers|
    {
      ToggleInRange(groups, presses[j].0);
    }
    if |presses| > 0 {
      var after := Press(layers, presses[0].0, presses[0].1);
      PressKeepsWired(groups, layers, presses[0].0, presses[0].1, curve);
      assert forall j :: 0 <= j < |presses| - 1 ==> presses[1..][j] == presses[j + 1];
      RunKeepsWired(groups, after, presses[1..], now, curve);
      assert Run(layers, presses) == Run(after, presses[1..]);
    }
    WiredTicks(groups, Run(layers, presses), now, curve);
  }

  /** A blender together with its per-frame subscription.  The update runs as
      the only handler of an `EveryUpdate` subscription made at construction;
      a lookup failure escapes the handler and ends the subscription, after
      which the blender receives no further updates. */
  datatype Layer = Layer(mixer: State, updating: bool)

  /** A freshly built blender, whose subscription has just been made. */
  function Subscribe(m: State): (l: Layer)
    ensures l.mixer == m && l.updating
  {
    Layer(m, true)
  }

  /** One frame of a layer: while subscribed, the update either produces the
      weights or fails and ends the subscription; once ended, nothing runs. */
  function Frame(l: Layer, now: real, curve: real -> real): (r: (Layer, Option<seq<real>>))
    requires SlotsInRange(l.mixer)
    ensures r.0.mixer == l.mixer
    ensures !l.updating ==> !r.0.updating && r.1 == None
    ensures l.updating && TickDefined(l.mixer) ==>
      r.0.updating && r.1 == Some(Tick(l.mixer, now, curve).value)
    ensures l.updating && !TickDefined(l.mixer) ==> !r.0.updating && r.1 == None
  {
    if !l.updating then (l, None)
    else
      match Tick(l.mixer, now, curve)
      case Success(w) => (l, Some(w))
      case Failure(_) => (l.(updating := false), None)
  }

  /** Playing a clip on a layer changes its blender, not its subscription. */
  function PlayLayer(l: Layer, name: string, now: real): (r: Layer)
    ensures r.mixer == Play(l.mixer, name, now) && r.updating == l.updating
  {
    l.(mixer := Play(l.mixer, name, now))
  }

  /** A frame that arrives before any selection ends the layer's updates for
      good: after any later selection, its frames produce no weights. */
  lemma FrameBeforePlayStopsForGood(clips: seq<Clip>, t0: real, name: string, t1: real, t2: real, curve: real -> real)
    requires DistinctNames(clips)
    ensures SlotsInRange(Init(clips).value)
    ensures var l := Frame(Subscribe(Init(clips).value), t0, curve).0;
      && !l.updating
      && Frame(PlayLayer(l, name, t1), t2, curve).1 == None
  {
    TickBeforePlayFails(clips, t0, curve);
  }

  /** A layer whose blender keeps its selections resolvable (as pressing
      toggles does) stays subscribed through a frame once it has a target. */
  lemma KnownLayerKeepsUpdating(l: Layer, now: real, curve: real -> real)
    requires Valid(l.mixer) && Known(l.mixer) && l.mixer.next.Some? && l.updating
    ensures Frame(l, now, curve).0.updating
    ensures Frame(l, now, curve).1 == Some(Tick(l.mixer, now, curve).value)
  {
  }

  /** The layers right after start-up: every blender subscribed. */
  function StartAll(layers: seq<State>): (r: seq<Layer>)
    ensures |r| == |layers|
    ensures forall k :: 0 <= k < |layers| ==> r[k].mixer == layers[k] && r[k].updating
  {
    seq(|layers|, k requires 0 <= k < |layers| => Subscribe(layers[k]))
  }

  /** Routes a selection to one subscribed blender; no other layer is touched. */
  function SelectLayer(ls: seq<Layer>, k: nat, name: string, now: real): (r: seq<Layer>)
    requires k < |ls|
    ensures |r| == |ls|
    ensures r[k] == PlayLayer(ls[k], name, now)
    ensures forall j :: 0 <= j < |ls| && j != k ==> r[j] == ls[j]
  {
    ls[k := PlayLayer(ls[k], name, now)]
  }

  /** One frame of every layer, each through its own subscription: a layer
      whose update failed, now or earlier, yields nothing without stopping
      the others. */
  function FrameAll(ls: seq<Layer>, now: real, curve: real -> real): (r: (seq<Layer>, seq<Option<seq<real>>>))
    requires forall k :: 0 <= k < |ls| ==> SlotsInRange(ls[k].mixer)
    ensures |r.0| == |ls| && |r.1| == |ls|
    ensures forall k :: 0 <= k < |ls| ==> (r.0[k], r.1[k]) == Frame(ls[k], now, curve)
  {
    (seq(|ls|, k requires 0 <= k < |ls| => Frame(ls[k], now, curve).0),
     seq(|ls|, k requires 0 <= k < |ls| => Frame(ls[k], now, curve).1))
  }

  /** A selection in one layer leaves every other layer's frame, and its
      subscription, exactly as they were. */
  lemma SelectIsolatesLayers(ls: seq<Layer>, k: nat, name: string, now: real, t: real, curve: real -> real)
    requires k < |ls|
    requires forall j :: 0 <= j < |ls| ==> SlotsInRange(ls[j].mixer)
    ensures forall j :: 0 <= j < |ls| ==> SlotsInRange(SelectLayer(ls, k, name, now)[j].mixer)
    ensures forall j :: 0 <= j < |ls| && j != k ==>
      && FrameAll(SelectLayer(ls, k, name, now), t, curve).0[j] == FrameAll(ls, t, curve).0[j]
      && FrameAll(SelectLayer(ls, k, name, now), t, curve).1[j] == FrameAll(ls, t, curve).1[j]
  {
  }

  /** If the first frame after start-up comes before any selection, every
      layer's update fails on its null target and all subscriptions end. */
  lemma FirstFrameStopsEveryLayer(groups: seq<seq<Clip>>, t0: real, curve: real -> real)
    requires BuildLayers(groups).Success?
    ensures forall k :: 0 <= k < |BuildLayers(groups).value| ==> SlotsInRange(BuildLayers(groups).value[k])
    ensures var ls := StartAll(BuildLayers(groups).value);
      forall k :: 0 <= k < |ls| ==> !FrameAll(ls, t0, curve).0[k].updating && FrameAll(ls, t0, curve).1[k] == None
  {
    BuildLayersCorrect(groups);
    var layers := BuildLayers(groups).value;
    forall k | 0 <= k < |layers|
      ensures !Frame(Subscribe(layers[k]), t0, curve).0.updating
    {
      TickBeforePlayFails(groups[k], t0, curve);
    }
  }
}
