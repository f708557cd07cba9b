/** The per-layer clip blender (`ModelChacker.Mixer`): a name-to-slot index
    fixed at construction, a previous/next clip pair changed by `Play`, and a
    per-frame weight computation that cross-fades from the previous clip to
    the next one through a blend curve.  The clock and the curve are explicit
    parameters; weights are returned instead of being pushed into the engine. */
module Mixer {
  import opened Wrappers
  import opened Weights

  /** An animation clip as far as the blender sees it: its name and length. */
  datatype Clip = Clip(name: string, length: real)

  /** The blender's fields.  `index` and `times` are the two dictionaries,
      `slots` the number of mixer inputs, `prev`/`next` the nullable clip
      names and `currentTime` the moment of the last `Play`. */
  datatype State = State(
    index: map<string, nat>,
    times: map<string, real>,
    slots: nat,
    prev: Option<string>,
    next: Option<string>,
    currentTime: real)

  /** Construction aborts when a clip name is added to the index twice. */
  datatype InitError = DuplicateName(name: string, position: nat)

  /** Looking up a null key or a missing key aborts the frame update. */
  datatype TickError = NullKey | KeyNotFound(key: string)

  /** The set of clip names of a clip list. */
  function Names(clips: seq<Clip>): set<string>
  {
    set i | 0 <= i < |clips| :: clips[i].name
  }

  /** No two clips share a name. */
  ghost predicate DistinctNames(clips: seq<Clip>)
  {
    forall i, j :: 0 <= i < j < |clips| ==> clips[i].name != clips[j].name
  }

  /** Every indexed name points at an existing mixer input. */
  ghost predicate SlotsInRange(s: State)
  {
    forall k :: k in s.index ==> s.index[k] < s.slots
  }

  /** The index sends distinct names to distinct slots, all in range. */
  ghost predicate Valid(s: State)
  {
    && SlotsInRange(s)
    && (forall k1, k2 :: k1 in s.index && k2 in s.index && s.index[k1] == s.index[k2] ==> k1 == k2)
  }

  /** The names held in `prev` and `next` are null or indexed clips. */
  ghost predicate Known(s: State)
  {
    && (s.next.Some? ==> s.next.value in s.index)
    && (s.prev.Some? ==> s.prev.value in s.index)
  }

  /** Adds the clips to the two dictionaries in list order, failing on the
      first name that is already present. */
  function BuildIndex(clips: seq<Clip>): Result<(map<string, nat>, map<string, real>), InitError>
  {
    if |clips| == 0 then Success((map[], map[]))
    else
      var last := |clips| - 1;
      match BuildIndex(clips[..last])
      case Failure(e) => Failure(e)
      case Success((ix, tm)) =>
        if clips[last].name in ix then
          Failure(DuplicateName(clips[last].name, last))
        else
          Success((ix[clips[last].name := last], tm[clips[last].name := clips[last].length]))
  }

  /** What a successful index build promises about its clips. */
  ghost predicate IndexedInOrder(clips: seq<Clip>, ix: map<string, nat>, tm: map<string, real>)
  {
    && ix.Keys == Names(clips) && tm.Keys == Names(clips)
    && forall i :: 0 <= i < |clips| ==> ix[clips[i].name] == i && tm[clips[i].name] == clips[i].length
  }

  /** What a failed index build promises: the reported clip is the first one
      whose name occurred earlier. */
  ghost predicate FirstDuplicate(clips: seq<Clip>, e: InitError)
  {
    && e.position < |clips|
    && e.name == clips[e.position].name
    && DistinctNames(clips[..e.position])
    && exists j :: 0 <= j < e.position && clips[j].name == e.name
  }

  /** Building the index succeeds exactly when the names are distinct; then
      the i-th clip's name maps to slot i and to its length, and otherwise the
      reported position is the first one whose name was seen before. */
  lemma {:induction false} BuildIndexCorrect(clips: seq<Clip>)
    ensures BuildIndex(clips).Success? <==> DistinctNames(clips)
    ensures BuildIndex(clips).Success? ==>
      IndexedInOrder(clips, BuildIndex(clips).value.0, BuildIndex(clips).value.1)
    ensures BuildIndex(clips).Failure? ==> FirstDuplicate(clips, BuildIndex(clips).error)
  {
    if |clips| > 0 {
      var front := clips[..|clips| - 1];
      BuildIndexCorrect(front);
      assert forall i :: 0 <= i < |front| ==> front[i] == clips[i];
      match BuildIndex(front)
      case Failure(e) =>
        assert clips[..e.position] == front[..e.position];
      case Success((ix, tm)) =>
        BuildIndexStep(clips, ix, tm);
    }
  }

  /** The inductive step of `BuildIndexCorrect` when the prefix was indexed. */
  lemma BuildIndexStep(clips: seq<Clip>, ix: map<string, nat>, tm: map<string, real>)
    requires |clips| > 0
    requires DistinctNames(clips[..|clips| - 1])
    requires IndexedInOrder(clips[..|clips| - 1], ix, tm)
    requires BuildIndex(clips[..|clips| - 1]) == Success((ix, tm))
    ensures BuildIndex(clips).Success? <==> DistinctNames(clips)
    ensures BuildIndex(clips).Success? ==>
      IndexedInOrder(clips, BuildIndex(clips).value.0, BuildIndex(clips).value.1)
    ensures BuildIndex(clips).Failure? ==> FirstDuplicate(clips, BuildIndex(clips).error)
  {
    var last := |clips| - 1;
    SnocDistinct(clips);
    if clips[last].name in ix {
      assert BuildIndex(clips) == Failure(DuplicateName(clips[last].name, last));
      SnocDuplicate(clips);
    } else {
      var ix', tm' := ix[clips[last].name := last], tm[clips[last].name := clips[last].length];
      assert BuildIndex(clips) == Success((ix', tm'));
      SnocIndexed(clips, ix, tm);
    }
  }

  /** Appending a clip with a fresh name extends an in-order index by one slot. */
  lemma SnocIndexed(clips: seq<Clip>, ix: map<string, nat>, tm: map<string, real>)
    requires |clips| > 0
    requires IndexedInOrder(clips[..|clips| - 1], ix, tm)
    requires clips[|clips| - 1].name !in ix
    ensures IndexedInOrder(clips,
      ix[clips[|clips| - 1].name := |clips| - 1],
      tm[clips[|clips| - 1].name := clips[|clips| - 1].length])
  {
    var last := |clips| - 1;
    var front := clips[..last];
    SnocNames(clips);
    var ix', tm' := ix[clips[last].name := last], tm[clips[last].name := clips[last].length];
    forall i | 0 <= i < |clips|
      ensures ix'[clips[i].name] == i && tm'[clips[i].name] == clips[i].length
    {
      if i < last {
        assert clips[i] == front[i];
      }
    }
  }

  /** Names of a list are those of its prefix plus the last clip's. */
  lemma SnocNames(clips: seq<Clip>)
    requires |clips| > 0
    ensures Names(clips) == Names(clips[..|clips| - 1]) + {clips[|clips| - 1].name}
  {
    assert clips == clips[..|clips| - 1] + [clips[|clips| - 1]];
  }

  /** A list has distinct names when its prefix has and the last name is new. */
  lemma SnocDistinct(clips: seq<Clip>)
    requires |clips| > 0
    ensures DistinctNames(clips) <==>
      DistinctNames(clips[..|clips| - 1]) && clips[|clips| - 1].name !in Names(clips[..|clips| - 1])
  {
    var last := |clips| - 1;
    var front := clips[..last];
    assert forall i :: 0 <= i < last ==> front[i] == clips[i];
  }

  /** A last name already in the prefix repeats an earlier clip's name. */
  lemma SnocDuplicate(clips: seq<Clip>)
    requires |clips| > 0 && DistinctNames(clips[..|clips| - 1])
    requires clips[|clips| - 1].name in Names(clips[..|clips| - 1])
    ensures FirstDuplicate(clips, DuplicateName(clips[|clips| - 1].name, |clips| - 1))
  {
    var front := clips[..|clips| - 1];
    var j :| 0 <= j < |front| && front[j].name == clips[|clips| - 1].name;
    assert clips[j] == front[j];
  }

  /** The constructor: slot i holds the i-th clip, nothing is selected yet
      and the timestamp has its default value. */
  function Init(clips: seq<Clip>): (r: Result<State, InitError>)
    ensures r.Success? <==> DistinctNames(clips)
    ensures r.Success? ==>
      && r.value.slots == |clips|
      && r.value.prev == None && r.value.next == None
      && r.value.currentTime == 0.0
    ensures r.Success? ==> forall i :: 0 <= i < |clips| ==>
      clips[i].name in r.value.times && r.value.times[clips[i].name] == clips[i].length
    ensures r.Failure? ==> FirstDuplicate(clips, r.error)
  {
    BuildIndexCorrect(clips);
    match BuildIndex(clips)
    case Failure(e) => Failure(e)
    case Success((ix, tm)) => Success(State(ix, tm, |clips|, None, None, 0.0))
  }

  /** Selects `name` as the new target: the old target becomes the previous
      clip and the blend clock restarts at `now`.  The name is not checked. */
  function Play(s: State, name: string, now: real): (r: State)
    ensures r.prev == s.next && r.next == Some(name) && r.currentTime == now
    ensures r.index == s.index && r.times == s.times && r.slots == s.slots
  {
    s.(prev := s.next, next := Some(name), currentTime := now)
  }

  /** `string.IsNullOrEmpty(prev)`: no clip to fade out from. */
  predicate NoPrevious(s: State)
  {
    s.prev == None || s.prev == Some("")
  }

  /** The blend ratio `now - currentTime` elapsed seconds into the fade. */
  function Ratio(s: State, now: real, curve: real -> real): real
  {
    curve(now - s.currentTime)
  }

  /** Every key the frame update looks up is present. */
  ghost predicate TickDefined(s: State)
  {
    && s.next.Some? && s.next.value in s.index
    && (NoPrevious(s) || s.prev.value in s.index)
  }

  /** Reference weight of slot `i`, stated per slot: the target's slot gets
      the full weight when nothing fades out and the ratio otherwise (even
      when the fading clip is the target itself); the fading clip's slot gets
      the complement; every other slot gets nothing. */
  ghost function ExpectedWeight(s: State, now: real, curve: real -> real, i: nat): real
    requires TickDefined(s)
  {
    if i == s.index[s.next.value] then
      (if NoPrevious(s) then 1.0 else Ratio(s, now, curve))
    else if !NoPrevious(s) && i == s.index[s.prev.value] then
      1.0 - Ratio(s, now, curve)
    else
      0.0
  }

  /** The per-frame update: clear every slot, then either give the target
      full weight or write the fading clip's weight followed by the target's.
      Lookups happen in the code's order: `prev` before `next`. */
  function Tick(s: State, now: real, curve: real -> real): (r: Result<seq<real>, TickError>)
    requires SlotsInRange(s)
    ensures r.Success? <==> TickDefined(s)
    ensures r.Success? ==> |r.value| == s.slots
    ensures r.Success? ==> forall i :: 0 <= i < s.slots ==> r.value[i] == ExpectedWeight(s, now, curve, i)
    ensures !NoPrevious(s) && s.prev.value !in s.index ==> r == Failure(KeyNotFound(s.prev.value))
    ensures (NoPrevious(s) || s.prev.value in s.index) && s.next.None? ==> r == Failure(NullKey)
    ensures (NoPrevious(s) || s.prev.value in s.index) && s.next.Some? && s.next.value !in s.index ==>
      r == Failure(KeyNotFound(s.next.value))
  {
    var cleared := Zeros(s.slots);
    if NoPrevious(s) then
      match s.next
      case None => Failure(NullKey)
      case Some(n) =>
        if n !in s.index then Failure(KeyNotFound(n))
        else Success(cleared[s.index[n] := 1.0])
    else
      var ratio := Ratio(s, now, curve);
      var p := s.prev.value;
      if p !in s.index then Failure(KeyNotFound(p))
      else
        var faded := cleared[s.index[p] := 1.0 - ratio];
        match s.next
        case None => Failure(NullKey)
        case Some(n) =>
          if n !in s.index then Failure(KeyNotFound(n))
          else Success(faded[s.index[n] := ratio])
  }

  /** Construction assigns the i-th clip to slot i, and every slot to exactly
      one clip: the index is a bijection from the clip names onto [0, n). */
  lemma InitIsBijection(clips: seq<Clip>)
    requires DistinctNames(clips)
    ensures Init(clips).Success?
    ensures Init(clips).value.index.Keys == Names(clips)
    ensures forall i :: 0 <= i < |clips| ==> Init(clips).value.index[clips[i].name] == i
    ensures forall k :: k in Init(clips).value.index ==>
      var i := Init(clips).value.index[k]; i < |clips| && clips[i].name == k
    ensures Valid(Init(clips).value) && Known(Init(clips).value)
  {
    BuildIndexCorrect(clips);
    var s := Init(clips).value;
    forall k | k in s.index
      ensures s.index[k] < |clips| && clips[s.index[k]].name == k
    {
      var i :| 0 <= i < |clips| && clips[i].name == k;
      assert s.index[k] == i;
    }
  }

  /** Before the first selection the update looks up a null key. */
  lemma TickBeforePlayFails(clips: seq<Clip>, now: real, curve: real -> real)
    requires DistinctNames(clips)
    ensures SlotsInRange(Init(clips).value)
    ensures Tick(Init(clips).value, now, curve) == Failure(NullKey)
  {
    InitIsBijection(clips);
  }

  /** After a single selection the selected clip plays at full weight,
      whatever time has passed. */
  lemma SoloAfterFirstPlay(clips: seq<Clip>, i: nat, t0: real, now: real, curve: real -> real)
    requires DistinctNames(clips) && i < |clips|
    ensures var s := Play(Init(clips).value, clips[i].name, t0);
      && SlotsInRange(s)
      && Tick(s, now, curve).Success?
      && Tick(s, now, curve).value[i] == 1.0
      && forall j :: 0 <= j < |clips| && j != i ==> Tick(s, now, curve).value[j] == 0.0
  {
    InitIsBijection(clips);
  }

  /** With no clip to fade from, the weights sum to 1. */
  lemma {:induction false} SoloSumsToOne(s: State, now: real, curve: real -> real)
    requires SlotsInRange(s) && TickDefined(s) && NoPrevious(s)
    ensures Sum(Tick(s, now, curve).value) == 1.0
  {
    var k := s.index[s.next.value];
    SumZeros(s.slots);
    SumUpdate(Zeros(s.slots), k, 1.0);
    assert Tick(s, now, curve).value == Zeros(s.slots)[k := 1.0];
  }

  /** A cross-fade between two different clips keeps the total weight at 1,
      whatever the curve returns. */
  lemma {:induction false} CrossFadeSumsToOne(s: State, now: real, curve: real -> real)
    requires Valid(s) && TickDefined(s) && !NoPrevious(s) && s.prev != s.next
    ensures Sum(Tick(s, now, curve).value) == 1.0
  {
    var ratio := Ratio(s, now, curve);
    var p := s.index[s.prev.value];
    var n := s.index[s.next.value];
    assert p != n;
    var faded := Zeros(s.slots)[p := 1.0 - ratio];
    SumZeros(s.slots);
    SumUpdate(Zeros(s.slots), p, 1.0 - ratio);
    SumUpdate(faded, n, ratio);
    assert Tick(s, now, curve).value == faded[n := ratio];
  }

  /** Re-selecting the clip that is already the target fades it into itself:
      the second write wins, so its slot carries the bare ratio rather than 1,
      and that ratio is the whole total. */
  lemma {:induction false} SelfBlendKeepsLastWrite(s: State, now: real, curve: real -> real)
    requires SlotsInRange(s) && TickDefined(s) && !NoPrevious(s) && s.prev == s.next
    ensures Tick(s, now, curve).value[s.index[s.next.value]] == Ratio(s, now, curve)
    ensures Sum(Tick(s, now, curve).value) == Ratio(s, now, curve)
  {
    var ratio := Ratio(s, now, curve);
    var n := s.index[s.next.value];
    var faded := Zeros(s.slots)[n := 1.0 - ratio];
    SumZeros(s.slots);
    SumUpdate(Zeros(s.slots), n, 1.0 - ratio);
    SumUpdate(faded, n, ratio);
    assert Tick(s, now, curve).value == faded[n := ratio];
  }

  /** Only the target's slot and the fading clip's slot can carry weight. */
  lemma AtMostTwoNonZero(s: State, now: real, curve: real -> real)
    requires SlotsInRange(s) && TickDefined(s)
    ensures NonZeroSlots(Tick(s, now, curve).value) <=
      {s.index[s.next.value]} + (if NoPrevious(s) then {} else {s.index[s.prev.value]})
    ensures |NonZeroSlots(Tick(s, now, curve).value)| <= 2
  {
    var w := Tick(s, now, curve).value;
    var n := s.index[s.next.value];
    var allowed := {n} + (if NoPrevious(s) then {} else {s.index[s.prev.value]});
    assert NonZeroSlots(w) <= allowed;
    assert |allowed| <= 2;
    SubsetCardinality(NonZeroSlots(w), allowed);
  }

  /** A selection made mid-fade abandons the fade: the clip that was fading
      out drops to 0 at once and the fade restarts at curve(0) between the
      interrupted target and the new one. */
  lemma OverlapRestartsFade(s: State, name: string, now: real, curve: real -> real)
    requires Valid(s) && TickDefined(s) && !NoPrevious(s)
    requires s.prev != s.next && s.prev != Some(name) && s.next != Some("")
    requires name in s.index && name != s.next.value
    ensures var s' := Play(s, name, now);
      && Tick(s', now, curve).Success?
      && Tick(s', now, curve).value[s.index[s.prev.value]] == 0.0
      && Tick(s', now, curve).value[s.index[s.next.value]] == 1.0 - curve(0.0)
      && Tick(s', now, curve).value[s.index[name]] == curve(0.0)
  {
  }

  /** A name that is not a clip is accepted by `Play` but breaks the update,
      and keeps breaking it for the following selection too, because it has
      moved into `prev`. */
  lemma UnknownNameBreaksTwoSelections(s: State, bad: string, good: string, t1: real, t2: real, now: real, curve: real -> real)
    requires SlotsInRange(s) && bad !in s.index && bad != "" && good in s.index
    ensures Tick(Play(s, bad, t1), now, curve).Failure?
    ensures Tick(Play(Play(s, bad, t1), good, t2), now, curve) == Failure(KeyNotFound(bad))
  {
  }

  /** A clip literally named "" in `prev` counts as no previous clip: the
      target plays alone at full weight. */
  lemma EmptyPreviousCountsAsNone(s: State, now: real, curve: real -> real)
    requires SlotsInRange(s) && s.prev == Some("") && s.next.Some? && s.next.value in s.index
    ensures Tick(s, now, curve).Success?
    ensures Tick(s, now, curve).value[s.index[s.next.value]] == 1.0
    ensures forall i :: 0 <= i < s.slots && i != s.index[s.next.value] ==> Tick(s, now, curve).value[i] == 0.0
  {
  }

  /** Selecting indexed clips keeps the index intact and every selected name
      resolvable, so the update succeeds from the first selection on. */
  lemma PlayKeepsKnown(s: State, name: string, now: real, curve: real -> real)
    requires Valid(s) && Known(s) && name in s.index
    ensures Valid(Play(s, name, now)) && Known(Play(s, name, now))
    ensures Tick(Play(s, name, now), now, curve).Success?
  {
  }
}
