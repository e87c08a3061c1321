/** The replay-to-slider glue of the viser replay system: the controller's
    per-URDF joint maps are flattened onto the slider vector, and the
    play, pause, reset and timeline widgets drive the controller. */
module RobotReplay {
  import opened Wrappers
  import opened Dicts
  import opened PyStrings
  import opened RobotData
  import opened UrdfJoints
  import opened Replay
  import opened SmartUrdf

  // ---------------------------------------------------------------------
  // Flattening a payload onto the slider vector

  /** What one payload pair `(u, cfg)` writes at a slider named `name`: the
      name must start with `u::`, and the part after its first `::` must
      be a joint of `cfg`. */
  function EntryValue(name: string, u: string, cfg: map<string, real>): Option<real> {
    if !StartsWith(name, u + Sep) then None
    else
      match SplitFirst(name, Sep)
      case None => None
      case Some((_, j)) => if j in cfg then Some(cfg[j]) else None
  }

  /** The value `_on_replay_update` leaves at a slider named `name`: the
      last payload pair that writes there wins, and 0.0 when none does. */
  function FlatValue(name: string, payload: Payload): real
    decreases |payload|
  {
    if payload == [] then 0.0
    else
      var last := payload[|payload| - 1];
      match EntryValue(name, last.0, last.1)
      case Some(v) => v
      case None => FlatValue(name, payload[..|payload| - 1])
  }

  /** Adding the pair at position k to the pairs before it. */
  lemma FlatValueStep(name: string, payload: Payload, k: nat)
    requires k < |payload|
    ensures FlatValue(name, payload[..k + 1]) ==
      match EntryValue(name, payload[k].0, payload[k].1)
      case Some(v) => v
      case None => FlatValue(name, payload[..k])
  {
    assert payload[..k + 1][..k] == payload[..k];
    assert payload[..k + 1][k] == payload[k];
  }

  /** `full_config`: one value per filtered joint name. */
  function Flatten(names: seq<string>, payload: Payload): (r: seq<real>)
    ensures |r| == |names|
  {
    seq(|names|, i requires 0 <= i < |names| => FlatValue(names[i], payload))
  }

  /** The intended reading: the value of joint j in the configuration of
      URDF u when the name is "u::j", and 0.0 otherwise. */
  function PayloadValue(payload: Payload, name: string): real {
    match SplitFirst(name, Sep)
    case None => 0.0
    case Some((u, j)) =>
      match Get(payload, u)
      case None => 0.0
      case Some(cfg) => if j in cfg then cfg[j] else 0.0
  }

  /** For a URDF name without colons, starting with `u::` is the same as
      splitting into `u` and the rest. */
  lemma PrefixSplits(name: string, u: string)
    requires NoColon(u)
    ensures StartsWith(name, u + Sep) <==> SplitFirst(name, Sep).Some? && SplitFirst(name, Sep).value.0 == u
  {
    if StartsWith(name, u + Sep) {
      var j := name[|u| + 2..];
      assert name == u + Sep + j by {
        assert name == name[..|u| + 2] + j;
      }
      SplitIsJoined(name, u, j);
    }
    if SplitFirst(name, Sep).Some? && SplitFirst(name, Sep).value.0 == u {
      var j := SplitFirst(name, Sep).value.1;
      SplitIsJoined(name, u, j);
      assert name[..|u + Sep|] == u + Sep;
    }
  }

  /** When the payload's URDF names are distinct and contain no colons,
      the flattened value is the intended one. */
  lemma {:induction false} FlatValueIsPayloadValue(name: string, payload: Payload)
    requires DistinctKeys(payload)
    requires forall k :: 0 <= k < |payload| ==> NoColon(payload[k].0)
    ensures FlatValue(name, payload) == PayloadValue(payload, name)
    decreases |payload|
  {
    if payload != [] {
      var k := |payload| - 1;
      var init := payload[..k];
      var (u, cfg) := payload[k];
      assert payload == init + [(u, cfg)];
      assert DistinctKeys(init) by {
        forall a, b | 0 <= a < b < |init| ensures init[a].0 != init[b].0 {
          assert init[a] == payload[a] && init[b] == payload[b];
        }
      }
      FlatValueIsPayloadValue(name, init);
      PrefixSplits(name, u);
      match SplitFirst(name, Sep)
      case None =>
      case Some((u', j)) =>
        GetAppend(init, (u, cfg), u');
    }
  }

  /** Every slider of a flattened vector holds the intended value. */
  lemma FlattenSpec(names: seq<string>, payload: Payload, i: nat)
    requires DistinctKeys(payload)
    requires forall k :: 0 <= k < |payload| ==> NoColon(payload[k].0)
    requires i < |names|
    ensures Flatten(names, payload)[i] == PayloadValue(payload, names[i])
  {
    FlatValueIsPayloadValue(names[i], payload);
  }

  /** A slider named "u::j" shows joint j of URDF u's configuration, and
      0.0 when the payload has no such joint. */
  lemma FlattenJoined(names: seq<string>, payload: Payload, i: nat, u: string, j: string)
    requires DistinctKeys(payload)
    requires forall k :: 0 <= k < |payload| ==> NoColon(payload[k].0)
    requires i < |names| && NoColon(u) && names[i] == JointName(u, j)
    ensures Get(payload, u).Some? && j in Get(payload, u).value ==> Flatten(names, payload)[i] == Get(payload, u).value[j]
    ensures !(Get(payload, u).Some? && j in Get(payload, u).value) ==> Flatten(names, payload)[i] == 0.0
  {
    FlattenSpec(names, payload, i);
    SplitIsJoined(names[i], u, j);
  }

  /** The slider values after writing `values` into them: slider i takes
      `values[i]` when there is one. */
  function WriteSliders(sliders: seq<real>, values: seq<real>): (r: seq<real>)
    ensures |r| == |sliders|
  {
    seq(|sliders|, i requires 0 <= i < |sliders| => if i < |values| then values[i] else sliders[i])
  }

  // ---------------------------------------------------------------------
  // Widgets

  const StatusReady := "Ready - Click Play to start replay"
  const StatusPlaying := "Playing..."
  const StatusPaused := "Paused"
  const StatusScrubbing := "Paused (scrubbing)"

  /** The parameters of `SimpleReplayController.__init__`, all of which
      have defaults. */
  const ControllerParameters: seq<string> := ["json_file"]

  /** Whether a call with `positional` positional arguments and the given
      keywords binds to `params`. */
  predicate Binds(params: seq<string>, positional: nat, keywords: seq<string>) {
    positional <= |params| &&
    forall k :: 0 <= k < |keywords| ==> keywords[k] in params[positional..]
  }

  /** The call at line 65 passes the data file positionally and a
      `downsample_factor` keyword, which the constructor does not take. */
  lemma DownsampleKeywordRejected()
    ensures !Binds(ControllerParameters, 1, ["downsample_factor"])
    ensures Binds(ControllerParameters, 1, [])
  {
    assert ["downsample_factor"][0] !in ControllerParameters[1..];
  }

  class ReplaySystem {
    /** The SMART manager the sliders belong to. */
    const manager: SmartUrdfManager
    var controller: ReplayController?
    /** The values of `slider_handles`; no handles and an empty list
        behave alike. */
    var sliders: array<real>
    var status: string
    var updatingTimelineSlider: bool

    ghost predicate Valid()
      reads this, controller
    {
      controller != null ==> controller.Valid()
    }

    /** `__init__` with the controller built as evidently intended: from
        the data file alone, with the update callback set. `source` stands
        for the file's records, `None` when it cannot be read. */
    constructor (manager: SmartUrdfManager, source: Option<seq<RawRecord>>)
      ensures this.manager == manager && sliders.Length == 0
      ensures status == StatusReady && !updatingTimelineSlider
      ensures controller == null <==> ParseOutcome(source, 1).Failure?
      ensures controller != null ==> (fresh(controller) &&
        controller.timeline == ParseOutcome(source, 1).value.0 &&
        controller.currentIndex == 0 && !controller.isPlaying &&
        controller.callbackSet && controller.emitted == [])
      ensures Valid()
    {
      var c := ReplayController.Open(source);
      this.manager := manager;
      controller := c;
      sliders := new real[0];
      status := StatusReady;
      updatingTimelineSlider := false;
      new;
      if c != null {
        c.SetUpdateCallback();
      }
    }

    /** `_initialize_replay_controller` as written: the constructor call
        raises `TypeError` (see `DownsampleKeywordRejected`), the handler
        catches it and the controller stays `None`. */
    method InitializeAsWritten()
      modifies this`controller
      ensures controller == null
      ensures Valid()
    {
      controller := null;
    }

    /** `set_slider_handles` */
    method SetSliderHandles(handles: array<real>)
      modifies this`sliders
      ensures sliders == handles
    {
      sliders := handles;
    }

    /** `_on_replay_update`: flatten the payload onto a zero vector of one
        entry per filtered joint name and copy it into the sliders. */
    method OnReplayUpdate(payload: Payload)
      modifies sliders
      ensures sliders[..] == WriteSliders(old(sliders[..]), Flatten(manager.filteredJointNames, payload))
    {
      if sliders.Length == 0 {
        assert sliders[..] == WriteSliders(old(sliders[..]), Flatten(manager.filteredJointNames, payload));
        return;
      }
      var names := manager.filteredJointNames;
      var full := new real[|names|](_ => 0.0);
      var k := 0;
      while k < |payload|
        invariant 0 <= k <= |payload|
        invariant full.Length == |names|
        invariant forall i :: 0 <= i < |names| ==> full[i] == FlatValue(names[i], payload[..k])
        invariant sliders[..] == old(sliders[..])
      {
        ApplyEntry(full, names, payload, k);
        k := k + 1;
      }
      assert payload[..k] == payload;
      assert full[..] == Flatten(names, payload);
      var i := 0;
      while i < sliders.Length
        invariant 0 <= i <= sliders.Length
        invariant full[..] == Flatten(names, payload)
        invariant forall m :: 0 <= m < i ==> sliders[m] == WriteSliders(old(sliders[..]), full[..])[m]
        invariant forall m :: i <= m < sliders.Length ==> sliders[m] == old(sliders[m])
      {
        if i < full.Length {
          sliders[i] := full[i];
        }
        i := i + 1;
      }
      assert sliders[..] == WriteSliders(old(sliders[..]), full[..]);
    }

    /** One pass of the outer loop of `_on_replay_update`: the pair at
        position k writes every slider it matches. */
    static method ApplyEntry(full: array<real>, names: seq<string>, payload: Payload, k: nat)
      requires k < |payload| && full.Length == |names|
      requires forall i :: 0 <= i < |names| ==> full[i] == FlatValue(names[i], payload[..k])
      modifies full
      ensures forall i :: 0 <= i < |names| ==> full[i] == FlatValue(names[i], payload[..k + 1])
    {
      var (u, cfg) := payload[k];
      if cfg == map[] {
        forall i | 0 <= i < |names| ensures full[i] == FlatValue(names[i], payload[..k + 1]) {
          FlatValueStep(names[i], payload, k);
        }
        return;
      }
      var i := 0;
      while i < |names|
        invariant 0 <= i <= |names|
        invariant forall m :: 0 <= m < i ==> full[m] == FlatValue(names[m], payload[..k + 1])
        invariant forall m :: i <= m < |names| ==> full[m] == FlatValue(names[m], payload[..k])
      {
        FlatValueStep(names[i], payload, k);
        if StartsWith(names[i], u + Sep) {
          var split := SplitFirst(names[i], Sep);
          if split.Some? && split.value.1 in cfg {
            full[i] := cfg[split.value.1];
          }
        }
        i := i + 1;
      }
    }

    /** `_on_play_button_click`: starts playback unless it is running. */
    method OnPlayButtonClick()
      requires Valid()
      modifies controller, this`status
      ensures Valid()
      ensures controller != null ==> (controller.playbackSpeed == old(controller.playbackSpeed) &&
        controller.callbackSet == old(controller.callbackSet))
      ensures controller == null ==> status == old(status)
      ensures controller != null && old(controller.isPlaying) ==> status == old(status) && controller.isPlaying
      ensures controller != null && !old(controller.isPlaying) ==> status == StatusPlaying && controller.isPlaying
      ensures controller != null ==> (controller.currentIndex == old(controller.currentIndex) &&
        controller.emitted == old(controller.emitted))
    {
      if controller == null {
        return;
      }
      if !controller.isPlaying {
        controller.Play();
        status := StatusPlaying;
      }
    }

    /** `_on_pause_button_click`: pauses only a running playback. */
    method OnPauseButtonClick()
      requires Valid()
      modifies controller, this`status
      ensures Valid()
      ensures controller != null ==> (controller.playbackSpeed == old(controller.playbackSpeed) &&
        controller.callbackSet == old(controller.callbackSet))
      ensures controller == null ==> status == old(status)
      ensures controller != null && old(controller.isPlaying) ==> status == StatusPaused && !controller.isPlaying
      ensures controller != null && !old(controller.isPlaying) ==> status == old(status) && !controller.isPlaying
      ensures controller != null ==> (controller.currentIndex == old(controller.currentIndex) &&
        controller.emitted == old(controller.emitted))
    {
      if controller == null {
        return;
      }
      if controller.isPlaying {
        controller.Pause();
        status := StatusPaused;
      }
    }

    /** `_on_reset_button_click`: always stops and rewinds. */
    method OnResetButtonClick()
      requires Valid()
      modifies controller, this`status
      ensures Valid()
      ensures controller != null ==> (controller.playbackSpeed == old(controller.playbackSpeed) &&
        controller.callbackSet == old(controller.callbackSet))
      ensures controller == null ==> status == old(status)
      ensures controller != null ==> status == StatusReady && !controller.isPlaying && controller.currentIndex == 0
      ensures controller != null ==> (controller.emitted == old(controller.emitted) +
        (if old(controller.callbackSet) && 0 < |controller.timeline| then [controller.Frame(0)] else []))
    {
      if controller == null {
        return;
      }
      controller.Stop();
      status := StatusReady;
    }

    /** `_on_timeline_change`, with `value` the timeline slider's value:
        ignored while the slider is being set programmatically; otherwise
        pause, seek to the truncated value and report the pause. */
    method OnTimelineChange(value: real)
      requires Valid()
      modifies controller, this`status
      ensures Valid()
      ensures controller != null ==> (controller.playbackSpeed == old(controller.playbackSpeed) &&
        controller.callbackSet == old(controller.callbackSet))
      ensures controller == null || updatingTimelineSlider ==> status == old(status)
      ensures controller != null && updatingTimelineSlider ==>
        controller.isPlaying == old(controller.isPlaying) &&
        controller.currentIndex == old(controller.currentIndex) && controller.emitted == old(controller.emitted)
      ensures controller != null && !updatingTimelineSlider ==> (!controller.isPlaying &&
        status == (if old(controller.isPlaying) then StatusScrubbing else StatusPaused))
      ensures controller != null && !updatingTimelineSlider ==>
        var f := Truncate(value);
        if 0 <= f < |controller.timeline| then
          controller.currentIndex == f &&
          controller.emitted == old(controller.emitted) + (if old(controller.callbackSet) then [controller.Frame(f)] else [])
        else
          controller.currentIndex == old(controller.currentIndex) && controller.emitted == old(controller.emitted)
    {
      if controller == null {
        return;
      }
      if updatingTimelineSlider {
        return;
      }
      var wasPlaying := controller.isPlaying;
      if wasPlaying {
        controller.Pause();
      }
      var frameIndex := Truncate(value);
      var _ := controller.GotoIndex(frameIndex);
      if wasPlaying {
        status := StatusScrubbing;
      } else {
        status := StatusPaused;
      }
    }
  }
}
