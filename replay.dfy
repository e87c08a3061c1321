/** The replay controller: a cursor over the parsed timeline with play,
    pause, stop and seeks, and the per-URDF joint configurations it hands
    to its update callback. */
module Replay {
  import opened Wrappers
  import opened Dicts
  import opened RobotData
  import opened JointMapping

  /** What the update callback receives: URDF name to joint configuration,
      in the order the URDF names are listed. */
  type Payload = Dict<string, map<string, real>>

  /** One call of the update callback; `index` is the timeline position the
      payload was built from. */
  datatype Emission = Emission(index: nat, payload: Payload)

  // ---------------------------------------------------------------------
  // The payload of `_update_visualization`

  /** The configurations of the listed URDFs for one snapshot, skipping the
      empty ones. */
  function PayloadFrom(t: Table, us: seq<string>, parts: map<string, seq<real>>): Payload
    decreases |us|
  {
    if us == [] then []
    else
      var u := us[|us| - 1];
      var config := CreateJointConfig(t, u, parts);
      PayloadFrom(t, us[..|us| - 1], parts) + (if config != map[] then [(u, config)] else [])
  }

  /** `joint_configs` as built by `_update_visualization`. */
  function PayloadFor(t: Table, parts: map<string, seq<real>>): Payload {
    PayloadFrom(t, UrdfNames(t), parts)
  }

  /** Every pair is a listed URDF with its non-empty configuration, and
      every listed URDF with a non-empty configuration has a pair. */
  lemma {:induction false} PayloadFromSpec(t: Table, us: seq<string>, parts: map<string, seq<real>>)
    ensures forall k :: 0 <= k < |PayloadFrom(t, us, parts)| ==>
      PayloadFrom(t, us, parts)[k].0 in us &&
      PayloadFrom(t, us, parts)[k].1 == CreateJointConfig(t, PayloadFrom(t, us, parts)[k].0, parts) &&
      PayloadFrom(t, us, parts)[k].1 != map[]
    ensures forall u :: u in us && CreateJointConfig(t, u, parts) != map[] ==> u in Keys(PayloadFrom(t, us, parts))
    decreases |us|
  {
    if us != [] {
      var init, u := us[..|us| - 1], us[|us| - 1];
      assert us == init + [u];
      PayloadFromSpec(t, init, parts);
      var p0 := PayloadFrom(t, init, parts);
      var p := PayloadFrom(t, us, parts);
      if CreateJointConfig(t, u, parts) != map[] {
        assert p == p0 + [(u, CreateJointConfig(t, u, parts))];
        assert Keys(p) == Keys(p0) + [u];
        forall k | 0 <= k < |p0| ensures p[k] == p0[k] { }
      } else {
        assert p == p0;
      }
    }
  }

  /** For a list without repeats the pairs follow the order of the list. */
  lemma {:induction false} PayloadFromOrder(t: Table, us: seq<string>, parts: map<string, seq<real>>, a: nat, b: nat)
    requires forall i, j :: 0 <= i < j < |us| ==> us[i] != us[j]
    requires a < b < |PayloadFrom(t, us, parts)|
    ensures PayloadFrom(t, us, parts)[a].0 in us && PayloadFrom(t, us, parts)[b].0 in us
    ensures IndexOf(us, PayloadFrom(t, us, parts)[a].0) < IndexOf(us, PayloadFrom(t, us, parts)[b].0)
    decreases |us|
  {
    var init, u := us[..|us| - 1], us[|us| - 1];
    assert us == init + [u];
    PayloadFromSpec(t, init, parts);
    var p0 := PayloadFrom(t, init, parts);
    var p := PayloadFrom(t, us, parts);
    assert p == p0 + (if CreateJointConfig(t, u, parts) != map[] then [(u, CreateJointConfig(t, u, parts))] else []);
    assert p[a] == p0[a];
    IndexOfAppend(init, u, p0[a].0);
    if b < |p0| {
      assert p[b] == p0[b];
      PayloadFromOrder(t, init, parts, a, b);
      IndexOfAppend(init, u, p0[b].0);
    } else {
      assert p[b].0 == u && u !in init;
      assert IndexOf(us, u) == |init|;
    }
  }

  /** The payload holds exactly the URDFs of `get_all_urdf_names` whose
      configuration is non-empty, each once, in that order, each with its
      `create_joint_config_for_urdf` result. */
  lemma PayloadForSpec(t: Table, parts: map<string, seq<real>>)
    ensures forall k :: 0 <= k < |PayloadFor(t, parts)| ==>
      PayloadFor(t, parts)[k].0 in UrdfNames(t) &&
      PayloadFor(t, parts)[k].1 == CreateJointConfig(t, PayloadFor(t, parts)[k].0, parts) &&
      PayloadFor(t, parts)[k].1 != map[]
    ensures forall u :: u in UrdfNames(t) && CreateJointConfig(t, u, parts) != map[] ==> u in Keys(PayloadFor(t, parts))
    ensures forall a, b :: 0 <= a < b < |PayloadFor(t, parts)| ==>
      PayloadFor(t, parts)[a].0 in UrdfNames(t) && PayloadFor(t, parts)[b].0 in UrdfNames(t) &&
      IndexOf(UrdfNames(t), PayloadFor(t, parts)[a].0) < IndexOf(UrdfNames(t), PayloadFor(t, parts)[b].0)
  {
    PayloadFromSpec(t, UrdfNames(t), parts);
    UrdfNamesSpec(t);
    forall a, b | 0 <= a < b < |PayloadFor(t, parts)|
      ensures PayloadFor(t, parts)[a].0 in UrdfNames(t) && PayloadFor(t, parts)[b].0 in UrdfNames(t)
      ensures IndexOf(UrdfNames(t), PayloadFor(t, parts)[a].0) < IndexOf(UrdfNames(t), PayloadFor(t, parts)[b].0)
    {
      PayloadFromOrder(t, UrdfNames(t), parts, a, b);
    }
  }

  /** `_update_visualization`'s loop over the URDF names. */
  method BuildPayload(t: Table, parts: map<string, seq<real>>) returns (p: Payload)
    ensures p == PayloadFor(t, parts)
  {
    var us := GetAllUrdfNames(t);
    p := [];
    var i := 0;
    while i < |us|
      invariant 0 <= i <= |us|
      invariant p == PayloadFrom(t, us[..i], parts)
    {
      assert us[..i + 1][..i] == us[..i];
      var config := CreateJointConfigForUrdf(t, us[i], parts);
      if config != map[] {
        p := p + [(us[i], config)];
      }
      i := i + 1;
    }
    assert us[..i] == us;
  }

  // ---------------------------------------------------------------------
  // set_playback_speed

  /** `max(0.1, min(5.0, speed))` */
  function Clamp(speed: real): (r: real)
    ensures 0.1 <= r <= 5.0
    ensures speed < 0.1 ==> r == 0.1
    ensures speed > 5.0 ==> r == 5.0
  {
    if speed < 0.1 then 0.1 else if speed > 5.0 then 5.0 else speed
  }

  /** Clamping leaves a speed in range alone, so clamping twice is clamping
      once, and it never reverses the order of two speeds. */
  lemma ClampProperties(s: real, s': real)
    ensures 0.1 <= s <= 5.0 ==> Clamp(s) == s
    ensures Clamp(Clamp(s)) == Clamp(s)
    ensures s <= s' ==> Clamp(s) <= Clamp(s')
  {
  }

  // ---------------------------------------------------------------------
  // The controller

  /** What `get_timeline_info` returns: the parser's summary plus the cursor. */
  datatype ControllerInfo = ControllerInfo(
    timeline: TimelineInfo, currentIndex: int, currentSequenceId: Option<int>,
    isPlaying: bool, playbackSpeed: real)

  class ReplayController {
    /** The parsed timeline (`parser.parsed_data`), fixed once built. */
    const timeline: seq<Entry>
    /** The mapper's table (`JointMapper()` builds `DefaultTable`). */
    const table: Table
    var currentIndex: int
    var isPlaying: bool
    var playbackSpeed: real
    /** Whether `update_callback` is set. */
    var callbackSet: bool
    /** Every call of the update callback so far, oldest first. */
    var emitted: seq<Emission>

    /** The cursor is on an entry, or at 0 on an empty timeline, and the
        speed is within its clamp. */
    predicate Valid()
      reads this
    {
      0 <= currentIndex && (currentIndex < |timeline| || currentIndex == 0) &&
      0.1 <= playbackSpeed <= 5.0
    }

    /** The state `__init__` leaves after a successful parse. */
    constructor(timeline: seq<Entry>, table: Table)
      ensures this.timeline == timeline && this.table == table
      ensures currentIndex == 0 && !isPlaying && playbackSpeed == 1.0 && !callbackSet && emitted == []
      ensures Valid()
    {
      this.timeline := timeline;
      this.table := table;
      currentIndex := 0;
      isPlaying := false;
      playbackSpeed := 1.0;
      callbackSet := false;
      emitted := [];
    }

    /** `SimpleReplayController(json_file)`: load, parse with factor 1, and
        start at the beginning; `null` stands for the exception a failed
        load or parse raises. */
    static method Open(source: Option<seq<RawRecord>>) returns (c: ReplayController?)
      ensures c == null <==> ParseOutcome(source, 1).Failure?
      ensures c != null ==> fresh(c) && c.timeline == ParseOutcome(source, 1).value.0 && c.table == DefaultTable
      ensures c != null ==> c.currentIndex == 0 && !c.isPlaying && c.playbackSpeed == 1.0
      ensures c != null ==> !c.callbackSet && c.emitted == [] && c.Valid()
    {
      var parser := new RobotDataParser(source);
      var loaded := parser.LoadData();
      if !loaded {
        return null;
      }
      var outcome := parser.ParseData(1);
      if outcome.Fail? {
        return null;
      }
      c := new ReplayController(parser.parsedData.value, DefaultTable);
    }

    /** The emission `_update_visualization` produces at position i. */
    function Frame(i: nat): Emission
      requires i < |timeline|
    {
      Emission(i, PayloadFor(table, timeline[i].parts))
    }

    /** What one `_update_visualization` call appends to the log. */
    function Refresh(): (r: seq<Emission>)
      reads this
      ensures |r| <= 1
      ensures |r| == 1 <==> callbackSet && 0 <= currentIndex < |timeline|
    {
      if callbackSet && 0 <= currentIndex < |timeline| then [Frame(currentIndex)] else []
    }

    /** `set_update_callback` */
    method SetUpdateCallback()
      modifies this`callbackSet
      ensures callbackSet
    {
      callbackSet := true;
    }

    /** `get_current_entry`: the entry under the cursor, if it is in range. */
    function GetCurrentEntry(): (r: Option<Entry>)
      reads this
      ensures r.Some? <==> 0 <= currentIndex < |timeline|
      ensures r.Some? ==> r.value == timeline[currentIndex]
    {
      if 0 <= currentIndex < |timeline| then Some(timeline[currentIndex]) else None
    }

    /** `get_current_sequence_id` */
    function GetCurrentSequenceId(): (r: Option<int>)
      reads this
      ensures r.Some? <==> 0 <= currentIndex < |timeline|
      ensures r.Some? ==> r.value == timeline[currentIndex].sequenceId
    {
      match GetCurrentEntry()
      case None => None
      case Some(e) => Some(e.sequenceId)
    }

    /** `_update_visualization`: calls back at most once, and only with a
        callback set and the cursor on an entry. */
    method UpdateVisualization()
      modifies this`emitted
      ensures emitted == old(emitted) + Refresh()
    {
      if 0 <= currentIndex < |timeline| && callbackSet {
        var payload := BuildPayload(table, timeline[currentIndex].parts);
        emitted := emitted + [Emission(currentIndex, payload)];
      }
    }

    /** `goto_sequence_id`: the first entry with that id becomes current and
        is shown; without one nothing changes. Playback is not paused. */
    method GotoSequenceId(id: int) returns (found: bool)
      requires Valid()
      modifies this`currentIndex, this`emitted
      ensures Valid()
      ensures found <==> FirstWithSequenceId(timeline, id).Some?
      ensures found ==> currentIndex == FirstWithSequenceId(timeline, id).value
      ensures found ==> emitted == old(emitted) + (if callbackSet then [Frame(currentIndex)] else [])
      ensures !found ==> currentIndex == old(currentIndex) && emitted == old(emitted)
    {
      var i := 0;
      while i < |timeline|
        invariant 0 <= i <= |timeline|
        invariant forall j :: 0 <= j < i ==> timeline[j].sequenceId != id
        invariant currentIndex == old(currentIndex) && emitted == old(emitted)
      {
        if timeline[i].sequenceId == id {
          currentIndex := i;
          UpdateVisualization();
          return true;
        }
        i := i + 1;
      }
      return false;
    }

    /** `goto_index`: succeeds exactly for an index inside the timeline, and
        then shows that entry once; otherwise nothing changes. */
    method GotoIndex(index: int) returns (ok: bool)
      requires Valid()
      modifies this`currentIndex, this`emitted
      ensures Valid()
      ensures ok <==> 0 <= index < |timeline|
      ensures ok ==> currentIndex == index && emitted == old(emitted) + (if callbackSet then [Frame(index)] else [])
      ensures !ok ==> currentIndex == old(currentIndex) && emitted == old(emitted)
    {
      if 0 <= index < |timeline| {
        currentIndex := index;
        UpdateVisualization();
        return true;
      }
      return false;
    }

    /** `play`: a no-op while playing; otherwise playback starts at the
        cursor (the thread it starts is `Step`/`RunToEnd`). */
    method Play()
      modifies this`isPlaying
      ensures isPlaying
    {
      if isPlaying {
        return;
      }
      isPlaying := true;
    }

    /** `pause`: a no-op while not playing; the cursor stays where it is. */
    method Pause()
      modifies this`isPlaying
      ensures !isPlaying
    {
      if !isPlaying {
        return;
      }
      isPlaying := false;
    }

    /** `stop`: pause, rewind to the beginning and show it. */
    method Stop()
      requires Valid()
      modifies this`isPlaying, this`currentIndex, this`emitted
      ensures Valid()
      ensures !isPlaying && currentIndex == 0
      ensures emitted == old(emitted) + (if callbackSet && 0 < |timeline| then [Frame(0)] else [])
    {
      Pause();
      currentIndex := 0;
      UpdateVisualization();
    }

    /** `set_playback_speed` */
    method SetPlaybackSpeed(speed: real)
      requires Valid()
      modifies this`playbackSpeed
      ensures Valid()
      ensures playbackSpeed == Clamp(speed)
    {
      if speed < 0.1 {
        playbackSpeed := 0.1;
      } else if speed > 5.0 {
        playbackSpeed := 5.0;
      } else {
        playbackSpeed := speed;
      }
    }

    /** The emissions of the last pass from position k: entry k if it
        exists, then entry 0 after the rewind. */
    function Finale(k: int): seq<Emission>
      reads this
    {
      if !callbackSet || |timeline| == 0 then []
      else if 0 <= k < |timeline| then [Frame(k), Frame(0)]
      else [Frame(0)]
    }

    /** One pass of `_playback_loop`: show the current entry, then advance;
        past the end, stop playing, rewind to 0 and show it again. Nothing
        happens while not playing. */
    method Step()
      requires Valid()
      modifies this`isPlaying, this`currentIndex, this`emitted
      ensures Valid()
      ensures !old(isPlaying) ==> !isPlaying && currentIndex == old(currentIndex) && emitted == old(emitted)
      ensures old(isPlaying) && old(currentIndex) + 1 < |timeline| ==>
        isPlaying && currentIndex == old(currentIndex) + 1 &&
        emitted == old(emitted) + (if callbackSet then [Frame(old(currentIndex))] else [])
      ensures old(isPlaying) && old(currentIndex) + 1 >= |timeline| ==>
        !isPlaying && currentIndex == 0 &&
        emitted == old(emitted) + Finale(old(currentIndex))
    {
      if !isPlaying {
        return;
      }
      UpdateVisualization();
      currentIndex := currentIndex + 1;
      if currentIndex >= |timeline| {
        isPlaying := false;
        currentIndex := 0;
        UpdateVisualization();
      }
    }

    /** The frames of positions a .. b-1, in order. */
    function Frames(a: nat, b: nat): (r: seq<Emission>)
      requires a <= b <= |timeline|
      ensures |r| == b - a
      decreases b
    {
      if a == b then [] else Frames(a, b - 1) + [Frame(b - 1)]
    }

    /** Frame j of the run from a is the one of position a + j. */
    lemma {:induction false} FramesAt(a: nat, b: nat, j: nat)
      requires a <= b <= |timeline| && j < b - a
      ensures Frames(a, b)[j] == Frame(a + j)
      decreases b
    {
      if a + j < b - 1 {
        FramesAt(a, b - 1, j);
      }
    }

    /** What a playback run started at position k emits when nothing
        interrupts it: entries k .. end, in order, then entry 0 once more. */
    function Playback(k: nat): seq<Emission>
      requires k <= |timeline|
      reads this
    {
      if !callbackSet || |timeline| == 0 then []
      else Frames(k, |timeline|) + [Frame(0)]
    }

    /** `_playback_loop` run to completion, with no concurrent pause. */
    method RunToEnd()
      requires Valid()
      modifies this`isPlaying, this`currentIndex, this`emitted
      ensures Valid() && !isPlaying
      ensures !old(isPlaying) ==> currentIndex == old(currentIndex) && emitted == old(emitted)
      ensures old(isPlaying) ==> currentIndex == 0 && emitted == old(emitted) + Playback(old(currentIndex))
    {
      var k: nat := currentIndex;
      while isPlaying
        invariant Valid()
        invariant !old(isPlaying) ==> !isPlaying && currentIndex == old(currentIndex) && emitted == old(emitted)
        invariant old(isPlaying) && isPlaying ==>
          k <= currentIndex <= |timeline| &&
          emitted == old(emitted) + (if callbackSet then Frames(k, currentIndex) else [])
        invariant old(isPlaying) && !isPlaying ==> currentIndex == 0 && emitted == old(emitted) + Playback(k)
        decreases isPlaying, |timeline| - currentIndex
      {
        if isPlaying && currentIndex < |timeline| {
          RunStep(k, currentIndex);
        }
        Step();
      }
    }

    /** One pass of a run from k that has reached position c. */
    lemma RunStep(k: nat, c: nat)
      requires k <= c < |timeline|
      ensures Frames(k, c + 1) == Frames(k, c) + [Frame(c)]
      ensures c + 1 == |timeline| ==>
        (if callbackSet then Frames(k, c) else []) + Finale(c) == Playback(k)
    {
    }

    /** `get_timeline_info` */
    function GetTimelineInfo(): (r: ControllerInfo)
      reads this
      ensures r.timeline == TimelineInfoOf(Some(timeline))
      ensures r.currentIndex == currentIndex && r.isPlaying == isPlaying && r.playbackSpeed == playbackSpeed
      ensures r.currentSequenceId == GetCurrentSequenceId()
    {
      ControllerInfo(TimelineInfoOf(Some(timeline)), currentIndex, GetCurrentSequenceId(), isPlaying, playbackSpeed)
    }
  }

  /** Seeking and then playing shows the seek target twice: once for the
      seek, and once more as the first frame of playback, because a pass
      shows the current entry before advancing. */
  method SeekThenPlay(c: ReplayController, index: int)
    requires c.Valid() && c.callbackSet && !c.isPlaying
    requires 0 <= index < |c.timeline| - 1
    modifies c
    ensures c.Valid() && c.isPlaying && c.currentIndex == index + 1
    ensures c.emitted == old(c.emitted) + [c.Frame(index), c.Frame(index)]
  {
    var ok := c.GotoIndex(index);
    c.Play();
    c.Step();
  }
}
