# RoboVis offline replay and URDF-manager helpers, in Dafny

RoboVis displays robot work cells (URDF models) in the viser web viewer. It
can also replay a recorded robot-status file. This project models the parts
of it that are plain logic once the viewer, the file system and the clock are
taken away:

- **Recording parser** (`robot_data.dfy`, module `RobotData`). A JSON array of
  snapshots becomes a strided timeline of entries. Each entry has a sequence
  id, a timestamp and the joint vector of every robot part. The parser also
  keeps a first-seen joint count per part and offers linear lookups.
- **Joint mapper** (`joint_mapping.dfy`, `JointMapping`). A fixed table from
  robot parts to URDF models and URDF joint names. It builds per-URDF joint
  configurations from a snapshot, padding missing values with 0.0, and
  validates joint counts.
- **Replay controller** (`replay.dfy`, `Replay`). A cursor over the timeline
  with play, pause, stop, bounds-checked seeks and a clamped playback speed.
  The update callback is a log of emitted frames. The playback thread is a
  sequential `Step` and `RunToEnd`.
- **Shared URDF bookkeeping** (`urdf_joints.dfy`, `UrdfJoints`):
  - joints registered as `"urdf::joint"`;
  - flat value vectors grouped back per URDF;
  - one configuration array per URDF, with defaults;
  - initial slider positions.
- **SMART manager** (`smart_urdf.dfy`, `SmartUrdf`):
  - `package://` URI resolution with fuzzy package matching;
  - the meaningful-joint filter;
  - short display names;
  - the manager that registers only meaningful joints.
- **Version deduplication** (`urdf_dedup.dfy`, `UrdfDedup`). Picks one URDF
  per component by a path score.
- **Stress-test manager** (`multi_urdf.dfy`, `MultiUrdf`). Registers every
  actuated joint, and discovers a work cell's URDF files.
- **Replay-to-slider glue** (`robot_replay.dfy`, `RobotReplay`). Flattens
  the controller's per-URDF joint maps onto the slider vector, and drives
  the controller from the play, pause, reset and timeline widgets.
- **Helpers** (`wrappers.dfy`, `dicts.dfy`, `py_strings.dfy`): the Python
  behaviour the code relies on.
  - Insertion-ordered dicts are sequences of pairs.
  - `str.startswith`, `in`, `split(sep, 1)`, `lower`, `title`, `replace` and
    `strip` are written out over `seq<char>`.

Outside effects become parameters:

- the decoded JSON file is an `Option<seq<RawRecord>>`, whose `sequenceId` and
  `timestampNs` fields are JSON values (`JsonValue`) that `int()` converts;
- a loaded URDF's joints are an `Option`, where `None` stands for the
  exception the loader raises;
- the package map and the set of existing paths are inputs;
- a directory walk is an `Option<Listing>`;
- `update_cfg` pushes become a returned list of `CfgUpdate`.

## Model

| member | source | states |
|---|---|---|
| RobotData.DownsampleKeeps | data/robot_data_parser.py:38 | with step f ≥ 1 the kept records are raw records 0, f, 2f, … in order, there are ceil(N/f) of them, and record 0 is kept whenever there is one |
| RobotData.StrideLength | data/robot_data_parser.py:38 | a positive stride keeps (N + f − 1) / f records |
| RobotData.StrideAt | data/robot_data_parser.py:38 | element i of the stride is raw record i·f |
| RobotData.DownsampleBackwards | data/robot_data_parser.py:38 | a negative step walks back from the last record with the matching count |
| RobotData.ParseEntriesShape | data/robot_data_parser.py:45-65 | a successful parse has exactly one entry per kept record, each the parse of that record |
| RobotData.ParseEntriesPrefixFails | data/robot_data_parser.py:45-50 | the first record missing a key, or holding a value `int()` rejects, makes the whole parse fail with that KeyError, ValueError or TypeError |
| RobotData.ParsePartsPrefixFails | data/robot_data_parser.py:53-54 | a part record missing its name fails the snapshot |
| RobotData.ParsePartsPresence | data/robot_data_parser.py:53-59 | a part is in an entry iff some part record with values names it, and a later record of the same part overwrites an earlier one |
| RobotData.FirstOccurrencesKeys | data/robot_data_parser.py:61-63 | `part_info` has a key for exactly the parts that occur with values |
| RobotData.FirstOccurrencesDistinct | data/robot_data_parser.py:61-63 | `part_info` keys are pairwise distinct |
| RobotData.FirstOccurrencesValue | data/robot_data_parser.py:62-63 | the stored count is the vector length at the part's first occurrence |
| RobotData.FirstOccurrencesOrder | data/robot_data_parser.py:74-76 | part names are listed in order of first appearance |
| RobotData.DataByIndex | data/robot_data_parser.py:98-102 | None before parsing or at index ≥ length; the entry inside; a negative index counts from the end and below −length raises |
| RobotData.FirstWithSequenceId | data/robot_data_parser.py:88-96 | the first entry with the id, or none when no entry has it |
| RobotData.IndexAndSequenceIdAgree | data/robot_data_parser.py:88-102 | with unique ids, lookup by index i and by `ids[i]` return the same entry |
| RobotData.SeqMin | data/robot_data_parser.py:114-115 | `min` is an element and at most every element |
| RobotData.SeqMax | data/robot_data_parser.py:114-115 | `max` is an element and at least every element |
| RobotData.SequenceIds | data/robot_data_parser.py:82-86 | one id per entry, in timeline order |
| RobotData.Timestamps | data/robot_data_parser.py:110 | one timestamp per entry, in timeline order |
| RobotData.TimelineInfoOf | data/robot_data_parser.py:104-117 | `{}` before parsing, an error on an empty timeline; otherwise the length and attained (min, max) ranges bracketing every entry |
| RobotData.EntriesWithPart | data/robot_data_parser.py:119-128 | increasing indices of exactly the entries holding the part |
| RobotData.PositionsInSpec | data/robot_data_parser.py:119-128 | the returned vectors are those entries' vectors, in timeline order |
| RobotData.PositionsForPartBounds | data/robot_data_parser.py:119-128 | at most one vector per entry, and one per entry iff every entry holds the part |
| RobotData.RobotDataParser.constructor | data/robot_data_parser.py:13-17 | nothing loaded or parsed, empty `part_info` |
| RobotData.RobotDataParser.LoadData | data/robot_data_parser.py:19-28 | succeeds iff the file can be read, which sets `raw_data`; otherwise nothing changes |
| RobotData.RobotDataParser.ParseSnapshot | data/robot_data_parser.py:53-63 | the inner loop's parts map and counts equal the specification functions |
| RobotData.IntOf | data/robot_data_parser.py:47-48 | `int()` of a field: an int as it is, a bool as 1 or 0, a float truncated toward zero, a string parsed as a decimal; `None`, a list or a dict fail |
| RobotData.IntOfAgrees | data/robot_data_parser.py:47-48 | `int()` gives back n from the number n, the float n and the string `str(n)` |
| PyStrings.ParseInt | data/robot_data_parser.py:47-48 | `int(s)` on a string succeeds only if s contains a digit |
| PyStrings.ParseShowInt | data/robot_data_parser.py:47-48 | `int(str(n)) == n` for every integer n |
| RobotData.RobotDataParser.ParseRecords | data/robot_data_parser.py:45-65 | the record loop yields the entries and first-seen counts of the kept records, or the first failing record's error |
| RobotData.RobotDataParser.ParseData | data/robot_data_parser.py:30-68 | loads first if needed; on success the fields hold the strided parse and first-seen counts; on error they are unchanged |
| RobotData.RobotDataParser.GetPartNames | data/robot_data_parser.py:74-76 | the `part_info` keys in dict order, pairwise distinct, each with its stored joint count; `[]` before a parse (after one, in order of first appearance by FirstOccurrencesOrder) |
| RobotData.RobotDataParser.GetPartJointCount | data/robot_data_parser.py:78-80 | 0 for an unknown part, else the stored count |
| RobotData.RobotDataParser.GetSequenceIds | data/robot_data_parser.py:82-86 | `[]` before parsing, else one id per entry |
| RobotData.RobotDataParser.GetDataBySequenceId | data/robot_data_parser.py:88-96 | the first entry with that id, or None |
| RobotData.RobotDataParser.GetDataByIndex | data/robot_data_parser.py:98-102 | None before parsing or at index ≥ length; an entry exactly for −length ≤ index < length, counting negative indices from the end; IndexError exactly below −length |
| RobotData.RobotDataParser.GetTimelineInfo | data/robot_data_parser.py:104-117 | `{}` exactly before parsing, the empty-timeline error exactly on an empty parse; otherwise the entry count and (min, max) ranges that bracket every entry and are attained |
| RobotData.RobotDataParser.GetJointPositionsForPart | data/robot_data_parser.py:119-128 | the loop returns exactly the specification's vectors |
| JointMapping.MappedJoints | data/joint_mapper.py:65-67 | the row of a known part, None for any other |
| JointMapping.UrdfColumn | data/joint_mapper.py:72-73 | the `urdf_name` of every row, row by row |
| JointMapping.UrdfNamesSpec | data/joint_mapper.py:69-76 | URDF names are distinct and are exactly the names used in the table |
| JointMapping.UrdfNamesOrder | data/joint_mapper.py:69-76 | URDF names come in order of first use |
| JointMapping.GetAllUrdfNames | data/joint_mapper.py:69-76 | the loop returns the specification's list |
| JointMapping.JointMappingForSpec | data/joint_mapper.py:78-86 | exactly the rows mapping to u, each with its joint list |
| JointMapping.JointMappingForDistinct | data/joint_mapper.py:78-86 | the mapping's part names are distinct when the table's are |
| JointMapping.JointMappingForEmpty | data/joint_mapper.py:78-86 | empty iff no row maps to u |
| JointMapping.UnknownUrdfHasNoMapping | data/joint_mapper.py:78-86 | empty iff u is not among the URDF names |
| JointMapping.GetJointMappingForUrdf | data/joint_mapper.py:78-86 | the loop returns the specification's mapping |
| JointMapping.PartConfigKeys | data/joint_mapper.py:100-104 | a present part contributes exactly its joint names as keys |
| JointMapping.PartConfigValue | data/joint_mapper.py:100-104 | joint i gets `positions[i]`, or 0.0 past the end; extra positions are ignored |
| JointMapping.ConfigFromKeys | data/joint_mapper.py:95-104 | keys are the joints of mapped parts present in the snapshot, and every such joint is a key |
| JointMapping.ConfigFromValue | data/joint_mapper.py:95-104 | each key's value comes from the last present part listing it, padded with 0.0 |
| JointMapping.CreateJointConfigForUrdf | data/joint_mapper.py:88-106 | the loops return the specification's configuration |
| JointMapping.ValidateMapping | data/joint_mapper.py:120-140 | True iff every given part is mapped with the given joint count; True on empty input |
| JointMapping.DefaultTableDistinct | data/joint_mapper.py:14-63 | the built-in table has distinct part names |
| JointMapping.SampleCountsValid | data/joint_mapper.py:154-163 | the built-in table validates against the sample counts |
| JointMapping.MismatchesRejected | data/joint_mapper.py:126-138 | a wrong count or an unmapped part fails validation |
| JointMapping.BandSeparatorExample | data/joint_mapper.py:170-180 | the four band-separator joints take the sample's four values, in order |
| Replay.PayloadFromSpec | data/replay_controller.py:154-159 | every payload pair is a URDF name with its non-empty configuration, and every such URDF has a pair |
| Replay.PayloadFromOrder | data/replay_controller.py:156-159 | pairs follow the order of the URDF names |
| Replay.PayloadForSpec | data/replay_controller.py:149-162 | the payload's keys are the URDF names with non-empty configurations, in table order |
| Replay.BuildPayload | data/replay_controller.py:154-159 | the loop builds the specification's payload |
| Replay.Clamp | data/replay_controller.py:117 | the result lies in [0.1, 5.0], pinned at the nearer bound outside it |
| Replay.ClampProperties | data/replay_controller.py:115-117 | identity in range, idempotent, monotone |
| Replay.ReplayController.constructor | data/replay_controller.py:20-23 | index 0, not playing, speed 1.0, no callback, nothing emitted |
| Replay.ReplayController.Open | data/replay_controller.py:15-32 | null exactly when loading or the factor-1 parse fails; otherwise a fresh controller in the initial state over that timeline |
| Replay.ReplayController.Refresh | data/replay_controller.py:149-152 | at most one emission, and one exactly when a callback is set and the index is in range |
| Replay.ReplayController.SetUpdateCallback | data/replay_controller.py:35-37 | the callback is set |
| Replay.ReplayController.GetCurrentEntry | data/replay_controller.py:43-47 | the entry at the cursor iff the cursor is in range |
| Replay.ReplayController.GetCurrentSequenceId | data/replay_controller.py:49-52 | the id at the cursor iff the cursor is in range |
| Replay.ReplayController.UpdateVisualization | data/replay_controller.py:149-162 | appends exactly `Refresh()` to the log |
| Replay.ReplayController.GotoSequenceId | data/replay_controller.py:54-64 | True iff some entry has the id; then the cursor is on the first such entry and, when a callback is set, it is emitted once; otherwise nothing changes |
| Replay.ReplayController.GotoIndex | data/replay_controller.py:66-77 | succeeds iff 0 ≤ i < length; then the cursor is i, with one emission when a callback is set; otherwise nothing changes; playing is untouched |
| Replay.ReplayController.Play | data/replay_controller.py:79-92 | afterwards playing; only `is_playing` may change |
| Replay.ReplayController.Pause | data/replay_controller.py:94-106 | afterwards not playing; the cursor is untouched |
| Replay.ReplayController.Stop | data/replay_controller.py:108-113 | not playing, index 0, and, when a callback is set, exactly one emission of entry 0 |
| Replay.ReplayController.SetPlaybackSpeed | data/replay_controller.py:115-118 | the speed becomes `Clamp(speed)` |
| Replay.ReplayController.Step | data/replay_controller.py:125-140 | nothing happens while not playing; otherwise one pass emits the current entry (when a callback is set) then advances; past the end it stops, rewinds to 0 and emits entry 0 (when a callback is set) |
| Replay.ReplayController.RunToEnd | data/replay_controller.py:120-147 | always ends not playing; a run from k while playing ends at 0 and, when a callback is set and the timeline is non-empty, emits k, k+1, …, len−1 then entry 0 once; while not playing nothing changes |
| Replay.ReplayController.GetTimelineInfo | data/replay_controller.py:164-173 | the parser's summary plus cursor, current id, playing flag and speed |
| Replay.SeekThenPlay | data/replay_controller.py:129-132 | a seek followed by play emits the seek target twice, because a pass emits before it advances |
| UrdfJoints.JointNameSplits | benchmarks/viser_multi_urdf_stress_test.py:115 | every registered name can be split at "::" |
| UrdfJoints.SplitIsJoined | benchmarks/viser_multi_urdf_stress_test.py:115 | for a colon-free URDF name, splitting gives (u, j) iff the name is "u::j" |
| UrdfJoints.LastWithSpec | benchmarks/viser_multi_urdf_stress_test.py:114-118 | the last index whose name splits to (u, j), with none after it; none only when no name splits to it |
| UrdfJoints.LastWithJoined | benchmarks/viser_multi_urdf_stress_test.py:114-118 | that index exists iff "u::j" is registered |
| UrdfJoints.GroupUrdfs | benchmarks/viser_multi_urdf_stress_test.py:112-118 | a URDF is grouped iff some name belongs to it |
| UrdfJoints.GroupLookup | benchmarks/viser_multi_urdf_stress_test.py:114-118 | (u, j) is grouped iff some name splits to it, and the value is that of the last such name |
| UrdfJoints.DefaultWithin | backends/viser/viser_multi_urdf_with_frames.py:371-375 | the default of a joint with both limits lies within them |
| UrdfJoints.UpdatesSpec | backends/viser/viser_multi_urdf_with_frames.py:355-379 | URDFs are updated iff they are grouped and have actuated joints, in config order, each with its cfg |
| UrdfJoints.UpdateAllValue | backends/viser/viser_multi_urdf_with_frames.py:364-376 | entry p of a URDF's cfg is the supplied value of that joint, else its default |
| UrdfJoints.MismatchUpdatesNothing | backends/viser/viser_multi_urdf_with_frames.py:342-344 | when the vector length differs from the registered names, no URDF is updated |
| UrdfJoints.UpdateAllNeedsNames | backends/viser/viser_multi_urdf_with_frames.py:349-360 | a URDF none of whose joints is among the registered names is never the target of an update |
| UrdfJoints.GroupValues | benchmarks/viser_multi_urdf_stress_test.py:112-118 | the grouping loop builds the specification's map of maps |
| UrdfJoints.BuildCfg | backends/viser/viser_multi_urdf_with_frames.py:365-376 | the cfg loop builds one entry per actuated joint |
| UrdfJoints.ComputeUpdates | backends/viser/viser_multi_urdf_with_frames.py:340-379 | the updates equal `UpdateAll` |
| UrdfJoints.InitialPosition | benchmarks/viser_multi_urdf_stress_test.py:146-155 | missing bounds become ±π; the result lies within the bounds; with no bounds it is 0.0; with lower ≥ −0.1 it is the midpoint |
| UrdfJoints.InitialConfigurationWithin | benchmarks/viser_multi_urdf_stress_test.py:140-157 | one entry per registered name, each within its bounds |
| UrdfJoints.ComputeInitialConfiguration | benchmarks/viser_multi_urdf_stress_test.py:140-157 | the loop returns the specification's vector |
| UrdfJoints.RegisterKeys | benchmarks/viser_multi_urdf_stress_test.py:93-96 | registering adds exactly the "name::joint" keys |
| UrdfJoints.RegisteredAgree | benchmarks/viser_multi_urdf_stress_test.py:93-96 | a name is a limits key iff it is in the names list |
| UrdfJoints.RegisteredShape | benchmarks/viser_multi_urdf_stress_test.py:93-96 | every registered name is "u::j" for a registered joint j of some URDF u |
| UrdfJoints.RegisteredSplittable | benchmarks/viser_multi_urdf_stress_test.py:93-96 | every registered name can be split |
| UrdfJoints.DofCount | benchmarks/viser_multi_urdf_stress_test.py:101-103 | the dict size is at most the number of names, and equal when the names are distinct |
| SmartUrdf.FuzzyMatch | backends/viser/viser_multi_urdf_with_frames.py:80-84 | the first key that contains the name or is contained in it |
| SmartUrdf.PackageKey | backends/viser/viser_multi_urdf_with_frames.py:78-87 | the resolved package is a key of the map |
| SmartUrdf.ResolvePackageUri | backends/viser/viser_multi_urdf_with_frames.py:66-95 | non-package URIs pass unchanged; a remainder with no "/" gives None; a resolved path exists |
| SmartUrdf.ResolveSplits | backends/viser/viser_multi_urdf_with_frames.py:72-76 | the remainder splits at its first "/" into package and path |
| SmartUrdf.ResolveExact | backends/viser/viser_multi_urdf_with_frames.py:89-92 | a known package resolves through its own entry, and only if the path exists |
| SmartUrdf.ResolveFuzzy | backends/viser/viser_multi_urdf_with_frames.py:80-84 | an unknown package uses the first fuzzy-matching key |
| SmartUrdf.ResolveUnknown | backends/viser/viser_multi_urdf_with_frames.py:80-87 | with no matching key the result is None |
| SmartUrdf.IsMeaningfulJoint | backends/viser/viser_multi_urdf_with_frames.py:128-152 | continuous iff wrist/eoat/tool; fixed never; a range below 1e-6 never; an auxiliary keyword never; otherwise yes |
| SmartUrdf.MeaningfulIgnoresCase | backends/viser/viser_multi_urdf_with_frames.py:135-149 | the verdict does not depend on the name's case |
| SmartUrdf.FirstPrefix | backends/viser/viser_multi_urdf_with_frames.py:162-165 | the first listed prefix the name starts with, or none |
| SmartUrdf.StripFirstPrefix | backends/viser/viser_multi_urdf_with_frames.py:162-165 | at most one prefix is removed, the first that matches |
| SmartUrdf.ApplyKeepsAbsent | backends/viser/viser_multi_urdf_with_frames.py:179-180 | replacements whose texts lack a character do not introduce it |
| SmartUrdf.TitleKeepsAbsent | backends/viser/viser_multi_urdf_with_frames.py:168 | title-casing introduces no underscore |
| SmartUrdf.PreparedHasNoUnderscore | backends/viser/viser_multi_urdf_with_frames.py:162-168 | after replacing underscores and title-casing, no "_" remains |
| SmartUrdf.ShortName | backends/viser/viser_multi_urdf_with_frames.py:154-182 | holds no "_" and has no whitespace at either end |
| SmartUrdf.ShortJointName | backends/viser/viser_multi_urdf_with_frames.py:154-182 | the as-written short name; no "_", no surrounding whitespace |
| SmartUrdf.BaseToRuleNeverFires | backends/viser/viser_multi_urdf_with_frames.py:171-180 | as written, "To" is replaced first, so the "Base To" rule has nothing left to match |
| SmartUrdf.AsWrittenBaseTo | backends/viser/viser_multi_urdf_with_frames.py:154-182 | "base_to" becomes "Base →" |
| SmartUrdf.IntendedShortJointName | backends/viser/viser_multi_urdf_with_frames.py:171-180 | corrected rule order; no "_", no surrounding whitespace |
| SmartUrdf.IntendedRemovesBaseTo | backends/viser/viser_multi_urdf_with_frames.py:171-180 | with the corrected order a leading "Base To" is removed and no "To" remains |
| SmartUrdf.IntendedBaseTo | backends/viser/viser_multi_urdf_with_frames.py:154-182 | corrected, "base_to" becomes "" |
| SmartUrdf.JointTypes | backends/viser/viser_multi_urdf_with_frames.py:287-293 | every joint's name is a key, and each key's type is that of a joint with that name |
| SmartUrdf.MeaningfulSpec | backends/viser/viser_multi_urdf_with_frames.py:296-303 | an actuated joint is kept iff it is a known joint and meaningful |
| SmartUrdf.MeaningfulLength | backends/viser/viser_multi_urdf_with_frames.py:296-303 | filtering never adds joints |
| SmartUrdf.CollectJointTypes | backends/viser/viser_multi_urdf_with_frames.py:287-293 | the loop builds `JointTypes` |
| SmartUrdf.FilterMeaningful | backends/viser/viser_multi_urdf_with_frames.py:296-303 | the loop builds `Meaningful` |
| SmartUrdf.SmartUrdfManager.constructor | backends/viser/viser_multi_urdf_with_frames.py:101-107 | no URDFs, names or limits |
| SmartUrdf.SmartUrdfManager.AddUrdf | backends/viser/viser_multi_urdf_with_frames.py:238-334 | a failed load changes nothing; otherwise the config is appended and only its meaningful joints are registered |
| SmartUrdf.SmartUrdfManager.GetTotalMeaningfulDof | backends/viser/viser_multi_urdf_with_frames.py:336-338 | the dict size, at most the number of filtered names |
| SmartUrdf.SmartUrdfManager.UpdateAllConfigurations | backends/viser/viser_multi_urdf_with_frames.py:340-379 | the updates of `UpdateAll`, with midpoint defaults for unfiltered joints |
| SmartUrdf.SmartUrdfManager.GetInitialConfiguration | backends/viser/viser_multi_urdf_with_frames.py:381-398 | every filtered name has limits; one initial position each |
| UrdfDedup.TestingLoses | backends/viser/viser_multi_urdf_with_frames.py:433-439 | a path containing "testing" scores below any path that contains neither "testing" nor "dynamics_only" and is fewer than 500 characters longer |
| UrdfDedup.DateStampWins | backends/viser/viser_multi_urdf_with_frames.py:427-439 | a date-stamped path beats an otherwise equal undated path under 1000 characters longer |
| UrdfDedup.VersionsSpec | backends/viser/viser_multi_urdf_with_frames.py:404-408 | a component's group holds exactly its input pairs, and is non-empty iff the component occurs |
| UrdfDedup.BestIndexSpec | backends/viser/viser_multi_urdf_with_frames.py:443-446 | the chosen version has maximal score, and no earlier version ties it |
| UrdfDedup.ChooseAllSpec | backends/viser/viser_multi_urdf_with_frames.py:410-446 | one pick per component, each the best of its group |
| UrdfDedup.DeduplicatedSpec | backends/viser/viser_multi_urdf_with_frames.py:410-446 | one pair per component; a single version passes unchanged; every output pair is an input pair of maximal score in its group |
| UrdfDedup.DeduplicatedNames | backends/viser/viser_multi_urdf_with_frames.py:403-413 | output component names are the distinct input names in first-appearance order |
| UrdfDedup.PickBest | backends/viser/viser_multi_urdf_with_frames.py:421-446 | the scan returns `BestIndex` |
| UrdfDedup.GroupByComponent | backends/viser/viser_multi_urdf_with_frames.py:403-408 | keys in first-appearance order, each with its versions in input order |
| UrdfDedup.Deduplicate | backends/viser/viser_multi_urdf_with_frames.py:400-449 | the loops return `Deduplicated` |
| MultiUrdf.MultiUrdfManager.constructor | benchmarks/viser_multi_urdf_stress_test.py:42-47 | no URDFs, names or limits |
| MultiUrdf.MultiUrdfManager.AddUrdf | benchmarks/viser_multi_urdf_stress_test.py:49-99 | a failed load changes nothing; otherwise every actuated joint is appended as "name::joint" and keyed in the limits |
| MultiUrdf.MultiUrdfManager.GetTotalDof | benchmarks/viser_multi_urdf_stress_test.py:101-103 | at most the number of names, and equal when the names are distinct |
| MultiUrdf.MultiUrdfManager.UpdateAllConfigurations | benchmarks/viser_multi_urdf_stress_test.py:105-138 | the updates of `UpdateAll` with 0.0 defaults |
| MultiUrdf.MultiUrdfManager.GetInitialConfiguration | benchmarks/viser_multi_urdf_stress_test.py:140-157 | every name has limits; one initial position each |
| MultiUrdf.FilesInSpec | benchmarks/viser_multi_urdf_stress_test.py:333-339 | a directory contributes exactly its files whose lowercased name lacks "macro", "testing" and "dynamics_only" |
| MultiUrdf.DiscoverInSpec | benchmarks/viser_multi_urdf_stress_test.py:331-339 | the result is the directories' contributions |
| MultiUrdf.DiscoverSpec | benchmarks/viser_multi_urdf_stress_test.py:333-339 | a walked file is discovered iff it is not skipped |
| MultiUrdf.DiscoverSound | benchmarks/viser_multi_urdf_stress_test.py:331-339 | everything discovered is a walked file paired with its directory |
| MultiUrdf.DiscoverWorkcellUrdfs | benchmarks/viser_multi_urdf_stress_test.py:321-345 | the nested loops return `Discover`, with `[]` for a missing base directory |
| RobotReplay.Flatten | backends/viser/viser_with_robot_replay.py:84 | one value per filtered joint name |
| RobotReplay.PrefixSplits | backends/viser/viser_with_robot_replay.py:93-95 | for a colon-free URDF name, starting with "u::" is the same as splitting to u |
| RobotReplay.FlatValueIsPayloadValue | backends/viser/viser_with_robot_replay.py:84-99 | with distinct, colon-free URDF names the flattened value is `payload[u][j]` for "u::j", else 0.0 |
| RobotReplay.FlattenSpec | backends/viser/viser_with_robot_replay.py:84-99 | every entry of the vector is the intended value |
| RobotReplay.FlattenJoined | backends/viser/viser_with_robot_replay.py:91-99 | slider "u::j" shows joint j of URDF u, and 0.0 when the payload lacks it |
| RobotReplay.WriteSliders | backends/viser/viser_with_robot_replay.py:102-105 | slider count is unchanged |
| RobotData.Truncate | backends/viser/viser_with_robot_replay.py:240 | `int()` truncates toward zero |
| RobotReplay.DownsampleKeywordRejected | backends/viser/viser_with_robot_replay.py:65 | the call with `downsample_factor` does not bind to the controller's parameters; the call without it does |
| RobotReplay.ReplaySystem.constructor | backends/viser/viser_with_robot_replay.py:58-75 | corrected init: controller null iff the recording fails to load or parse, else fresh at index 0 with the callback set |
| RobotReplay.ReplaySystem.InitializeAsWritten | backends/viser/viser_with_robot_replay.py:58-75 | as written, the controller stays None |
| RobotReplay.ReplaySystem.SetSliderHandles | backends/viser/viser_with_robot_replay.py:52-56 | the handles are stored |
| RobotReplay.ReplaySystem.OnReplayUpdate | backends/viser/viser_with_robot_replay.py:77-110 | the sliders become the flattened vector where it has entries, and keep their values elsewhere |
| RobotReplay.ReplaySystem.ApplyEntry | backends/viser/viser_with_robot_replay.py:87-99 | one payload pair's pass writes exactly what `FlatValue` adds |
| RobotReplay.ReplaySystem.OnPlayButtonClick | backends/viser/viser_with_robot_replay.py:169-180 | no controller: no-op; playing: no-op; otherwise play with status "Playing..."; cursor, log, speed and callback untouched |
| RobotReplay.ReplaySystem.OnPauseButtonClick | backends/viser/viser_with_robot_replay.py:182-190 | pauses and sets "Paused" only while playing; cursor, log, speed and callback untouched |
| RobotReplay.ReplaySystem.OnResetButtonClick | backends/viser/viser_with_robot_replay.py:192-201 | always stops, at index 0 with one emission of entry 0 when a callback is set, status "Ready - Click Play to start replay"; speed and callback untouched |
| RobotReplay.ReplaySystem.OnTimelineChange | backends/viser/viser_with_robot_replay.py:226-250 | ignored while the slider is updated programmatically; otherwise paused, seek to `int(value)` when in range, status "Paused (scrubbing)" if it was playing, else "Paused"; speed and callback untouched |

## Left out

- The playback thread, `stop_event`, `join` and the fps and speed sleep arithmetic are left out. `Step` and `RunToEnd` run the loop's passes in sequence.
- Replay.ReplayController.RunToEnd: assumes no concurrent pause; an interleaved `pause()` is modelled only as a separate call between `Step`s.
- The controller's update callback is a log of emissions. Delivering them to `_on_replay_update` is a separate call of `RobotReplay.ReplaySystem.OnReplayUpdate`.
- Writing `slider.value` fires the slider's own update hook. That hook is GUI glue and is not modelled.
- Telemetry (WebSocket servers, msgpack, global counters), the stress-test threads and sine-wave generation are network I/O and timing.
- `duration_seconds`, progress percentages and the `float32` casts are floating point. Joint values and limits are `real`.
- π is the decimal constant 3.141592653589793.
- URDF loading, `ViserUrdf` and `update_cfg` are foreign libraries. Loading is an `Option` parameter, and `update_cfg` calls are a returned list.
- `_compute_joint_poses` is forward kinematics in a foreign library.
- `_patch_urdf_mesh_paths` rewrites text with a regex engine. Its resolution step is `SmartUrdf.ResolvePackageUri`.
- File-system access (`json.load`, temp files, `Path.exists`, `iterdir`, `glob`, `is_dir`) is replaced by parameters. The listing holds only sub-directories, so `is_dir` is already applied.
- SmartUrdf.JoinPath: `Path` division is modelled as `dir + "/" + rel` (or `rel` alone when it is absolute), without pathlib's normalisation of `.`, `..` and repeated separators.
- `lower`, `title` and the regex `\d` cover ASCII only.
- RobotData.IntOf: `int()` on a string is modelled for an optional sign and ASCII digits inside white space. Underscores between digits, non-ASCII digits and Python's limit on the number of digits are not modelled. NaN and infinite floats, which `json.load` also accepts, raise in Python and are not JSON values here.
- Replay.ReplayController.GetTimelineInfo: on a parsed but empty timeline Python's `min([])` raises ValueError out of `get_timeline_info`. Here that exception is the value `EmptyTimeline` carried in the returned summary.
- UrdfDedup.BestIndex: the stable descending sort followed by `[0]` is modelled as the first maximal score. Scores are scaled by 10 to integers. This is exact up to float rounding: Python's float scores can round two different scores to a tie that the integers do not have.
- A URDF name registered twice by the managers is kept as two configs, as in the code. The limits dict then holds the later entry.
- `_on_sequence_change`, `add_replay_controls`, `_monitor_playback_status` and `_start_enhanced_monitoring` are GUI wiring and monitor threads. So nothing in the model sets `updating_timeline_slider`; the guard on it is modelled.
- RobotReplay.ReplaySystem.constructor: the initial status is the one `add_replay_controls` gives the status text.
- `viser_multi_urdf`, the module the replay script imports with `*`, is not part of this model. Its `SmartUrdfManager` is taken to be the one in `backends/viser/viser_multi_urdf_with_frames.py`.
- RobotReplay.FlattenSpec: states the intended reading only for payloads whose URDF names are distinct and colon-free. In general `FlatValue` describes the result, where the last matching pair wins.
- The meshcat, vuer and frontend scripts, the single-URDF bench scripts and the stress driver wire libraries together or send network traffic.

## Findings

| source | as written | input that shows it | evidently intended | confidence | as-written member | corrected member |
|---|---|---|---|---|---|---|
| backends/viser/viser_multi_urdf_with_frames.py:171-180 | the replacements run in dict order, so "To" → "→" runs before "Base To" → "" and the second rule can never match | joint "base_to" is shown as "Base →" | "Base To" is removed first, giving "" | medium, not executed | SmartUrdf.ShortJointName, SmartUrdf.BaseToRuleNeverFires, SmartUrdf.AsWrittenBaseTo | SmartUrdf.IntendedShortJointName, SmartUrdf.IntendedRemovesBaseTo, SmartUrdf.IntendedBaseTo |
| backends/viser/viser_with_robot_replay.py:65 | `SimpleReplayController(data_file, downsample_factor=...)`, but the constructor at data/replay_controller.py:15 takes only `json_file`; the TypeError is caught at lines 73-75 and the controller stays None, so every handler returns at once | any start of the replay system | the controller is built (the keyword dropped or accepted) and the update callback is set | high, not executed | RobotReplay.ReplaySystem.InitializeAsWritten, RobotReplay.DownsampleKeywordRejected | RobotReplay.ReplaySystem.constructor |
