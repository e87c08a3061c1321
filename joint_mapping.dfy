/** The fixed table from robot-data parts to URDF models and joint names,
    and the per-URDF joint configurations built from one timeline entry. */
module JointMapping {
  import opened Wrappers
  import opened Dicts

  /** What one part maps to: the URDF that animates it and the URDF joints
      its position vector drives, in vector order. */
  datatype PartMapping = PartMapping(urdfName: string, jointNames: seq<string>)

  /** `part_to_urdf_mapping`, in insertion order; as a Python dict its part
      names are distinct. */
  type Table = Dict<string, PartMapping>

  /** The table `JointMapper.__init__` builds. */
  const DefaultTable: Table := [
    ("ARM", PartMapping("infeed_and_squash_turner", [
      "scara_arm_1_joint",
      "scara_arm_2_joint",
      "scara_eoat_joint",
      "scara_arm_1_to_scara_arm_2_joint",
      "scara_arm_2_to_scara_eoat_joint",
      "scara_eoat_to_scara_tool_joint"])),
    ("PEDESTAL", PartMapping("robot_gantry", [
      "robot_gantry_xstage_joint",
      "robot_gantry_ystage_joint"])),
    ("BAND_SEPARATOR", PartMapping("band_separator", [
      "band_separator_base_to_ystage",
      "band_separator_ystage_to_zstage",
      "band_separator_zstage_to_xstage",
      "band_separator_extra_joint"])),
    ("EOAT_BLADE", PartMapping("eoat_blade", ["blade_actuator_joint"])),
    ("EOAT_GRIPPER", PartMapping("eoat_gripper", ["gripper_joint"])),
    ("EOAT_EJECTOR", PartMapping("eoat_ejector", ["ejector_joint_1", "ejector_joint_2"]))
  ]

  // ---------------------------------------------------------------------
  // get_mapped_joints

  /** `get_mapped_joints`: the row of a known part, `None` for any other. */
  function MappedJoints(t: Table, part: string): (r: Option<PartMapping>)
    ensures r.Some? <==> part in Keys(t)
    ensures DistinctKeys(t) ==> forall i :: 0 <= i < |t| && t[i].0 == part ==> r == Some(t[i].1)
  {
    GetAtAll(t);
    Get(t, part)
  }

  // ---------------------------------------------------------------------
  // get_all_urdf_names

  /** The `urdf_name` of every row, row by row. */
  function UrdfColumn(t: Table): (us: seq<string>)
    ensures |us| == |t| && forall i :: 0 <= i < |t| ==> us[i] == t[i].1.urdfName
  {
    seq(|t|, i requires 0 <= i < |t| => t[i].1.urdfName)
  }

  /** `get_all_urdf_names` as a function of the table. */
  function UrdfNames(t: Table): seq<string> {
    Dedup(UrdfColumn(t))
  }

  /** The URDF names are pairwise distinct, and they are exactly the names
      some row uses. */
  lemma UrdfNamesSpec(t: Table)
    ensures forall a, b :: 0 <= a < b < |UrdfNames(t)| ==> UrdfNames(t)[a] != UrdfNames(t)[b]
    ensures forall i :: 0 <= i < |t| ==> t[i].1.urdfName in UrdfNames(t)
    ensures forall u :: u in UrdfNames(t) ==> exists i :: 0 <= i < |t| && t[i].1.urdfName == u
  {
    var col := UrdfColumn(t);
    DedupDistinct(col);
    DedupElements(col);
    forall i | 0 <= i < |t| ensures t[i].1.urdfName in UrdfNames(t) {
      assert col[i] in col;
    }
    forall u | u in UrdfNames(t) ensures exists i :: 0 <= i < |t| && t[i].1.urdfName == u {
      var i := IndexOf(col, u);
      assert t[i].1.urdfName == u;
    }
  }

  /** The URDF names come in order of their first use in the table. */
  lemma UrdfNamesOrder(t: Table, a: nat, b: nat)
    requires a < b < |UrdfNames(t)|
    ensures UrdfNames(t)[a] in UrdfColumn(t) && UrdfNames(t)[b] in UrdfColumn(t)
    ensures IndexOf(UrdfColumn(t), UrdfNames(t)[a]) < IndexOf(UrdfColumn(t), UrdfNames(t)[b])
  {
    DedupOrder(UrdfColumn(t), a, b);
  }

  /** `get_all_urdf_names`: a scan that appends each name not seen yet. */
  method GetAllUrdfNames(t: Table) returns (names: seq<string>)
    ensures names == UrdfNames(t)
  {
    names := [];
    var col := UrdfColumn(t);
    var i := 0;
    while i < |t|
      invariant 0 <= i <= |t|
      invariant names == Dedup(col[..i])
    {
      assert col[..i + 1][..i] == col[..i];
      var u := t[i].1.urdfName;
      if u !in names {
        names := names + [u];
      }
      i := i + 1;
    }
    assert col[..i] == col;
  }

  // ---------------------------------------------------------------------
  // get_joint_mapping_for_urdf

  /** `get_joint_mapping_for_urdf(u)` as a function of the table: part name
      and joint list of every row that maps to u, in table order. */
  function JointMappingFor(t: Table, u: string): Dict<string, seq<string>>
    decreases |t|
  {
    if t == [] then []
    else
      var row := t[|t| - 1];
      JointMappingFor(t[..|t| - 1], u) + (if row.1.urdfName == u then [(row.0, row.1.jointNames)] else [])
  }

  /** Pair p is the part name and joint list of some row mapping to u. */
  predicate FromRow(t: Table, u: string, p: (string, seq<string>)) {
    exists i :: 0 <= i < |t| && t[i] == (p.0, PartMapping(u, p.1))
  }

  /** Exactly the rows mapping to u appear, each with its configured joint
      list. */
  lemma {:induction false} JointMappingForSpec(t: Table, u: string)
    ensures forall k :: 0 <= k < |JointMappingFor(t, u)| ==> FromRow(t, u, JointMappingFor(t, u)[k])
    ensures forall i :: 0 <= i < |t| && t[i].1.urdfName == u ==> (t[i].0, t[i].1.jointNames) in JointMappingFor(t, u)
    decreases |t|
  {
    if t != [] {
      var init := t[..|t| - 1];
      JointMappingForSpec(init, u);
      var jm := JointMappingFor(t, u);
      var jm0 := JointMappingFor(init, u);
      var row := t[|t| - 1];
      assert jm == jm0 + (if row.1.urdfName == u then [(row.0, row.1.jointNames)] else []);
      forall k | 0 <= k < |jm| ensures FromRow(t, u, jm[k]) {
        if k < |jm0| {
          assert jm[k] == jm0[k];
          assert FromRow(init, u, jm0[k]);
          var i :| 0 <= i < |init| && init[i] == (jm0[k].0, PartMapping(u, jm0[k].1));
          assert t[i] == init[i];
        } else {
          assert t[|t| - 1] == (jm[k].0, PartMapping(u, jm[k].1));
        }
      }
      forall i | 0 <= i < |t| && t[i].1.urdfName == u
        ensures (t[i].0, t[i].1.jointNames) in jm
      {
        if i < |init| {
          assert init[i] == t[i];
          assert (t[i].0, t[i].1.jointNames) in jm0;
        } else {
          assert jm[|jm| - 1] == (t[i].0, t[i].1.jointNames);
        }
      }
    }
  }

  /** With distinct part names in the table, the mapping has distinct part
      names too, so every row mapping to u is found under its name. */
  lemma {:induction false} JointMappingForDistinct(t: Table, u: string)
    requires DistinctKeys(t)
    ensures DistinctKeys(JointMappingFor(t, u))
    decreases |t|
  {
    if t != [] {
      var init := t[..|t| - 1];
      JointMappingForDistinct(init, u);
      JointMappingForSpec(init, u);
      var jm0 := JointMappingFor(init, u);
      var row := t[|t| - 1];
      if row.1.urdfName == u {
        forall k | 0 <= k < |jm0| ensures jm0[k].0 != row.0 {
          assert FromRow(init, u, jm0[k]);
          var i :| 0 <= i < |init| && init[i] == (jm0[k].0, PartMapping(u, jm0[k].1));
          assert t[i] == init[i];
        }
      }
    }
  }

  /** The mapping is empty exactly when no row maps to u. */
  lemma {:induction false} JointMappingForEmpty(t: Table, u: string)
    ensures JointMappingFor(t, u) == [] <==> forall i :: 0 <= i < |t| ==> t[i].1.urdfName != u
    decreases |t|
  {
    if t != [] {
      var init := t[..|t| - 1];
      JointMappingForEmpty(init, u);
      assert forall i :: 0 <= i < |init| ==> init[i] == t[i];
    }
  }

  /** The mapping is empty exactly for a URDF name that is not among
      `get_all_urdf_names`. */
  lemma UnknownUrdfHasNoMapping(t: Table, u: string)
    ensures JointMappingFor(t, u) == [] <==> u !in UrdfNames(t)
  {
    JointMappingForEmpty(t, u);
    UrdfNamesSpec(t);
  }

  /** `get_joint_mapping_for_urdf`: one pass over the table. */
  method GetJointMappingForUrdf(t: Table, u: string) returns (jm: Dict<string, seq<string>>)
    ensures jm == JointMappingFor(t, u)
  {
    jm := [];
    var i := 0;
    while i < |t|
      invariant 0 <= i <= |t|
      invariant jm == JointMappingFor(t[..i], u)
    {
      assert t[..i + 1][..i] == t[..i];
      if t[i].1.urdfName == u {
        jm := jm + [(t[i].0, t[i].1.jointNames)];
      }
      i := i + 1;
    }
    assert t[..i] == t;
  }

  // ---------------------------------------------------------------------
  // create_joint_config_for_urdf

  /** The entries one present part contributes: joint i takes positions[i],
      or 0.0 when the vector is too short; a repeated joint name keeps the
      value of its last position. */
  function PartConfig(joints: seq<string>, positions: seq<real>): map<string, real>
    decreases |joints|
  {
    if joints == [] then map[]
    else
      var i := |joints| - 1;
      PartConfig(joints[..i], positions)[joints[i] := if i < |positions| then positions[i] else 0.0]
  }

  /** The keys are the joint names. */
  lemma {:induction false} PartConfigKeys(joints: seq<string>, positions: seq<real>)
    ensures forall j :: j in PartConfig(joints, positions) ==> j in joints
    ensures forall j :: j in joints ==> j in PartConfig(joints, positions)
    decreases |joints|
  {
    if joints != [] {
      var init := joints[..|joints| - 1];
      PartConfigKeys(init, positions);
      assert joints == init + [joints[|joints| - 1]];
    }
  }

  /** A name's value comes from the last position carrying it. */
  lemma {:induction false} PartConfigValue(joints: seq<string>, positions: seq<real>, i: nat)
    requires i < |joints|
    requires forall i' :: i < i' < |joints| ==> joints[i'] != joints[i]
    ensures joints[i] in PartConfig(joints, positions)
    ensures PartConfig(joints, positions)[joints[i]] == if i < |positions| then positions[i] else 0.0
    decreases |joints|
  {
    var last := |joints| - 1;
    if i < last {
      var init := joints[..last];
      assert init[i] == joints[i];
      forall i' | i < i' < |init| ensures init[i'] != init[i] {
        assert init[i'] == joints[i'];
      }
      PartConfigValue(init, positions, i);
    }
  }

  /** The configuration built from a part-to-joints mapping and a snapshot's
      parts, part after part; a later part overwrites a shared joint. */
  function ConfigFrom(jm: Dict<string, seq<string>>, parts: map<string, seq<real>>): map<string, real>
    decreases |jm|
  {
    if jm == [] then map[]
    else
      var p := jm[|jm| - 1];
      ConfigFrom(jm[..|jm| - 1], parts) + (if p.0 in parts then PartConfig(p.1, parts[p.0]) else map[])
  }

  /** `create_joint_config_for_urdf(u, robot_data)` as a function. */
  function CreateJointConfig(t: Table, u: string, parts: map<string, seq<real>>): map<string, real> {
    ConfigFrom(JointMappingFor(t, u), parts)
  }

  /** A joint is a key exactly when it belongs to some mapped part present
      in the snapshot: absent parts contribute nothing. */
  lemma {:induction false} ConfigFromKeys(jm: Dict<string, seq<string>>, parts: map<string, seq<real>>)
    ensures forall j :: j in ConfigFrom(jm, parts) ==>
      exists k :: 0 <= k < |jm| && jm[k].0 in parts && j in jm[k].1
    ensures forall k, j :: 0 <= k < |jm| && jm[k].0 in parts && j in jm[k].1 ==> j in ConfigFrom(jm, parts)
    decreases |jm|
  {
    if jm != [] {
      var init := jm[..|jm| - 1];
      var p := jm[|jm| - 1];
      ConfigFromKeys(init, parts);
      if p.0 in parts {
        PartConfigKeys(p.1, parts[p.0]);
      }
      forall j | j in ConfigFrom(jm, parts)
        ensures exists k :: 0 <= k < |jm| && jm[k].0 in parts && j in jm[k].1
      {
        if j in ConfigFrom(init, parts) {
          var k :| 0 <= k < |init| && init[k].0 in parts && j in init[k].1;
          assert jm[k] == init[k];
        } else {
          assert jm[|jm| - 1] == p;
        }
      }
      forall k, j | 0 <= k < |jm| && jm[k].0 in parts && j in jm[k].1
        ensures j in ConfigFrom(jm, parts)
      {
        if k < |init| {
          assert init[k] == jm[k];
        }
      }
    }
  }

  /** Joint i of present part k gets positions[i], or 0.0 past the end of
      the vector, unless a later position or a later present part writes
      the same joint name. */
  lemma {:induction false} ConfigFromValue(jm: Dict<string, seq<string>>, parts: map<string, seq<real>>, k: nat, i: nat)
    requires k < |jm| && jm[k].0 in parts && i < |jm[k].1|
    requires forall i' :: i < i' < |jm[k].1| ==> jm[k].1[i'] != jm[k].1[i]
    requires forall k' :: k < k' < |jm| && jm[k'].0 in parts ==> jm[k].1[i] !in jm[k'].1
    ensures jm[k].1[i] in ConfigFrom(jm, parts)
    ensures ConfigFrom(jm, parts)[jm[k].1[i]] ==
      var positions := parts[jm[k].0]; if i < |positions| then positions[i] else 0.0
    decreases |jm|
  {
    var init := jm[..|jm| - 1];
    var p := jm[|jm| - 1];
    var j := jm[k].1[i];
    if k < |init| {
      assert init[k] == jm[k];
      forall k' | k < k' < |init| && init[k'].0 in parts ensures j !in init[k'].1 {
        assert init[k'] == jm[k'];
      }
      ConfigFromValue(init, parts, k, i);
      if p.0 in parts {
        PartConfigKeys(p.1, parts[p.0]);
        assert j !in p.1;
      }
    } else {
      PartConfigValue(p.1, parts[p.0], i);
    }
  }

  /** The inner loop of `create_joint_config_for_urdf`: writes one present
      part's joints, padding with 0.0 past the end of its vector. */
  method WritePart(config0: map<string, real>, jointNames: seq<string>, positions: seq<real>)
    returns (config: map<string, real>)
    ensures config == config0 + PartConfig(jointNames, positions)
  {
    config := config0;
    var i := 0;
    while i < |jointNames|
      invariant 0 <= i <= |jointNames|
      invariant config == config0 + PartConfig(jointNames[..i], positions)
    {
      assert jointNames[..i + 1][..i] == jointNames[..i];
      if i < |positions| {
        config := config[jointNames[i] := positions[i]];
      } else {
        config := config[jointNames[i] := 0.0];
      }
      i := i + 1;
    }
    assert jointNames[..i] == jointNames;
  }

  /** `create_joint_config_for_urdf`: fetch the mapping, then write every
      present part's joints. */
  method CreateJointConfigForUrdf(t: Table, u: string, parts: map<string, seq<real>>) returns (config: map<string, real>)
    ensures config == CreateJointConfig(t, u, parts)
  {
    var jm := GetJointMappingForUrdf(t, u);
    config := map[];
    var k := 0;
    while k < |jm|
      invariant 0 <= k <= |jm|
      invariant config == ConfigFrom(jm[..k], parts)
    {
      assert jm[..k + 1][..k] == jm[..k];
      var partName, jointNames := jm[k].0, jm[k].1;
      if partName in parts {
        config := WritePart(config, jointNames, parts[partName]);
      }
      k := k + 1;
    }
    assert jm[..k] == jm;
  }

  // ---------------------------------------------------------------------
  // validate_mapping

  /** Every given part is in the table with the given number of joints. */
  predicate MappingValid(t: Table, given: Dict<string, int>) {
    forall i :: 0 <= i < |given| ==>
      MappedJoints(t, given[i].0).Some? && |MappedJoints(t, given[i].0).value.jointNames| == given[i].1
  }

  /** `validate_mapping`: checks every given part, never stopping early, and
      reports whether all of them matched. */
  method ValidateMapping(t: Table, given: Dict<string, int>) returns (allValid: bool)
    ensures allValid <==> MappingValid(t, given)
    ensures given == [] ==> allValid
  {
    allValid := true;
    var i := 0;
    while i < |given|
      invariant 0 <= i <= |given|
      invariant allValid <==> forall j :: 0 <= j < i ==>
        MappedJoints(t, given[j].0).Some? && |MappedJoints(t, given[j].0).value.jointNames| == given[j].1
    {
      var name, expected := given[i].0, given[i].1;
      var row := Get(t, name);
      if row.Some? {
        if |row.value.jointNames| != expected {
          allValid := false;
        }
      } else {
        allValid := false;
      }
      i := i + 1;
    }
  }

  // ---------------------------------------------------------------------
  // The worked examples at the bottom of the mapper's module

  /** The joint counts `test_joint_mapper` validates against. */
  const SampleCounts: Dict<string, int> := [
    ("ARM", 6), ("PEDESTAL", 2), ("EOAT_BLADE", 1),
    ("EOAT_GRIPPER", 1), ("EOAT_EJECTOR", 2), ("BAND_SEPARATOR", 4)
  ]

  /** The snapshot `test_joint_mapper` builds a config from. */
  const SampleParts: map<string, seq<real>> := map[
    "ARM" := [1.054, -2.113, 1.150, -2.179, -1.048, 1.571],
    "PEDESTAL" := [0.589, 2.026],
    "BAND_SEPARATOR" := [-0.536, 1.914, -1.117, 0.000]
  ]

  /** The default table has distinct part names. */
  lemma DefaultTableDistinct()
    ensures DistinctKeys(DefaultTable)
  {
    var ks := Keys(DefaultTable);
    assert ks == ["ARM", "PEDESTAL", "BAND_SEPARATOR", "EOAT_BLADE", "EOAT_GRIPPER", "EOAT_EJECTOR"];
    assert forall i, j :: 0 <= i < j < 6 ==> |ks[i]| != |ks[j]| || ks[i][5] != ks[j][5];
  }

  /** The default table passes the sample validation. */
  lemma SampleCountsValid()
    ensures MappingValid(DefaultTable, SampleCounts)
  {
    DefaultTableDistinct();
    var t, c := DefaultTable, SampleCounts;
    forall i | 0 <= i < |c|
      ensures MappedJoints(t, c[i].0).Some?
      ensures |MappedJoints(t, c[i].0).value.jointNames| == c[i].1
    {
      var row := if i < 2 then i else if i == 5 then 2 else i + 1;
      assert c[i].0 == t[row].0 && c[i].1 == |t[row].1.jointNames|;
      GetAt(t, row);
    }
  }

  /** A count that differs from the table, or a part the table lacks, fails
      the validation. */
  lemma MismatchesRejected()
    ensures !MappingValid(DefaultTable, [("ARM", 5)])
    ensures !MappingValid(DefaultTable, [("WRIST", 1)])
  {
    DefaultTableDistinct();
    assert [("ARM", 5)][0].0 == "ARM";
    assert MappedJoints(DefaultTable, "ARM") == Some(DefaultTable[0].1);
    assert [("WRIST", 1)][0].0 == "WRIST";
    var ks := Keys(DefaultTable);
    assert ks == ["ARM", "PEDESTAL", "BAND_SEPARATOR", "EOAT_BLADE", "EOAT_GRIPPER", "EOAT_EJECTOR"];
    assert forall i :: 0 <= i < 6 ==> |ks[i]| != 5;
    assert "WRIST" !in ks;
  }

  /** The band_separator config of the sample snapshot maps its four joints,
      in order, to the four BAND_SEPARATOR values. */
  lemma BandSeparatorExample()
    ensures CreateJointConfig(DefaultTable, "band_separator", SampleParts) == map[
      "band_separator_base_to_ystage" := -0.536,
      "band_separator_ystage_to_zstage" := 1.914,
      "band_separator_zstage_to_xstage" := -1.117,
      "band_separator_extra_joint" := 0.000]
  {
    var js := DefaultTable[2].1.jointNames;
    var pos := SampleParts["BAND_SEPARATOR"];
    BandSeparatorRows();
    BandSeparatorValues();
    var single: Dict<string, seq<string>> := [("BAND_SEPARATOR", js)];
    assert single[..0] == [];
    assert ConfigFrom(single, SampleParts) == map[] + PartConfig(js, pos);
  }

  /** Only the BAND_SEPARATOR row maps to the band separator URDF. */
  lemma BandSeparatorRows()
    ensures JointMappingFor(DefaultTable, "band_separator") == [("BAND_SEPARATOR", DefaultTable[2].1.jointNames)]
  {
    var js := DefaultTable[2].1.jointNames;
    var t := DefaultTable;
    assert JointMappingFor(t[..1], "band_separator") == [] by {
      assert t[..1][..0] == [];
    }
    assert JointMappingFor(t[..2], "band_separator") == [] by {
      assert t[..2][..1] == t[..1];
    }
    assert JointMappingFor(t[..3], "band_separator") == [("BAND_SEPARATOR", js)] by {
      assert t[..3][..2] == t[..2];
    }
    assert JointMappingFor(t[..4], "band_separator") == [("BAND_SEPARATOR", js)] by {
      assert t[..4][..3] == t[..3];
    }
    assert JointMappingFor(t[..5], "band_separator") == [("BAND_SEPARATOR", js)] by {
      assert t[..5][..4] == t[..4];
    }
    assert t[..5] == t[..|t| - 1];
  }

  /** The four band-separator joints take the sample's four values. */
  lemma BandSeparatorValues()
    ensures var js, pos := DefaultTable[2].1.jointNames, SampleParts["BAND_SEPARATOR"];
      PartConfig(js, pos) == map[js[0] := pos[0], js[1] := pos[1], js[2] := pos[2], js[3] := pos[3]]
  {
    var js := DefaultTable[2].1.jointNames;
    var pos := SampleParts["BAND_SEPARATOR"];
    assert PartConfig(js[..1], pos) == map[js[0] := pos[0]] by {
      assert js[..1][..0] == [];
    }
    assert PartConfig(js[..2], pos) == map[js[0] := pos[0], js[1] := pos[1]] by {
      assert js[..2][..1] == js[..1];
    }
    assert PartConfig(js[..3], pos) == map[js[0] := pos[0], js[1] := pos[1], js[2] := pos[2]] by {
      assert js[..3][..2] == js[..2];
    }
    assert js[..3] == js[..|js| - 1];
  }
}
