/** The string and list helpers of the smart multi-URDF viewer: resolving
    `package://` mesh URIs, deciding which joints get a slider, shortening
    joint names for display, the manager's joint bookkeeping, and picking
    one URDF per component when several versions were discovered. */
module SmartUrdf {
  import opened Wrappers
  import opened Dicts
  import opened PyStrings
  import opened UrdfJoints

  // ---------------------------------------------------------------------
  // `PackagePathResolver.resolve_package_uri`

  const PackagePrefix: string := "package://"

  /** `name in key or key in name` */
  predicate FuzzyMatches(key: string, name: string) {
    Contains(key, name) || Contains(name, key)
  }

  /** The position of the first key that fuzzily matches the name. */
  function FuzzyMatch(keys: seq<string>, name: string): (r: Option<nat>)
    ensures r.Some? ==> r.value < |keys| && FuzzyMatches(keys[r.value], name)
    ensures r.Some? ==> forall i :: 0 <= i < r.value ==> !FuzzyMatches(keys[i], name)
    ensures r.None? ==> forall i :: 0 <= i < |keys| ==> !FuzzyMatches(keys[i], name)
    decreases |keys|
  {
    if keys == [] then None
    else if FuzzyMatches(keys[0], name) then Some(0)
    else match FuzzyMatch(keys[1..], name)
      case None => None
      case Some(i) => Some(i + 1)
  }

  /** The package a name refers to: itself when it is a key of the map, else
      the first key that fuzzily matches it. */
  function PackageKey(packages: Dict<string, string>, name: string): (r: Option<string>)
    ensures r.Some? ==> r.value in Keys(packages)
  {
    if name in Keys(packages) then Some(name)
    else match FuzzyMatch(Keys(packages), name)
      case None => None
      case Some(i) => Some(Keys(packages)[i])
  }

  /** `package_dir / relative_path`, without pathlib's normalisation: an
      absolute right operand replaces the left one. */
  function JoinPath(dir: string, rel: string): string {
    if StartsWith(rel, "/") then rel else dir + "/" + rel
  }

  /** The file a mesh URI stands for. `packages` is the package map the
      resolver built (in its iteration order) and `existing` the paths for
      which `Path.exists()` holds. */
  function ResolvePackageUri(packages: Dict<string, string>, existing: set<string>, uri: string): (r: Option<string>)
    ensures !StartsWith(uri, PackagePrefix) ==> r == Some(uri)
    ensures StartsWith(uri, PackagePrefix) && !Contains(uri[|PackagePrefix|..], "/") ==> r.None?
    ensures StartsWith(uri, PackagePrefix) && r.Some? ==> r.value in existing
  {
    if !StartsWith(uri, PackagePrefix) then Some(uri)
    else
      var rest := uri[|PackagePrefix|..];
      FindIffContains(rest, "/");
      match SplitFirst(rest, "/")
      case None => None
      case Some((name, rel)) =>
        match PackageKey(packages, name)
        case None => None
        case Some(key) =>
          var path := JoinPath(Get(packages, key).value, rel);
          if path in existing then Some(path) else None
  }

  /** The remainder after the prefix is split at its first '/'. */
  lemma ResolveSplits(packages: Dict<string, string>, existing: set<string>, name: string, rel: string)
    requires '/' !in name
    ensures var uri := PackagePrefix + name + "/" + rel;
      StartsWith(uri, PackagePrefix) && SplitFirst(uri[|PackagePrefix|..], "/") == Some((name, rel))
  {
    var uri := PackagePrefix + name + "/" + rel;
    assert uri[..|PackagePrefix|] == PackagePrefix;
    assert uri[|PackagePrefix|..] == name + ['/'] + rel;
    SplitOnChar(name, '/', rel);
  }

  /** A package named exactly uses its own directory. */
  lemma ResolveExact(packages: Dict<string, string>, existing: set<string>, name: string, rel: string)
    requires '/' !in name && name in Keys(packages)
    ensures Get(packages, name).Some?
    ensures var path := JoinPath(Get(packages, name).value, rel);
      ResolvePackageUri(packages, existing, PackagePrefix + name + "/" + rel) ==
        if path in existing then Some(path) else None
  {
    ResolveSplits(packages, existing, name, rel);
  }

  /** An unknown package name falls back to the first key, in map order,
      that fuzzily matches it. */
  lemma ResolveFuzzy(packages: Dict<string, string>, existing: set<string>, name: string, rel: string, i: nat)
    requires DistinctKeys(packages)
    requires '/' !in name && name !in Keys(packages)
    requires i < |packages| && FuzzyMatches(packages[i].0, name)
    requires forall k :: 0 <= k < i ==> !FuzzyMatches(packages[k].0, name)
    ensures var path := JoinPath(packages[i].1, rel);
      ResolvePackageUri(packages, existing, PackagePrefix + name + "/" + rel) ==
        if path in existing then Some(path) else None
  {
    ResolveSplits(packages, existing, name, rel);
    var keys := Keys(packages);
    var m := FuzzyMatch(keys, name);
    assert keys[i] == packages[i].0;
    assert m == Some(i) by {
      assert m.Some?;
      assert keys[m.value] == packages[m.value].0;
    }
    GetAt(packages, i);
  }

  /** No exact or fuzzy package: nothing is resolved. */
  lemma ResolveUnknown(packages: Dict<string, string>, existing: set<string>, name: string, rel: string)
    requires '/' !in name && name !in Keys(packages)
    requires forall k :: 0 <= k < |packages| ==> !FuzzyMatches(packages[k].0, name)
    ensures ResolvePackageUri(packages, existing, PackagePrefix + name + "/" + rel) == None
  {
    ResolveSplits(packages, existing, name, rel);
    var keys := Keys(packages);
    assert forall k :: 0 <= k < |keys| ==> keys[k] == packages[k].0;
  }

  // ---------------------------------------------------------------------
  // `SmartUrdfManager._is_meaningful_joint`

  const WristKeywords: seq<string> := ["wrist", "eoat", "tool"]
  const AuxiliaryKeywords: seq<string> := ["roller", "belt", "conveyor", "hardstop"]
  const RangeEpsilon: real := 0.000001

  function Abs(x: real): real {
    if x < 0.0 then -x else x
  }

  /** Whether a joint gets a slider. A continuous joint does exactly when its
      name mentions a wrist, an end-of-arm tool or a tool; a fixed joint
      never; any other joint unless its range is empty or its name marks it
      as auxiliary (rollers, belts, conveyors, hard stops). */
  function IsMeaningfulJoint(name: string, jointType: string, lim: Limits): (r: bool)
    ensures jointType == "continuous" ==> (r <==> ContainsAny(Lower(name), WristKeywords))
    ensures jointType == "fixed" ==> !r
    ensures r && jointType != "continuous" ==> !ContainsAny(Lower(name), AuxiliaryKeywords)
    ensures r && jointType != "continuous" && lim.lower.Some? && lim.upper.Some? ==>
      Abs(lim.upper.value - lim.lower.value) >= RangeEpsilon
    ensures (jointType != "continuous" && jointType != "fixed" && !ContainsAny(Lower(name), AuxiliaryKeywords) &&
             (lim.lower.Some? && lim.upper.Some? ==> Abs(lim.upper.value - lim.lower.value) >= RangeEpsilon)) ==> r
  {
    if jointType == "continuous" then ContainsAny(Lower(name), WristKeywords)
    else if jointType == "fixed" then false
    else if lim.lower.Some? && lim.upper.Some? && Abs(lim.upper.value - lim.lower.value) < RangeEpsilon then false
    else !ContainsAny(Lower(name), AuxiliaryKeywords)
  }

  /** Lower-casing twice is lower-casing once. */
  lemma LowerIdempotent(s: string)
    ensures Lower(Lower(s)) == Lower(s)
  {
  }

  /** The keyword tests ignore case: a name and its lower-cased form are
      judged alike. */
  lemma MeaningfulIgnoresCase(name: string, jointType: string, lim: Limits)
    ensures IsMeaningfulJoint(Lower(name), jointType, lim) == IsMeaningfulJoint(name, jointType, lim)
  {
    LowerIdempotent(name);
  }

  // ---------------------------------------------------------------------
  // `SmartUrdfManager._get_short_joint_name`

  const ShortPrefixes: seq<string> := ["band_separator_", "robot_gantry_", "scara_", "infeed_", "gantry_"]

  /** The replacements in the order the source's dict lists them. */
  const Replacements: seq<(string, string)> :=
    [("To", "\U{2192}"), ("Base To", ""), ("Stage", "Stage"), ("Arm 1", "Arm1"), ("Arm 2", "Arm2")]

  /** The position of the first listed prefix the name starts with. */
  function FirstPrefix(name: string, prefixes: seq<string>): (r: Option<nat>)
    ensures r.Some? ==> r.value < |prefixes| && StartsWith(name, prefixes[r.value])
    ensures r.Some? ==> forall i :: 0 <= i < r.value ==> !StartsWith(name, prefixes[i])
    ensures r.None? ==> forall i :: 0 <= i < |prefixes| ==> !StartsWith(name, prefixes[i])
    decreases |prefixes|
  {
    if prefixes == [] then None
    else if StartsWith(name, prefixes[0]) then Some(0)
    else match FirstPrefix(name, prefixes[1..])
      case None => None
      case Some(i) => Some(i + 1)
  }

  /** The loop with `break`: only the first matching prefix is removed. */
  function StripFirstPrefix(name: string, prefixes: seq<string>): (r: string)
    ensures FirstPrefix(name, prefixes).None? ==> r == name
    ensures FirstPrefix(name, prefixes).Some? ==>
      name == prefixes[FirstPrefix(name, prefixes).value] + r
  {
    match FirstPrefix(name, prefixes)
    case None => name
    case Some(i) =>
      assert name == name[..|prefixes[i]|] + name[|prefixes[i]|..];
      name[|prefixes[i]|..]
  }

  /** Applies each (old, new) pair in turn. */
  function ApplyReplacements(s: string, rs: seq<(string, string)>): string
    decreases |rs|
  {
    if rs == [] then s else ApplyReplacements(Replace(s, rs[0].0, rs[0].1), rs[1..])
  }

  lemma {:induction false} ApplyKeepsAbsent(s: string, rs: seq<(string, string)>, c: char)
    requires c !in s
    requires forall i :: 0 <= i < |rs| ==> c !in rs[i].1
    ensures c !in ApplyReplacements(s, rs)
    decreases |rs|
  {
    if rs != [] {
      ReplaceKeepsAbsent(s, rs[0].0, rs[0].1, c);
      ApplyKeepsAbsent(Replace(s, rs[0].0, rs[0].1), rs[1..], c);
    }
  }

  /** `s.title()` leaves an absent non-letter absent. */
  lemma TitleKeepsAbsent(s: string, c: char)
    requires c !in s && !IsAsciiLetter(c)
    ensures c !in Title(s)
  {
    var t := Title(s);
    forall i | 0 <= i < |t|
      ensures t[i] != c
    {
      if !IsAsciiLetter(s[i]) {
        assert t[i] == s[i];
      }
    }
  }

  /** The name before the replacements: first matching prefix removed,
      underscores turned into spaces, title-cased. */
  function Prepared(full: string): string {
    Title(Replace(StripFirstPrefix(full, ShortPrefixes), "_", " "))
  }

  lemma PreparedHasNoUnderscore(full: string)
    ensures '_' !in Prepared(full)
  {
    var name := StripFirstPrefix(full, ShortPrefixes);
    ReplaceRemovesChar(name, '_', " ");
    TitleKeepsAbsent(Replace(name, "_", " "), '_');
  }

  /** The display name: first matching prefix removed, underscores turned
      into spaces, title-cased, the replacements applied, and white space
      stripped from both ends. */
  function ShortName(full: string, rs: seq<(string, string)>): (r: string)
    requires forall i :: 0 <= i < |rs| ==> '_' !in rs[i].1
    ensures '_' !in r
    ensures r == [] || (!IsSpace(r[0]) && !IsSpace(r[|r| - 1]))
  {
    ReplacedHasNoUnderscore(full, rs);
    Strip(ApplyReplacements(Prepared(full), rs))
  }

  lemma ReplacedHasNoUnderscore(full: string, rs: seq<(string, string)>)
    requires forall i :: 0 <= i < |rs| ==> '_' !in rs[i].1
    ensures '_' !in ApplyReplacements(Prepared(full), rs)
  {
    PreparedHasNoUnderscore(full);
    ApplyKeepsAbsent(Prepared(full), rs, '_');
  }

  /** `_get_short_joint_name` as written. */
  function ShortJointName(full: string): (r: string)
    ensures '_' !in r
    ensures r == [] || (!IsSpace(r[0]) && !IsSpace(r[|r| - 1]))
  {
    ShortName(full, Replacements)
  }

  /** In the order written, "To" is replaced before "Base To", so the
      "Base To" rule can never fire: dropping it changes nothing. */
  lemma BaseToRuleNeverFires(s: string)
    ensures ApplyReplacements(s, Replacements) == ApplyReplacements(Replace(s, "To", "\U{2192}"), Replacements[2..])
  {
    var t := Replace(s, "To", "\U{2192}");
    ReplaceToRemovesTo(s);
    if Contains(t, "Base To") {
      ContainsPiece(t, "Base To", "To", 5);
    }
    ReplaceAbsent(t, "Base To", "");
    assert Replacements[1..][1..] == Replacements[2..];
  }

  /** The replacements with the "Base To" rule applied before "To", so that
      it removes a "Base To" as its entry in the table evidently means to. */
  const IntendedReplacements: seq<(string, string)> :=
    [("Base To", ""), ("To", "\U{2192}"), ("Stage", "Stage"), ("Arm 1", "Arm1"), ("Arm 2", "Arm2")]

  /** `_get_short_joint_name` with the rules in the intended order. */
  function IntendedShortJointName(full: string): (r: string)
    ensures '_' !in r
    ensures r == [] || (!IsSpace(r[0]) && !IsSpace(r[|r| - 1]))
  {
    ShortName(full, IntendedReplacements)
  }

  /** With the intended order, a leading "Base To" is removed before any
      arrow is introduced, and no "To" is left afterwards. */
  lemma IntendedRemovesBaseTo(rest: string)
    ensures ApplyReplacements("Base To" + rest, IntendedReplacements) ==
      ApplyReplacements(Replace(Replace(rest, "Base To", ""), "To", "\U{2192}"), IntendedReplacements[2..])
    ensures !Contains(Replace(Replace(rest, "Base To", ""), "To", "\U{2192}"), "To")
  {
    var s := "Base To" + rest;
    assert s[..7] == "Base To";
    assert s[7..] == rest;
    assert Replace(s, "Base To", "") == Replace(rest, "Base To", "");
    ReplaceToRemovesTo(Replace(rest, "Base To", ""));
    assert IntendedReplacements[1..][1..] == IntendedReplacements[2..];
  }

  // The steps of `AsWrittenBaseTo` and `IntendedBaseTo`, one string operation each.

  lemma BaseToKeepsPrefix()
    ensures StripFirstPrefix("base_to", ShortPrefixes) == "base_to"
  {
    var s := "base_to";
    assert s[..6][0] == 'b' && s[..7][0] == 'b';
    assert ShortPrefixes[1..][1..][1..][1..][1..] == [];
  }

  lemma BaseToSpaced()
    ensures Replace("base_to", "_", " ") == "base to"
  {
    assert Replace("o", "_", " ") == "o";
    assert Replace("to", "_", " ") == "to";
    assert Replace("_to", "_", " ") == " to";
    assert Replace("e_to", "_", " ") == "e to";
    assert Replace("se_to", "_", " ") == "se to";
    assert Replace("ase_to", "_", " ") == "ase to";
  }

  lemma BaseToTitled()
    ensures Title("base to") == "Base To"
  {
  }

  lemma BaseToArrow()
    ensures Replace("Base To", "To", "\U{2192}") == "Base \U{2192}"
  {
    assert Replace("To", "To", "\U{2192}") == "\U{2192}";
    assert Replace(" To", "To", "\U{2192}") == " \U{2192}";
    assert Replace("e To", "To", "\U{2192}") == "e \U{2192}";
    assert Replace("se To", "To", "\U{2192}") == "se \U{2192}";
    assert Replace("ase To", "To", "\U{2192}") == "ase \U{2192}";
  }

  lemma BaseArrowUnchanged()
    ensures ApplyReplacements("Base \U{2192}", Replacements[1..]) == "Base \U{2192}"
  {
    var t := "Base \U{2192}";
    assert Replace(t, "Base To", "") == t;
    assert Replace(t, "Stage", "Stage") == t;
    assert Replace(t, "Arm 1", "Arm1") == t;
    assert Replace(t, "Arm 2", "Arm2") == t;
    assert ApplyReplacements(t, Replacements[1..][1..][1..][1..]) == t;
    assert ApplyReplacements(t, Replacements[1..][1..][1..]) == t;
    assert ApplyReplacements(t, Replacements[1..][1..]) == t;
  }

  lemma BaseToPrepared()
    ensures Prepared("base_to") == "Base To"
  {
    BaseToKeepsPrefix();
    BaseToSpaced();
    BaseToTitled();
  }

  lemma BaseToReplaced()
    ensures ApplyReplacements("Base To", Replacements) == "Base \U{2192}"
  {
    BaseToArrow();
    BaseArrowUnchanged();
  }

  lemma BaseArrowStripped()
    ensures Strip("Base \U{2192}") == "Base \U{2192}"
  {
    var t := "Base \U{2192}";
    assert !IsSpace(t[0]);
    assert StripLeft(t) == t;
    assert !IsSpace(t[|t| - 1]);
    assert StripRight(t) == t;
  }

  lemma AsWrittenBaseTo()
    ensures ShortJointName("base_to") == "Base \U{2192}"
  {
    BaseToPrepared();
    BaseToReplaced();
    BaseArrowStripped();
  }

  lemma IntendedBaseTo()
    ensures IntendedShortJointName("base_to") == ""
  {
    BaseToPrepared();
    assert Replace("Base To", "Base To", "") == "";
    assert ApplyReplacements("Base To", IntendedReplacements) == "";
  }

  // ---------------------------------------------------------------------
  // `SmartUrdfManager`: joint bookkeeping

  /** One joint of `urdf.robot.joints` (its limits, or none). */
  datatype JointInfo = JointInfo(name: string, jointType: string, limits: Limits)

  /** What a successful load yields: every joint of the URDF, and its
      actuated joints with their limits. */
  datatype LoadedUrdf = LoadedUrdf(joints: seq<JointInfo>, actuated: JointLimits)

  /** `all_joints`, reduced to the types: a later joint of the same name
      overrides an earlier one. */
  function JointTypes(joints: seq<JointInfo>): (m: map<string, string>)
    ensures forall n :: n in m ==> exists i :: 0 <= i < |joints| && joints[i].name == n && joints[i].jointType == m[n]
    ensures forall i :: 0 <= i < |joints| ==> joints[i].name in m
    decreases |joints|
  {
    if joints == [] then map[]
    else
      var j := joints[|joints| - 1];
      var m := JointTypes(joints[..|joints| - 1]);
      assert forall i :: 0 <= i < |joints| - 1 ==> joints[..|joints| - 1][i] == joints[i];
      m[j.name := j.jointType]
  }

  /** `meaningful_joints`: the actuated joints, in order, that are listed
      among the URDF's joints and pass `IsMeaningfulJoint`. */
  function Meaningful(types: map<string, string>, actuated: JointLimits): JointLimits
    decreases |actuated|
  {
    if actuated == [] then []
    else
      var rest := Meaningful(types, actuated[..|actuated| - 1]);
      var a := actuated[|actuated| - 1];
      if a.0 in types && IsMeaningfulJoint(a.0, types[a.0], a.1) then rest + [a] else rest
  }

  /** The registered joints are exactly the meaningful actuated ones. */
  lemma {:induction false} MeaningfulSpec(types: map<string, string>, actuated: JointLimits, a: (string, Limits))
    ensures a in Meaningful(types, actuated) ==>
      a in actuated && a.0 in types && IsMeaningfulJoint(a.0, types[a.0], a.1)
    ensures a in actuated && a.0 in types && IsMeaningfulJoint(a.0, types[a.0], a.1) ==>
      a in Meaningful(types, actuated)
    decreases |actuated|
  {
    if actuated != [] {
      var init := actuated[..|actuated| - 1];
      MeaningfulSpec(types, init, a);
      assert actuated == init + [actuated[|actuated| - 1]];
    }
  }

  /** The filter never adds joints: the meaningful list is at most as long
      as the actuated one. */
  lemma {:induction false} MeaningfulLength(types: map<string, string>, actuated: JointLimits)
    ensures |Meaningful(types, actuated)| <= |actuated|
    decreases |actuated|
  {
    if actuated != [] {
      MeaningfulLength(types, actuated[..|actuated| - 1]);
    }
  }

  /** The loop filling `all_joints`. */
  method CollectJointTypes(joints: seq<JointInfo>) returns (types: map<string, string>)
    ensures types == JointTypes(joints)
  {
    types := map[];
    var i := 0;
    while i < |joints|
      invariant 0 <= i <= |joints|
      invariant types == JointTypes(joints[..i])
    {
      types := types[joints[i].name := joints[i].jointType];
      assert joints[..i + 1][..i] == joints[..i];
      i := i + 1;
    }
    assert joints[..i] == joints;
  }

  /** The loop filling `meaningful_joints`. */
  method FilterMeaningful(types: map<string, string>, actuated: JointLimits) returns (meaningful: JointLimits)
    ensures meaningful == Meaningful(types, actuated)
  {
    meaningful := [];
    var p := 0;
    while p < |actuated|
      invariant 0 <= p <= |actuated|
      invariant meaningful == Meaningful(types, actuated[..p])
    {
      var (jn, lim) := actuated[p];
      if jn in types && IsMeaningfulJoint(jn, types[jn], lim) {
        meaningful := meaningful + [(jn, lim)];
      }
      assert actuated[..p + 1][..p] == actuated[..p];
      p := p + 1;
    }
    assert actuated[..p] == actuated;
  }

  class SmartUrdfManager {
    var configs: seq<UrdfConfig>
    var filteredJointLimits: map<string, Limits>
    var filteredJointNames: seq<string>

    /** The registered names and the limits dict are those of the URDFs
        added so far. */
    ghost predicate Valid()
      reads this
    {
      filteredJointNames == RegisteredNames(configs) &&
      filteredJointLimits == RegisteredLimits(configs)
    }

    constructor ()
      ensures Valid() && configs == []
    {
      configs := [];
      filteredJointLimits := map[];
      filteredJointNames := [];
    }

    /** `add_urdf`. `loaded` is the parsed URDF, or `None` when reading,
        patching or loading it raised; the error is caught and nothing is
        recorded. */
    method AddUrdf(path: string, name: string, loaded: Option<LoadedUrdf>)
      requires Valid()
      modifies this
      ensures Valid()
      ensures loaded.None? ==> configs == old(configs)
      ensures loaded.Some? ==>
        var m := Meaningful(JointTypes(loaded.value.joints), loaded.value.actuated);
        configs == old(configs) + [UrdfConfig(name, path, loaded.value.actuated, m)] &&
        filteredJointNames == old(filteredJointNames) + JointNames(name, m) &&
        filteredJointLimits == Register(old(filteredJointLimits), name, m)
    {
      if loaded.None? {
        return;
      }
      var urdf := loaded.value;
      var allJoints := CollectJointTypes(urdf.joints);
      var meaningful := FilterMeaningful(allJoints, urdf.actuated);
      var cfg := UrdfConfig(name, path, urdf.actuated, meaningful);
      configs := configs + [cfg];
      var q := 0;
      while q < |meaningful|
        invariant 0 <= q <= |meaningful|
        invariant configs == old(configs) + [cfg]
        invariant filteredJointNames == old(filteredJointNames) + JointNames(name, meaningful[..q])
        invariant filteredJointLimits == Register(old(filteredJointLimits), name, meaningful[..q])
      {
        var unique := JointName(name, meaningful[q].0);
        filteredJointLimits := filteredJointLimits[unique := meaningful[q].1];
        filteredJointNames := filteredJointNames + [unique];
        assert meaningful[..q + 1][..q] == meaningful[..q];
        q := q + 1;
      }
      assert meaningful[..q] == meaningful;
      assert configs[..|configs| - 1] == old(configs);
    }

    /** `get_total_meaningful_dof`: the size of the limits dict, which is at
        most the number of registered names. */
    function GetTotalMeaningfulDof(): (n: nat)
      reads this
      requires Valid()
      ensures n <= |filteredJointNames|
      ensures n == |filteredJointLimits|
    {
      DofCount(configs);
      |filteredJointLimits|
    }

    /** `update_all_configurations`: the arrays pushed to each URDF, with a
        limits midpoint (or 0.0) for joints that received no value. */
    method UpdateAllConfigurations(values: seq<real>) returns (updates: seq<CfgUpdate>)
      requires Valid()
      ensures Splittable(filteredJointNames)
      ensures updates == UpdateAll(configs, filteredJointNames, values, MidpointDefault)
    {
      RegisteredSplittable(configs);
      updates := ComputeUpdates(configs, filteredJointNames, values, MidpointDefault);
    }

    /** `get_initial_configuration` */
    method GetInitialConfiguration() returns (config: seq<real>)
      requires Valid()
      ensures forall i :: 0 <= i < |filteredJointNames| ==> filteredJointNames[i] in filteredJointLimits
      ensures config == InitialConfiguration(filteredJointNames, filteredJointLimits)
    {
      RegisteredSplittable(configs);
      forall i | 0 <= i < |filteredJointNames|
        ensures filteredJointNames[i] in filteredJointLimits
      {
        RegisteredAgree(configs, filteredJointNames[i]);
      }
      config := ComputeInitialConfiguration(filteredJointNames, filteredJointLimits);
    }
  }
}
