/** The multi-URDF stress-test manager: every actuated joint of every
    loaded URDF gets a slider, and the workcell's URDF files are found by
    walking the asset directory. */
module MultiUrdf {
  import opened Wrappers
  import opened Dicts
  import opened PyStrings
  import opened UrdfJoints

  class MultiUrdfManager {
    var configs: seq<UrdfConfig>
    var allJointLimits: map<string, Limits>
    var allJointNames: seq<string>

    /** The registered names and the limits dict are those of the URDFs
        added so far, each of which registers all its actuated joints. */
    ghost predicate Valid()
      reads this
    {
      allJointNames == RegisteredNames(configs) &&
      allJointLimits == RegisteredLimits(configs) &&
      forall k :: 0 <= k < |configs| ==> configs[k].registered == configs[k].actuated
    }

    constructor ()
      ensures Valid() && configs == []
    {
      configs := [];
      allJointLimits := map[];
      allJointNames := [];
    }

    /** `add_urdf`. `loaded` is the URDF's actuated joints, or `None` when
        loading raised; the error is caught and nothing is recorded. */
    method AddUrdf(path: string, name: string, loaded: Option<JointLimits>)
      requires Valid()
      modifies this
      ensures Valid()
      ensures loaded.None? ==> configs == old(configs)
      ensures loaded.Some? ==>
        configs == old(configs) + [UrdfConfig(name, path, loaded.value, loaded.value)] &&
        allJointNames == old(allJointNames) + JointNames(name, loaded.value) &&
        allJointLimits == Register(old(allJointLimits), name, loaded.value)
    {
      if loaded.None? {
        return;
      }
      var jointLimits := loaded.value;
      var cfg := UrdfConfig(name, path, jointLimits, jointLimits);
      configs := configs + [cfg];
      var p := 0;
      while p < |jointLimits|
        invariant 0 <= p <= |jointLimits|
        invariant configs == old(configs) + [cfg]
        invariant allJointNames == old(allJointNames) + JointNames(name, jointLimits[..p])
        invariant allJointLimits == Register(old(allJointLimits), name, jointLimits[..p])
      {
        var unique := JointName(name, jointLimits[p].0);
        allJointLimits := allJointLimits[unique := jointLimits[p].1];
        allJointNames := allJointNames + [unique];
        assert jointLimits[..p + 1][..p] == jointLimits[..p];
        p := p + 1;
      }
      assert jointLimits[..p] == jointLimits;
      assert configs[..|configs| - 1] == old(configs);
    }

    /** `get_total_dof`: the size of the limits dict, which is at most the
        number of registered names and equals it when they are distinct. */
    function GetTotalDof(): (n: nat)
      reads this
      requires Valid()
      ensures n <= |allJointNames|
      ensures (forall a, b :: 0 <= a < b < |allJointNames| ==> allJointNames[a] != allJointNames[b]) ==>
        n == |allJointNames|
    {
      DofCount(configs);
      |allJointLimits|
    }

    /** `update_all_configurations`: the arrays pushed to each URDF, with 0.0
        for joints that received no value. */
    method UpdateAllConfigurations(values: seq<real>) returns (updates: seq<CfgUpdate>)
      requires Valid()
      ensures Splittable(allJointNames)
      ensures updates == UpdateAll(configs, allJointNames, values, ZeroDefault)
    {
      RegisteredSplittable(configs);
      updates := ComputeUpdates(configs, allJointNames, values, ZeroDefault);
    }

    /** `get_initial_configuration`: one entry per registered name. */
    method GetInitialConfiguration() returns (config: seq<real>)
      requires Valid()
      ensures forall i :: 0 <= i < |allJointNames| ==> allJointNames[i] in allJointLimits
      ensures config == InitialConfiguration(allJointNames, allJointLimits)
    {
      RegisteredSplittable(configs);
      forall i | 0 <= i < |allJointNames|
        ensures allJointNames[i] in allJointLimits
      {
        RegisteredAgree(configs, allJointNames[i]);
      }
      config := ComputeInitialConfiguration(allJointNames, allJointLimits);
    }
  }

  // ---------------------------------------------------------------------
  // `discover_workcell_urdfs`

  const SkipPatterns: seq<string> := ["macro", "testing", "dynamics_only"]

  /** Intermediate files the discovery passes over. */
  predicate Skipped(file: string) {
    ContainsAny(Lower(file), SkipPatterns)
  }

  /** The sub-directories of the base directory, each with the file names
      its `glob("*.urdf")` yields, in iteration order. */
  type Listing = seq<(string, seq<string>)>

  function BaseDir(workcell: string): string {
    "assets/urdf/" + workcell + "/urdf"
  }

  function RelativePath(workcell: string, sub: string, file: string): string {
    BaseDir(workcell) + "/" + sub + "/" + file
  }

  /** The entries one sub-directory contributes. */
  function FilesIn(workcell: string, sub: string, files: seq<string>): seq<(string, string)>
    decreases |files|
  {
    if files == [] then []
    else
      var f := files[|files| - 1];
      FilesIn(workcell, sub, files[..|files| - 1]) +
        (if Skipped(f) then [] else [(RelativePath(workcell, sub, f), sub)])
  }

  function DiscoverIn(workcell: string, subs: Listing): seq<(string, string)>
    decreases |subs|
  {
    if subs == [] then []
    else
      var s := subs[|subs| - 1];
      DiscoverIn(workcell, subs[..|subs| - 1]) + FilesIn(workcell, s.0, s.1)
  }

  /** `None` when the base directory does not exist. */
  function Discover(workcell: string, listing: Option<Listing>): seq<(string, string)> {
    match listing
    case None => []
    case Some(subs) => DiscoverIn(workcell, subs)
  }

  /** A sub-directory contributes exactly its files that are not skipped,
      each with the sub-directory as component name. */
  lemma {:induction false} FilesInSpec(workcell: string, sub: string, files: seq<string>, x: (string, string))
    ensures x in FilesIn(workcell, sub, files) <==>
      exists j :: 0 <= j < |files| && !Skipped(files[j]) && x == (RelativePath(workcell, sub, files[j]), sub)
    decreases |files|
  {
    if files != [] {
      var k := |files| - 1;
      var init := files[..k];
      var f := files[k];
      var tail := if Skipped(f) then [] else [(RelativePath(workcell, sub, f), sub)];
      assert FilesIn(workcell, sub, files) == FilesIn(workcell, sub, init) + tail;
      FilesInSpec(workcell, sub, init, x);
      if x in FilesIn(workcell, sub, init) {
        var j :| 0 <= j < k && !Skipped(init[j]) && x == (RelativePath(workcell, sub, init[j]), sub);
        assert init[j] == files[j];
      }
      if exists j :: 0 <= j < |files| && !Skipped(files[j]) && x == (RelativePath(workcell, sub, files[j]), sub) {
        var j :| 0 <= j < |files| && !Skipped(files[j]) && x == (RelativePath(workcell, sub, files[j]), sub);
        if j < k {
          assert init[j] == files[j];
          assert x in FilesIn(workcell, sub, init);
        } else {
          assert x in tail;
        }
      }
    }
  }

  /** The discovered list is the sub-directories' contributions, in order. */
  lemma {:induction false} DiscoverInSpec(workcell: string, subs: Listing, x: (string, string))
    ensures x in DiscoverIn(workcell, subs) <==>
      exists i :: 0 <= i < |subs| && x in FilesIn(workcell, subs[i].0, subs[i].1)
    decreases |subs|
  {
    if subs != [] {
      var k := |subs| - 1;
      var init := subs[..k];
      var last := FilesIn(workcell, subs[k].0, subs[k].1);
      assert DiscoverIn(workcell, subs) == DiscoverIn(workcell, init) + last;
      DiscoverInSpec(workcell, init, x);
      assert forall i :: 0 <= i < k ==> init[i] == subs[i];
      if x in DiscoverIn(workcell, init) {
        var i :| 0 <= i < k && x in FilesIn(workcell, init[i].0, init[i].1);
        assert x in FilesIn(workcell, subs[i].0, subs[i].1);
      }
      if exists i :: 0 <= i < |subs| && x in FilesIn(workcell, subs[i].0, subs[i].1) {
        var i :| 0 <= i < |subs| && x in FilesIn(workcell, subs[i].0, subs[i].1);
        if i < k {
          assert x in FilesIn(workcell, init[i].0, init[i].1);
        } else {
          assert x in last;
        }
      }
    }
  }

  /** Within one workcell and sub-directory, the path determines the file. */
  lemma RelativePathInjective(workcell: string, sub: string, f: string, g: string)
    requires RelativePath(workcell, sub, f) == RelativePath(workcell, sub, g)
    ensures f == g
  {
    var prefix := BaseDir(workcell) + "/" + sub + "/";
    assert RelativePath(workcell, sub, f) == prefix + f;
    assert RelativePath(workcell, sub, g) == prefix + g;
    assert f == (prefix + f)[|prefix|..];
    assert g == (prefix + g)[|prefix|..];
  }

  /** A file found by the walk is discovered exactly when it is not an
      intermediate file. */
  lemma DiscoverSpec(workcell: string, subs: Listing, i: nat, j: nat)
    requires i < |subs| && j < |subs[i].1|
    ensures (RelativePath(workcell, subs[i].0, subs[i].1[j]), subs[i].0) in Discover(workcell, Some(subs))
      <==> !Skipped(subs[i].1[j])
  {
    var sub := subs[i].0;
    var f := subs[i].1[j];
    var x := (RelativePath(workcell, sub, f), sub);
    DiscoverInSpec(workcell, subs, x);
    if !Skipped(f) {
      FilesInSpec(workcell, sub, subs[i].1, x);
    }
    if x in DiscoverIn(workcell, subs) {
      var i' :| 0 <= i' < |subs| && x in FilesIn(workcell, subs[i'].0, subs[i'].1);
      FilesInSpec(workcell, subs[i'].0, subs[i'].1, x);
      var j' :| 0 <= j' < |subs[i'].1| && !Skipped(subs[i'].1[j']) &&
        x == (RelativePath(workcell, subs[i'].0, subs[i'].1[j']), subs[i'].0);
      RelativePathInjective(workcell, sub, f, subs[i'].1[j']);
    }
  }

  /** Everything discovered is a file of the walk. */
  lemma DiscoverSound(workcell: string, subs: Listing, x: (string, string))
    requires x in Discover(workcell, Some(subs))
    ensures exists i, j :: (0 <= i < |subs| && 0 <= j < |subs[i].1| &&
      x == (RelativePath(workcell, subs[i].0, subs[i].1[j]), subs[i].0))
  {
    DiscoverInSpec(workcell, subs, x);
    var i :| 0 <= i < |subs| && x in FilesIn(workcell, subs[i].0, subs[i].1);
    FilesInSpec(workcell, subs[i].0, subs[i].1, x);
  }

  /** `discover_workcell_urdfs`. `listing` stands for the directory walk:
      `None` when the base directory is missing. */
  method DiscoverWorkcellUrdfs(workcell: string, listing: Option<Listing>) returns (found: seq<(string, string)>)
    ensures found == Discover(workcell, listing)
  {
    found := [];
    if listing.None? {
      return;
    }
    var subs := listing.value;
    var i := 0;
    while i < |subs|
      invariant 0 <= i <= |subs|
      invariant found == DiscoverIn(workcell, subs[..i])
    {
      var (sub, files) := subs[i];
      var j := 0;
      while j < |files|
        invariant 0 <= j <= |files|
        invariant found == DiscoverIn(workcell, subs[..i]) + FilesIn(workcell, sub, files[..j])
      {
        var f := files[j];
        if !ContainsAny(Lower(f), SkipPatterns) {
          found := found + [(RelativePath(workcell, sub, f), sub)];
        }
        assert files[..j + 1][..j] == files[..j];
        j := j + 1;
      }
      assert files[..j] == files;
      assert subs[..i + 1][..i] == subs[..i];
      i := i + 1;
    }
    assert subs[..i] == subs;
  }
}
