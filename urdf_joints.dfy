/** What both multi-URDF managers share: the limits of actuated joints, the
    "urdf::joint" names under which joints are registered, the grouping of
    a flat value vector back into one configuration array per URDF, and the
    initial position given to a joint. */
module UrdfJoints {
  import opened Wrappers
  import opened Dicts
  import opened PyStrings

  /** `(lower, upper)` of a joint; either bound may be unknown. */
  datatype Limits = Limits(lower: Option<real>, upper: Option<real>)

  /** `get_actuated_joint_limits()`: joint name to limits, in the URDF's
      joint order. */
  type JointLimits = Dict<string, Limits>

  /** One entry of `urdf_configs`: the name and path it was added under, its
      actuated joints, and the joints among them that were registered (all
      of them for the plain manager, the meaningful ones for the smart one). */
  datatype UrdfConfig = UrdfConfig(name: string, path: string, actuated: JointLimits, registered: JointLimits)

  /** One `update_cfg(cfg)` call: the position of the URDF in `urdf_configs`
      and the configuration array it receives. */
  datatype CfgUpdate = CfgUpdate(target: nat, cfg: seq<real>)

  /** The value given to an actuated joint for which no value was supplied. */
  datatype DefaultRule = ZeroDefault | MidpointDefault

  const Sep: string := "::"

  /** `f"{urdf}::{joint}"` */
  function JointName(urdf: string, joint: string): string {
    urdf + Sep + joint
  }

  predicate NoColon(u: string) {
    forall k :: 0 <= k < |u| ==> u[k] != ':'
  }

  /** Every name can be unpacked by `name.split("::", 1)`. */
  predicate Splittable(names: seq<string>) {
    forall i :: 0 <= i < |names| ==> SplitFirst(names[i], Sep).Some?
  }

  function SplitName(name: string): (string, string)
    requires SplitFirst(name, Sep).Some?
  {
    SplitFirst(name, Sep).value
  }

  /** A registered name always holds "::", so it can always be unpacked. */
  lemma JointNameSplits(u: string, j: string)
    ensures SplitFirst(JointName(u, j), Sep).Some?
  {
    var s := JointName(u, j);
    assert s[|u|..][..2] == Sep;
    assert StartsWith(s[|u|..], Sep);
    FindFirst(s, Sep);
  }

  /** For a URDF name without ':', splitting a name gives (u, j) exactly
      when the name is "u::j". */
  lemma SplitIsJoined(name: string, u: string, j: string)
    requires NoColon(u)
    ensures SplitFirst(name, Sep) == Some((u, j)) <==> name == JointName(u, j)
  {
    if name == JointName(u, j) {
      SplitJoined(u, j);
    }
  }

  // ---------------------------------------------------------------------
  // Grouping the flat vector: `urdf_joint_values[urdf][joint] = values[i]`

  function Group(names: seq<string>, values: seq<real>): map<string, map<string, real>>
    requires |names| == |values| && Splittable(names)
    decreases |names|
  {
    if names == [] then map[]
    else
      var n := |names| - 1;
      var (u, j) := SplitName(names[n]);
      Assign(Group(names[..n], values[..n]), u, j, values[n])
  }

  /** `groups[u][j] = v`, creating the inner dict when u is new. */
  function Assign(g: map<string, map<string, real>>, u: string, j: string, v: real): map<string, map<string, real>> {
    var inner := if u in g then g[u] else map[];
    g[u := inner[j := v]]
  }

  /** The URDF part of every name. */
  function UrdfParts(names: seq<string>): seq<string>
    requires Splittable(names)
  {
    seq(|names|, i requires 0 <= i < |names| && Splittable(names) => SplitName(names[i]).0)
  }

  /** The name unpacks into URDF u and joint j. */
  predicate SplitsInto(name: string, u: string, j: string) {
    SplitFirst(name, Sep) == Some((u, j))
  }

  /** The last position whose name splits into (u, j). */
  function LastWith(names: seq<string>, u: string, j: string): (r: Option<nat>)
    ensures r.Some? ==> r.value < |names|
    decreases |names|
  {
    if names == [] then None
    else if SplitsInto(names[|names| - 1], u, j) then Some(|names| - 1)
    else LastWith(names[..|names| - 1], u, j)
  }

  /** `LastWith` finds a name splitting into (u, j) with none after it, or
      reports that there is none. */
  lemma {:induction false} LastWithSpec(names: seq<string>, u: string, j: string)
    ensures var r := LastWith(names, u, j);
      r.Some? ==> SplitsInto(names[r.value], u, j) && forall i :: r.value < i < |names| ==> !SplitsInto(names[i], u, j)
    ensures LastWith(names, u, j).None? ==> forall i :: 0 <= i < |names| ==> !SplitsInto(names[i], u, j)
    decreases |names|
  {
    if names != [] {
      var n := |names| - 1;
      var init := names[..n];
      if !SplitsInto(names[n], u, j) {
        LastWithSpec(init, u, j);
        var r := LastWith(init, u, j);
        var lo := if r.Some? then r.value + 1 else 0;
        forall i | lo <= i < |names| ensures !SplitsInto(names[i], u, j) {
          if i < n {
            assert init[i] == names[i];
          }
        }
        if r.Some? {
          assert init[r.value] == names[r.value];
        }
      }
    }
  }

  /** With a URDF name free of ':', `LastWith` is the last occurrence of the
      registered name "u::j". */
  lemma LastWithJoined(names: seq<string>, u: string, j: string)
    requires NoColon(u)
    ensures LastWith(names, u, j).Some? <==> JointName(u, j) in names
    ensures LastWith(names, u, j).Some? ==> names[LastWith(names, u, j).value] == JointName(u, j)
    ensures LastWith(names, u, j).Some? ==>
      forall i :: LastWith(names, u, j).value < i < |names| ==> names[i] != JointName(u, j)
  {
    LastWithSpec(names, u, j);
    forall i | 0 <= i < |names| ensures SplitsInto(names[i], u, j) <==> names[i] == JointName(u, j) {
      SplitIsJoined(names[i], u, j);
    }
  }

  /** A URDF has a group exactly when some name belongs to it. */
  lemma {:induction false} GroupUrdfs(names: seq<string>, values: seq<real>, u: string)
    requires |names| == |values| && Splittable(names)
    ensures u in Group(names, values) <==> u in UrdfParts(names)
    decreases |names|
  {
    if names != [] {
      var n := |names| - 1;
      GroupUrdfs(names[..n], values[..n], u);
      UrdfPartsStep(names);
    }
  }

  lemma UrdfPartsStep(names: seq<string>)
    requires names != [] && Splittable(names)
    ensures Splittable(names[..|names| - 1])
    ensures UrdfParts(names) == UrdfParts(names[..|names| - 1]) + [SplitName(names[|names| - 1]).0]
  {
    var n := |names| - 1;
    assert forall k :: 0 <= k < n ==> names[..n][k] == names[k];
  }

  /** A (urdf, joint) pair is grouped exactly when some name splits into it,
      and it holds the value of the last such name: later values override. */
  lemma {:induction false} GroupLookup(names: seq<string>, values: seq<real>, u: string, j: string)
    requires |names| == |values| && Splittable(names)
    ensures (u in Group(names, values) && j in Group(names, values)[u]) <==> LastWith(names, u, j).Some?
    ensures LastWith(names, u, j).Some? ==> Group(names, values)[u][j] == values[LastWith(names, u, j).value]
    decreases |names|
  {
    if names != [] {
      var n := |names| - 1;
      GroupLookup(names[..n], values[..n], u, j);
    }
  }

  // ---------------------------------------------------------------------
  // Configuration arrays

  /** The value of an actuated joint that received none: 0.0, or for the
      smart manager the midpoint of its limits when both are known. */
  function Default(rule: DefaultRule, lim: Limits): real {
    match rule
    case ZeroDefault => 0.0
    case MidpointDefault =>
      if lim.lower.Some? && lim.upper.Some? then (lim.lower.value + lim.upper.value) / 2.0 else 0.0
  }

  /** A default lies within the joint's limits whenever both are known and
      ordered (a zero default only when the range holds 0). */
  lemma DefaultWithin(rule: DefaultRule, lim: Limits)
    requires lim.lower.Some? && lim.upper.Some? && lim.lower.value <= lim.upper.value
    requires rule == ZeroDefault ==> lim.lower.value <= 0.0 <= lim.upper.value
    ensures lim.lower.value <= Default(rule, lim) <= lim.upper.value
  {
  }

  function Cfg(actuated: JointLimits, given: map<string, real>, rule: DefaultRule): seq<real> {
    seq(|actuated|, p requires 0 <= p < |actuated| =>
      if actuated[p].0 in given then given[actuated[p].0] else Default(rule, actuated[p].1))
  }

  /** A URDF receives an update when it has a group and at least one actuated
      joint (`if cfg:`). */
  predicate Chosen(configs: seq<UrdfConfig>, g: map<string, map<string, real>>, k: nat)
    requires k < |configs|
  {
    configs[k].name in g && |configs[k].actuated| > 0
  }

  function Updates(configs: seq<UrdfConfig>, g: map<string, map<string, real>>, rule: DefaultRule): seq<CfgUpdate>
    decreases |configs|
  {
    if configs == [] then []
    else
      var k := |configs| - 1;
      var rest := Updates(configs[..k], g, rule);
      var c := configs[k];
      if c.name in g && |c.actuated| > 0 then rest + [CfgUpdate(k, Cfg(c.actuated, g[c.name], rule))]
      else rest
  }

  function Targets(us: seq<CfgUpdate>): seq<nat> {
    seq(|us|, n requires 0 <= n < |us| => us[n].target)
  }

  /** The updates go, in `urdf_configs` order, to exactly the chosen URDFs;
      each carries the array built from that URDF's group. */
  lemma {:induction false} UpdatesSpec(configs: seq<UrdfConfig>, g: map<string, map<string, real>>, rule: DefaultRule)
    ensures forall n :: 0 <= n < |Updates(configs, g, rule)| ==>
      var u := Updates(configs, g, rule)[n];
      u.target < |configs| && Chosen(configs, g, u.target) &&
      u.cfg == Cfg(configs[u.target].actuated, g[configs[u.target].name], rule)
    ensures forall k :: 0 <= k < |configs| && Chosen(configs, g, k) ==> k in Targets(Updates(configs, g, rule))
    ensures forall k :: 0 <= k < |configs| && k in Targets(Updates(configs, g, rule)) ==> Chosen(configs, g, k)
    ensures forall a, b :: 0 <= a < b < |Updates(configs, g, rule)| ==>
      Updates(configs, g, rule)[a].target < Updates(configs, g, rule)[b].target
    decreases |configs|
  {
    if configs != [] {
      var k := |configs| - 1;
      var init := configs[..k];
      UpdatesSpec(init, g, rule);
      var rest := Updates(init, g, rule);
      assert forall n :: 0 <= n < |rest| ==> rest[n].target < k;
      assert forall i :: 0 <= i < k ==> (Chosen(init, g, i) <==> Chosen(configs, g, i));
      if configs[k].name in g && |configs[k].actuated| > 0 {
        assert Targets(Updates(configs, g, rule)) == Targets(rest) + [k];
      } else {
        assert k !in Targets(rest);
      }
    }
  }

  /** `update_all_configurations`: nothing when the vector length differs
      from the registered names, else one update per chosen URDF. */
  function UpdateAll(configs: seq<UrdfConfig>, names: seq<string>, values: seq<real>, rule: DefaultRule): seq<CfgUpdate>
    requires Splittable(names)
  {
    if |values| != |names| then [] else Updates(configs, Group(names, values), rule)
  }

  /** Each entry of a pushed array: the last value supplied for its
      (urdf, joint) pair, or the default when none was. */
  lemma UpdateAllValue(configs: seq<UrdfConfig>, names: seq<string>, values: seq<real>, rule: DefaultRule, n: nat, p: nat)
    requires Splittable(names) && |values| == |names|
    requires n < |UpdateAll(configs, names, values, rule)|
    ensures UpdateAll(configs, names, values, rule)[n].target < |configs|
    ensures var u := UpdateAll(configs, names, values, rule)[n];
      var c := configs[u.target];
      |u.cfg| == |c.actuated| && c.name in UrdfParts(names)
    ensures var u := UpdateAll(configs, names, values, rule)[n];
      var c := configs[u.target];
      p < |u.cfg| ==>
        u.cfg[p] == match LastWith(names, c.name, c.actuated[p].0)
                    case Some(i) => values[i]
                    case None => Default(rule, c.actuated[p].1)
  {
    var g := Group(names, values);
    UpdatesSpec(configs, g, rule);
    var u := Updates(configs, g, rule)[n];
    var c := configs[u.target];
    GroupUrdfs(names, values, c.name);
    if p < |u.cfg| {
      GroupLookup(names, values, c.name, c.actuated[p].0);
    }
  }

  /** A vector whose length differs from the registered names is rejected
      with a warning: no URDF is updated. */
  lemma MismatchUpdatesNothing(configs: seq<UrdfConfig>, names: seq<string>, values: seq<real>, rule: DefaultRule)
    requires Splittable(names) && |values| != |names|
    ensures forall k :: 0 <= k < |configs| ==> k !in Targets(UpdateAll(configs, names, values, rule))
  {
  }

  /** A URDF with no registered joint receives no update. */
  lemma UpdateAllNeedsNames(configs: seq<UrdfConfig>, names: seq<string>, values: seq<real>, rule: DefaultRule, k: nat)
    requires Splittable(names) && k < |configs| && configs[k].name !in UrdfParts(names)
    ensures k !in Targets(UpdateAll(configs, names, values, rule))
  {
    if |values| == |names| {
      GroupUrdfs(names, values, configs[k].name);
      UpdatesSpec(configs, Group(names, values), rule);
    }
  }

  /** The grouping loop of `update_all_configurations`. */
  method GroupValues(names: seq<string>, values: seq<real>) returns (groups: map<string, map<string, real>>)
    requires |names| == |values| && Splittable(names)
    ensures groups == Group(names, values)
  {
    groups := map[];
    var i := 0;
    while i < |names|
      invariant 0 <= i <= |names|
      invariant Splittable(names[..i])
      invariant groups == Group(names[..i], values[..i])
    {
      var (u, j) := SplitName(names[i]);
      GroupStep(names, values, i);
      groups := AssignValue(groups, u, j, values[i]);
      i := i + 1;
    }
    assert names[..i] == names && values[..i] == values;
  }

  /** The body of the grouping loop. */
  method AssignValue(groups: map<string, map<string, real>>, u: string, j: string, v: real)
    returns (r: map<string, map<string, real>>)
    ensures r == Assign(groups, u, j, v)
  {
    r := groups;
    if u !in r {
      r := r[u := map[]];
    }
    r := r[u := r[u][j := v]];
  }

  /** One more name of the grouping loop. */
  lemma GroupStep(names: seq<string>, values: seq<real>, i: nat)
    requires |names| == |values| && Splittable(names) && i < |names|
    ensures Splittable(names[..i]) && Splittable(names[..i + 1])
    ensures Group(names[..i + 1], values[..i + 1]) ==
      Assign(Group(names[..i], values[..i]), SplitName(names[i]).0, SplitName(names[i]).1, values[i])
  {
    assert names[..i + 1][..i] == names[..i];
    assert values[..i + 1][..i] == values[..i];
  }

  /** The array for one URDF: the grouped value of each actuated joint, else
      its default. */
  method BuildCfg(actuated: JointLimits, given: map<string, real>, rule: DefaultRule) returns (cfg: seq<real>)
    ensures cfg == Cfg(actuated, given, rule)
  {
    cfg := [];
    var p := 0;
    while p < |actuated|
      invariant 0 <= p <= |actuated|
      invariant cfg == Cfg(actuated[..p], given, rule)
    {
      var (jn, lim) := actuated[p];
      if jn in given {
        cfg := cfg + [given[jn]];
      } else {
        cfg := cfg + [Default(rule, lim)];
      }
      p := p + 1;
    }
    assert actuated[..p] == actuated;
  }

  /** `update_all_configurations`, returning the arrays instead of pushing
      them to the viewer. */
  method ComputeUpdates(configs: seq<UrdfConfig>, names: seq<string>, values: seq<real>, rule: DefaultRule)
    returns (updates: seq<CfgUpdate>)
    requires Splittable(names)
    ensures updates == UpdateAll(configs, names, values, rule)
  {
    if |values| != |names| {
      return [];
    }
    var groups := GroupValues(names, values);
    updates := [];
    var k := 0;
    while k < |configs|
      invariant 0 <= k <= |configs|
      invariant updates == Updates(configs[..k], groups, rule)
    {
      var c := configs[k];
      if c.name in groups {
        var cfg := BuildCfg(c.actuated, groups[c.name], rule);
        if |cfg| > 0 {
          updates := updates + [CfgUpdate(k, cfg)];
        }
      }
      assert configs[..k + 1][..k] == configs[..k];
      k := k + 1;
    }
    assert configs[..k] == configs;
  }

  // ---------------------------------------------------------------------
  // Initial configuration

  const Pi: real := 3.141592653589793

  /** A missing bound counts as -pi or +pi; a range that straddles zero by
      more than 0.1 on both sides starts at 0.0, any other at its midpoint.
      Either way the position lies within the (completed) range. */
  function InitialPosition(lim: Limits): (r: real)
    ensures lim.lower.GetOr(-Pi) <= lim.upper.GetOr(Pi) ==> lim.lower.GetOr(-Pi) <= r <= lim.upper.GetOr(Pi)
    ensures lim.lower.None? && lim.upper.None? ==> r == 0.0
    ensures lim.lower.GetOr(-Pi) >= -0.1 ==> r == (lim.lower.GetOr(-Pi) + lim.upper.GetOr(Pi)) / 2.0
  {
    var lo := lim.lower.GetOr(-Pi);
    var hi := lim.upper.GetOr(Pi);
    if lo < -0.1 && hi > 0.1 then 0.0 else (lo + hi) / 2.0
  }

  function InitialConfiguration(names: seq<string>, limits: map<string, Limits>): seq<real>
    requires forall i :: 0 <= i < |names| ==> names[i] in limits
  {
    seq(|names|, i requires 0 <= i < |names| && names[i] in limits => InitialPosition(limits[names[i]]))
  }

  /** One entry per registered name, each within its joint's range. */
  lemma InitialConfigurationWithin(names: seq<string>, limits: map<string, Limits>, i: nat)
    requires forall i :: 0 <= i < |names| ==> names[i] in limits
    requires i < |names|
    requires limits[names[i]].lower.GetOr(-Pi) <= limits[names[i]].upper.GetOr(Pi)
    ensures |InitialConfiguration(names, limits)| == |names|
    ensures limits[names[i]].lower.GetOr(-Pi) <= InitialConfiguration(names, limits)[i] <= limits[names[i]].upper.GetOr(Pi)
  {
  }

  /** The loop of `get_initial_configuration` (the name is unpacked as the
      source does, which cannot fail on a splittable name). */
  method ComputeInitialConfiguration(names: seq<string>, limits: map<string, Limits>) returns (config: seq<real>)
    requires Splittable(names)
    requires forall i :: 0 <= i < |names| ==> names[i] in limits
    ensures config == InitialConfiguration(names, limits)
  {
    config := [];
    var i := 0;
    while i < |names|
      invariant 0 <= i <= |names|
      invariant config == InitialConfiguration(names[..i], limits)
    {
      var (_, _) := SplitName(names[i]);
      config := config + [InitialPosition(limits[names[i]])];
      assert names[..i + 1][..i] == names[..i];
      i := i + 1;
    }
    assert names[..i] == names;
  }

  // ---------------------------------------------------------------------
  // Joint registration: `all_joint_names` / `filtered_joint_names` and the
  // limits dict keyed by the same names

  /** The names one URDF registers. */
  function JointNames(u: string, js: JointLimits): seq<string> {
    seq(|js|, p requires 0 <= p < |js| => JointName(u, js[p].0))
  }

  /** `limits[f"{u}::{joint}"] = lim` for each registered joint in order. */
  function Register(m: map<string, Limits>, u: string, js: JointLimits): map<string, Limits>
    decreases |js|
  {
    if js == [] then m
    else
      var p := |js| - 1;
      Register(m, u, js[..p])[JointName(u, js[p].0) := js[p].1]
  }

  function RegisteredNames(configs: seq<UrdfConfig>): seq<string>
    decreases |configs|
  {
    if configs == [] then []
    else
      var c := configs[|configs| - 1];
      RegisteredNames(configs[..|configs| - 1]) + JointNames(c.name, c.registered)
  }

  function RegisteredLimits(configs: seq<UrdfConfig>): map<string, Limits>
    decreases |configs|
  {
    if configs == [] then map[]
    else
      var c := configs[|configs| - 1];
      Register(RegisteredLimits(configs[..|configs| - 1]), c.name, c.registered)
  }

  /** Registering keys exactly the new names on top of the old keys. */
  lemma {:induction false} RegisterKeys(m: map<string, Limits>, u: string, js: JointLimits, n: string)
    ensures n in Register(m, u, js) <==> n in m || n in JointNames(u, js)
    decreases |js|
  {
    if js != [] {
      var p := |js| - 1;
      RegisterKeys(m, u, js[..p], n);
      assert JointNames(u, js) == JointNames(u, js[..p]) + [JointName(u, js[p].0)];
    }
  }

  /** The limits dict is keyed by exactly the registered names. */
  lemma {:induction false} RegisteredAgree(configs: seq<UrdfConfig>, n: string)
    ensures n in RegisteredLimits(configs) <==> n in RegisteredNames(configs)
    decreases |configs|
  {
    if configs != [] {
      var k := |configs| - 1;
      var c := configs[k];
      RegisteredAgree(configs[..k], n);
      RegisterKeys(RegisteredLimits(configs[..k]), c.name, c.registered, n);
    }
  }

  /** Every registered name is "u::j" for a joint j registered by a URDF
      added under u. */
  lemma {:induction false} RegisteredShape(configs: seq<UrdfConfig>, i: nat)
    requires i < |RegisteredNames(configs)|
    ensures (exists k, p :: 0 <= k < |configs| && 0 <= p < |configs[k].registered| &&
               RegisteredNames(configs)[i] == JointName(configs[k].name, configs[k].registered[p].0))
    decreases |configs|
  {
    var k := |configs| - 1;
    var init := RegisteredNames(configs[..k]);
    var c := configs[k];
    if i < |init| {
      RegisteredShape(configs[..k], i);
      var k', p :| 0 <= k' < k && 0 <= p < |configs[..k][k'].registered| &&
        init[i] == JointName(configs[..k][k'].name, configs[..k][k'].registered[p].0);
      assert configs[..k][k'] == configs[k'];
    } else {
      var p := i - |init|;
      assert RegisteredNames(configs)[i] == JointName(c.name, c.registered[p].0);
    }
  }

  /** Registered names can always be unpacked. */
  lemma RegisteredSplittable(configs: seq<UrdfConfig>)
    ensures Splittable(RegisteredNames(configs))
  {
    var names := RegisteredNames(configs);
    forall i | 0 <= i < |names|
      ensures SplitFirst(names[i], Sep).Some?
    {
      RegisteredShape(configs, i);
      var k, p :| 0 <= k < |configs| && 0 <= p < |configs[k].registered| &&
        names[i] == JointName(configs[k].name, configs[k].registered[p].0);
      JointNameSplits(configs[k].name, configs[k].registered[p].0);
    }
  }

  /** The distinct elements of a list. */
  function Elements(s: seq<string>): set<string>
    decreases |s|
  {
    if s == [] then {} else Elements(s[..|s| - 1]) + {s[|s| - 1]}
  }

  lemma {:induction false} ElementsIn(s: seq<string>, x: string)
    ensures x in Elements(s) <==> x in s
    decreases |s|
  {
    if s != [] {
      ElementsIn(s[..|s| - 1], x);
      assert s == s[..|s| - 1] + [s[|s| - 1]];
    }
  }

  lemma {:induction false} ElementsSize(s: seq<string>)
    ensures |Elements(s)| <= |s|
    ensures (forall a, b :: 0 <= a < b < |s| ==> s[a] != s[b]) ==> |Elements(s)| == |s|
    decreases |s|
  {
    if s != [] {
      var init := s[..|s| - 1];
      ElementsSize(init);
      ElementsIn(init, s[|s| - 1]);
    }
  }

  /** The number of registered degrees of freedom (the size of the limits
      dict) never exceeds the number of registered names, and equals it when
      the names are distinct. */
  lemma DofCount(configs: seq<UrdfConfig>)
    ensures |RegisteredLimits(configs)| <= |RegisteredNames(configs)|
    ensures (forall a, b :: 0 <= a < b < |RegisteredNames(configs)| ==>
              RegisteredNames(configs)[a] != RegisteredNames(configs)[b]) ==>
            |RegisteredLimits(configs)| == |RegisteredNames(configs)|
  {
    var names := RegisteredNames(configs);
    var keys := RegisteredLimits(configs).Keys;
    forall n | true
      ensures n in keys <==> n in Elements(names)
    {
      RegisteredAgree(configs, n);
      ElementsIn(names, n);
    }
    assert keys == Elements(names);
    ElementsSize(names);
  }
}
