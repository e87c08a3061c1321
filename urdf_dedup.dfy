/** `deduplicate_urdfs`: when several URDF files were discovered for one
    component, keep the one whose path scores best. */
module UrdfDedup {
  import opened Dicts
  import opened PyStrings

  /** `(urdf_path, component_name)` */
  type Candidate = (string, string)

  predicate DigitRunAt(s: string, i: nat) {
    i + 8 <= |s| && AllDigits(s[i..i + 8])
  }

  /** `re.search(r'\d{8}', path)`: eight digits in a row, as a date stamp. */
  predicate HasDateStamp(s: string) {
    exists i: nat :: i < |s| && DigitRunAt(s, i)
  }

  /** `re.search(r'v\d+', path)`: a 'v' directly followed by a digit. */
  predicate HasVersionTag(s: string) {
    exists i :: 0 <= i < |s| - 1 && s[i] == 'v' && IsDigit(s[i + 1])
  }

  /** Ten times the source's score: +100 for a date stamp, +50 for a version
      tag, -200 for "testing" and -100 for "dynamics_only" (either case), and
      -0.1 per character. */
  function Score(path: string): int {
    (if HasDateStamp(path) then 1000 else 0)
    + (if HasVersionTag(path) then 500 else 0)
    - (if Contains(Lower(path), "testing") then 2000 else 0)
    - (if Contains(Lower(path), "dynamics_only") then 1000 else 0)
    - |path|
  }

  /** A "testing" path loses to any path that mentions neither "testing" nor
      "dynamics_only", unless that one is at least 500 characters longer. */
  lemma TestingLoses(testing: string, other: string)
    requires Contains(Lower(testing), "testing")
    requires !Contains(Lower(other), "testing") && !Contains(Lower(other), "dynamics_only")
    requires |other| < |testing| + 500
    ensures Score(other) > Score(testing)
  {
  }

  /** Between two paths that agree on everything else, the one with a date
      stamp wins unless it is at least 1000 characters longer. */
  lemma DateStampWins(dated: string, plain: string)
    requires |dated| < |plain| + 1000 && HasDateStamp(dated) && !HasDateStamp(plain)
    requires HasVersionTag(dated) == HasVersionTag(plain)
    requires Contains(Lower(dated), "testing") == Contains(Lower(plain), "testing")
    requires Contains(Lower(dated), "dynamics_only") == Contains(Lower(plain), "dynamics_only")
    ensures Score(dated) > Score(plain)
  {
  }

  // ---------------------------------------------------------------------
  // Grouping by component

  function Names(cs: seq<Candidate>): seq<string> {
    seq(|cs|, i requires 0 <= i < |cs| => cs[i].1)
  }

  /** The keys of `grouped`: every component once, by first appearance. */
  function Components(cs: seq<Candidate>): seq<string> {
    Dedup(Names(cs))
  }

  /** `grouped[comp]`: the candidates of one component, in input order. */
  function Versions(cs: seq<Candidate>, comp: string): seq<Candidate>
    decreases |cs|
  {
    if cs == [] then []
    else
      var rest := Versions(cs[..|cs| - 1], comp);
      if cs[|cs| - 1].1 == comp then rest + [cs[|cs| - 1]] else rest
  }

  lemma NamesAppend(cs: seq<Candidate>, c: Candidate)
    ensures Names(cs + [c]) == Names(cs) + [c.1]
  {
  }

  lemma VersionsAppend(cs: seq<Candidate>, c: Candidate, comp: string)
    ensures Versions(cs + [c], comp) == Versions(cs, comp) + (if c.1 == comp then [c] else [])
  {
    assert (cs + [c])[..|cs|] == cs;
  }

  /** The versions of a component are the input pairs with that component
      name, and there is one at least when the name occurs. */
  lemma {:induction false} VersionsSpec(cs: seq<Candidate>, comp: string)
    ensures forall v :: v in Versions(cs, comp) ==> v in cs && v.1 == comp
    ensures forall v :: v in cs && v.1 == comp ==> v in Versions(cs, comp)
    ensures comp in Names(cs) <==> |Versions(cs, comp)| > 0
    decreases |cs|
  {
    if cs != [] {
      var init := cs[..|cs| - 1];
      VersionsSpec(init, comp);
      assert cs == init + [cs[|cs| - 1]];
      NamesAppend(init, cs[|cs| - 1]);
    }
  }

  // ---------------------------------------------------------------------
  // Picking one version

  /** The version the stable descending sort puts first: the earliest one
      of maximal score. */
  function BestIndex(vs: seq<Candidate>): (b: nat)
    requires |vs| > 0
    ensures b < |vs|
    decreases |vs|
  {
    if |vs| == 1 then 0
    else
      var b := BestIndex(vs[..|vs| - 1]);
      if Score(vs[|vs| - 1].0) > Score(vs[b].0) then |vs| - 1 else b
  }

  /** The chosen version scores at least as well as every version, and
      strictly better than every earlier one. */
  lemma {:induction false} BestIndexSpec(vs: seq<Candidate>)
    requires |vs| > 0
    ensures forall k :: 0 <= k < |vs| ==> Score(vs[k].0) <= Score(vs[BestIndex(vs)].0)
    ensures forall k :: 0 <= k < BestIndex(vs) ==> Score(vs[k].0) < Score(vs[BestIndex(vs)].0)
    decreases |vs|
  {
    if |vs| > 1 {
      var init := vs[..|vs| - 1];
      BestIndexSpec(init);
      assert forall k :: 0 <= k < |init| ==> init[k] == vs[k];
    }
  }

  /** What a group contributes: itself when it has one version, else its
      best version. */
  function Choose(vs: seq<Candidate>): seq<Candidate> {
    if |vs| == 1 then vs
    else if vs == [] then []
    else [vs[BestIndex(vs)]]
  }

  function ChooseAll(cs: seq<Candidate>, comps: seq<string>): seq<Candidate>
    decreases |comps|
  {
    if comps == [] then []
    else ChooseAll(cs, comps[..|comps| - 1]) + Choose(Versions(cs, comps[|comps| - 1]))
  }

  function Deduplicated(cs: seq<Candidate>): seq<Candidate> {
    ChooseAll(cs, Components(cs))
  }

  /** The best version of a non-empty group. */
  function Pick(vs: seq<Candidate>): Candidate
    requires |vs| > 0
  {
    vs[BestIndex(vs)]
  }

  lemma ChooseIsPick(vs: seq<Candidate>)
    requires |vs| > 0
    ensures Choose(vs) == [Pick(vs)]
  {
    if |vs| == 1 {
      assert BestIndex(vs) == 0;
    }
  }

  lemma ChooseAllSnoc(cs: seq<Candidate>, comps: seq<string>, c: string)
    ensures ChooseAll(cs, comps + [c]) == ChooseAll(cs, comps) + Choose(Versions(cs, c))
  {
    assert (comps + [c])[..|comps|] == comps;
  }

  lemma ChooseAllStep(cs: seq<Candidate>, comps: seq<string>)
    requires comps != [] && |Versions(cs, comps[|comps| - 1])| > 0
    ensures ChooseAll(cs, comps) == ChooseAll(cs, comps[..|comps| - 1]) + [Pick(Versions(cs, comps[|comps| - 1]))]
  {
    ChooseIsPick(Versions(cs, comps[|comps| - 1]));
  }

  lemma {:induction false} ChooseAllSpec(cs: seq<Candidate>, comps: seq<string>)
    requires forall n :: 0 <= n < |comps| ==> |Versions(cs, comps[n])| > 0
    ensures |ChooseAll(cs, comps)| == |comps|
    ensures forall n :: 0 <= n < |comps| ==> ChooseAll(cs, comps)[n] == Pick(Versions(cs, comps[n]))
    decreases |comps|
  {
    if comps != [] {
      var k := |comps| - 1;
      var init := comps[..k];
      assert forall n :: 0 <= n < k ==> init[n] == comps[n];
      ChooseAllSpec(cs, init);
      ChooseAllStep(cs, comps);
      var r, prev := ChooseAll(cs, comps), ChooseAll(cs, init);
      forall n | 0 <= n < k
        ensures r[n] == Pick(Versions(cs, comps[n]))
      {
        assert r[n] == prev[n];
        assert init[n] == comps[n];
      }
    }
  }

  /** One output pair per distinct component, in order of first appearance;
      each is an input pair of that component; a single version is kept as
      it is; otherwise the kept one scores at least as well as every other
      version and strictly better than every earlier one. */
  lemma DeduplicatedSpec(cs: seq<Candidate>, n: nat)
    requires n < |Components(cs)|
    ensures |Deduplicated(cs)| == |Components(cs)|
    ensures var r := Deduplicated(cs)[n];
      r.1 == Components(cs)[n] && r in cs
    ensures var vs := Versions(cs, Components(cs)[n]);
      |vs| == 1 ==> Deduplicated(cs)[n] == vs[0]
    ensures var vs := Versions(cs, Components(cs)[n]);
      |vs| > 0 && Deduplicated(cs)[n] == vs[BestIndex(vs)]
    ensures forall v :: v in Versions(cs, Components(cs)[n]) ==> Score(v.0) <= Score(Deduplicated(cs)[n].0)
  {
    var comps := Components(cs);
    ComponentsHaveVersions(cs);
    ChooseAllSpec(cs, comps);
    VersionsSpec(cs, comps[n]);
    PickIsBest(Versions(cs, comps[n]));
  }

  /** Every component name has at least one version. */
  lemma ComponentHasVersions(cs: seq<Candidate>, m: nat)
    requires m < |Components(cs)|
    ensures |Versions(cs, Components(cs)[m])| > 0
  {
    DedupElements(Names(cs));
    VersionsSpec(cs, Components(cs)[m]);
  }

  lemma ComponentsHaveVersions(cs: seq<Candidate>)
    ensures forall m :: 0 <= m < |Components(cs)| ==> |Versions(cs, Components(cs)[m])| > 0
  {
    forall m | 0 <= m < |Components(cs)|
      ensures |Versions(cs, Components(cs)[m])| > 0
    {
      ComponentHasVersions(cs, m);
    }
  }

  lemma PickIsBest(vs: seq<Candidate>)
    requires |vs| > 0
    ensures Pick(vs) in vs
    ensures forall v :: v in vs ==> Score(v.0) <= Score(Pick(vs).0)
  {
    BestIndexSpec(vs);
    forall v | v in vs ensures Score(v.0) <= Score(Pick(vs).0) {
      var k :| 0 <= k < |vs| && vs[k] == v;
    }
  }

  /** The component names of the output are the input's component names,
      each once, in order of first appearance. */
  lemma DeduplicatedNames(cs: seq<Candidate>)
    ensures Names(Deduplicated(cs)) == Dedup(Names(cs))
  {
    var r := Deduplicated(cs);
    if |Components(cs)| > 0 {
      DeduplicatedSpec(cs, 0);
    }
    forall n | 0 <= n < |r|
      ensures r[n].1 == Components(cs)[n]
    {
      DeduplicatedSpec(cs, n);
    }
  }

  // ---------------------------------------------------------------------
  // The loops

  /** The scoring loop with the sort and `[0]`: the first version of
      maximal score. */
  method PickBest(vs: seq<Candidate>) returns (b: nat)
    requires |vs| > 0
    ensures b == BestIndex(vs)
  {
    b := 0;
    var k := 1;
    while k < |vs|
      invariant 1 <= k <= |vs|
      invariant b == BestIndex(vs[..k])
    {
      BestIndexStep(vs, k);
      if Score(vs[k].0) > Score(vs[b].0) {
        b := k;
      }
      k := k + 1;
    }
    assert vs[..k] == vs;
  }

  /** One more version of the scoring loop. */
  lemma BestIndexStep(vs: seq<Candidate>, k: nat)
    requires 1 <= k < |vs|
    ensures BestIndex(vs[..k]) < k
    ensures var b := BestIndex(vs[..k]);
      BestIndex(vs[..k + 1]) == if Score(vs[k].0) > Score(vs[b].0) then k else b
  {
    var b := BestIndex(vs[..k]);
    assert vs[..k + 1][..k] == vs[..k];
    assert vs[..k][b] == vs[b];
    assert vs[..k + 1][k] == vs[k];
  }

  /** `grouped` holds, in first-appearance order, every component of cs
      with its versions. */
  ghost predicate GroupedAs(grouped: Dict<string, seq<Candidate>>, cs: seq<Candidate>) {
    Keys(grouped) == Components(cs) &&
    forall n :: 0 <= n < |grouped| ==> grouped[n].1 == Versions(cs, grouped[n].0)
  }

  /** A new component opens a group of its own at the end. */
  lemma GroupNew(grouped: Dict<string, seq<Candidate>>, prefix: seq<Candidate>, c: Candidate)
    requires GroupedAs(grouped, prefix) && c.1 !in Keys(grouped)
    ensures GroupedAs(grouped + [(c.1, [c])], prefix + [c])
  {
    var g := grouped + [(c.1, [c])];
    NamesAppend(prefix, c);
    assert (Names(prefix) + [c.1])[..|Names(prefix)|] == Names(prefix);
    DedupElements(Names(prefix));
    VersionsSpec(prefix, c.1);
    KeysAppend(grouped, (c.1, [c]));
    forall n | 0 <= n < |g|
      ensures g[n].1 == Versions(prefix + [c], g[n].0)
    {
      VersionsAppend(prefix, c, g[n].0);
      if n < |grouped| {
        assert Keys(grouped)[n] == grouped[n].0;
      }
    }
  }

  /** A known component's group grows by the new candidate; the others stay. */
  lemma GroupExisting(grouped: Dict<string, seq<Candidate>>, prefix: seq<Candidate>, c: Candidate, idx: nat)
    requires GroupedAs(grouped, prefix) && idx < |grouped| && Keys(grouped)[idx] == c.1
    ensures GroupedAs(grouped[idx := (c.1, grouped[idx].1 + [c])], prefix + [c])
  {
    var g := grouped[idx := (c.1, grouped[idx].1 + [c])];
    NamesAppend(prefix, c);
    assert (Names(prefix) + [c.1])[..|Names(prefix)|] == Names(prefix);
    DedupDistinct(Names(prefix));
    assert Keys(g) == Keys(grouped);
    forall n | 0 <= n < |g|
      ensures g[n].1 == Versions(prefix + [c], g[n].0)
    {
      VersionsAppend(prefix, c, g[n].0);
      assert Keys(grouped)[n] == grouped[n].0;
    }
  }

  /** The grouping loop: `grouped` holds each component once, in order of
      first appearance, with its versions so far. */
  method GroupByComponent(cs: seq<Candidate>) returns (grouped: Dict<string, seq<Candidate>>)
    ensures Keys(grouped) == Components(cs)
    ensures forall n :: 0 <= n < |grouped| ==> grouped[n].1 == Versions(cs, grouped[n].0)
  {
    grouped := [];
    var i := 0;
    while i < |cs|
      invariant 0 <= i <= |cs|
      invariant GroupedAs(grouped, cs[..i])
    {
      var c := cs[i];
      assert cs[..i + 1] == cs[..i] + [c];
      if c.1 !in Keys(grouped) {
        GroupNew(grouped, cs[..i], c);
        grouped := grouped + [(c.1, [c])];
      } else {
        var idx := IndexOf(Keys(grouped), c.1);
        GroupExisting(grouped, cs[..i], c, idx);
        grouped := grouped[idx := (c.1, grouped[idx].1 + [c])];
      }
      i := i + 1;
    }
    assert cs[..i] == cs;
  }

  /** The body of the loop of `deduplicate_urdfs` for one component: a
      single version as it is, otherwise the best one. */
  method ChooseOne(versions: seq<Candidate>) returns (r: seq<Candidate>)
    requires |versions| > 0
    ensures r == Choose(versions)
  {
    if |versions| == 1 {
      r := versions;
    } else {
      var b := PickBest(versions);
      r := [versions[b]];
    }
  }

  /** `deduplicate_urdfs` */
  method Deduplicate(cs: seq<Candidate>) returns (deduped: seq<Candidate>)
    ensures deduped == Deduplicated(cs)
  {
    var grouped := GroupByComponent(cs);
    ghost var ks := Keys(grouped);
    deduped := [];
    var n := 0;
    while n < |grouped|
      invariant 0 <= n <= |grouped|
      invariant deduped == ChooseAll(cs, ks[..n])
    {
      var (comp, versions) := grouped[n];
      assert ks[..n + 1] == ks[..n] + [comp];
      ChooseAllSnoc(cs, ks[..n], comp);
      ComponentHasVersions(cs, n);
      var chosen := ChooseOne(versions);
      deduped := deduped + chosen;
      n := n + 1;
    }
    assert ks[..n] == ks;
  }
}
