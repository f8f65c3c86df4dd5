/**
 * The templated Office rule, `OfficeRegistryRegExSingleDWORD`.
 *
 * One rule names a path template with two `%s` holes, a list of Office versions and a
 * list of Office apps. Every operation expands it into one single-value rule per
 * (version, app) pair, versions outer and apps inner, and hands each of them to the
 * single-value rule's own `Harden` or `IsHardened`.
 */
module Office {
  import opened Wrappers
  import opened Registry
  import opened Format

  /** The fields of an `OfficeRegistryRegExSingleDWORD`. */
  datatype RegExSingleDWORD = RegExSingleDWORD(
    rootKey: RootKey,
    pathRegEx: string,
    valueName: string,
    hardenedValue: DWord,
    officeApps: seq<string>,
    officeVersions: seq<string>,
    shortName: string,
    longName: string,
    description: string)
  {
    /** The short name of the harden item. */
    function Name(): string { shortName }

    /** The long name of the harden item. */
    function LongName(): string { longName }

    /** The description of the harden item. */
    function Description(): string { description }
  }

  // ---------------------------------------------------------------------------
  // Expansion

  /** The (version, app) pairs, versions outer and apps inner; nothing is deduplicated. */
  function Grid(versions: seq<string>, apps: seq<string>): seq<(string, string)>
    decreases |versions|
  {
    if versions == [] then []
    else seq(|apps|, j requires 0 <= j < |apps| => (versions[0], apps[j])) + Grid(versions[1..], apps)
  }

  /** The concrete path for one (version, app) pair. */
  function PathFor(t: RegExSingleDWORD, version: string, app: string): string {
    Sprintf(t.pathRegEx, [version, app])
  }

  /** The single-value rule that `Harden` builds for one pair: every field but the path is the template's. */
  function HardenTarget(t: RegExSingleDWORD, version: string, app: string): SingleValueDWORD {
    SingleValueDWORD(t.rootKey, PathFor(t, version, app), t.valueName, t.hardenedValue,
                     t.shortName, t.longName, t.description)
  }

  /** The single-value rule that `IsHardened` builds for one pair: it carries no names. */
  function ProbeTarget(t: RegExSingleDWORD, version: string, app: string): SingleValueDWORD {
    SingleValueDWORD(t.rootKey, PathFor(t, version, app), t.valueName, t.hardenedValue, "", "", "")
  }

  /** The rules `Harden` visits, in visiting order. */
  function HardenTargets(t: RegExSingleDWORD): seq<SingleValueDWORD> {
    var g := Grid(t.officeVersions, t.officeApps);
    seq(|g|, k requires 0 <= k < |g| => HardenTarget(t, g[k].0, g[k].1))
  }

  /** The rules `IsHardened` probes, in probing order. */
  function ProbeTargets(t: RegExSingleDWORD): seq<SingleValueDWORD> {
    var g := Grid(t.officeVersions, t.officeApps);
    seq(|g|, k requires 0 <= k < |g| => ProbeTarget(t, g[k].0, g[k].1))
  }

  lemma {:induction false} GridLength(versions: seq<string>, apps: seq<string>)
    ensures |Grid(versions, apps)| == |versions| * |apps|
    decreases |versions|
  {
    if versions != [] {
      GridLength(versions[1..], apps);
      assert |versions| * |apps| == |apps| + (|versions| - 1) * |apps|;
    }
  }

  /** Pair (i, j) sits at position i * |apps| + j. */
  lemma {:induction false} GridAt(versions: seq<string>, apps: seq<string>, i: nat, j: nat)
    requires i < |versions| && j < |apps|
    ensures i * |apps| + j < |Grid(versions, apps)|
    ensures Grid(versions, apps)[i * |apps| + j] == (versions[i], apps[j])
    decreases i
  {
    if i > 0 {
      GridAt(versions[1..], apps, i - 1, j);
      assert i * |apps| + j == |apps| + ((i - 1) * |apps| + j);
    }
  }

  /** Every position k of the grid is i * |apps| + j for some pair (i, j). */
  lemma {:induction false} GridSplit(versions: seq<string>, apps: seq<string>, k: nat) returns (i: nat, j: nat)
    requires k < |Grid(versions, apps)|
    ensures i < |versions| && j < |apps| && k == i * |apps| + j
    decreases |versions|
  {
    if k < |apps| {
      i, j := 0, k;
    } else {
      var i', j' := GridSplit(versions[1..], apps, k - |apps|);
      i, j := i' + 1, j';
      assert (i' + 1) * |apps| == i' * |apps| + |apps|;
    }
  }

  /** Position i * cols + j of a row-major grid, with j at most one past the row's end, stays within the grid. */
  lemma RowBound(i: nat, j: nat, rows: nat, cols: nat)
    requires i < rows && j <= cols
    ensures i * cols + j <= rows * cols
  {
    assert (i + 1) * cols <= rows * cols;
  }

  /** The position one past row i is where row i + 1 starts, and it stays within the grid. */
  lemma NextRow(i: nat, rows: nat, cols: nat)
    requires i < rows
    ensures i * cols + cols == (i + 1) * cols <= rows * cols
  {
    RowBound(i, cols, rows, cols);
  }

  /** The expansion has |versions| * |apps| targets, for `Harden` and for `IsHardened` alike. */
  lemma ExpansionSize(t: RegExSingleDWORD)
    ensures |HardenTargets(t)| == |t.officeVersions| * |t.officeApps|
    ensures |ProbeTargets(t)| == |t.officeVersions| * |t.officeApps|
  {
    GridLength(t.officeVersions, t.officeApps);
  }

  /**
   * Version-major, app-minor order: target i * |apps| + j is the pair (versions[i], apps[j]),
   * and its path is the template with the version in the first hole and the app in the second.
   */
  lemma ExpansionOrder(t: RegExSingleDWORD, i: nat, j: nat)
    requires i < |t.officeVersions| && j < |t.officeApps|
    ensures i * |t.officeApps| + j < |HardenTargets(t)| == |ProbeTargets(t)|
    ensures HardenTargets(t)[i * |t.officeApps| + j] == HardenTarget(t, t.officeVersions[i], t.officeApps[j])
    ensures ProbeTargets(t)[i * |t.officeApps| + j] == ProbeTarget(t, t.officeVersions[i], t.officeApps[j])
    ensures HardenTargets(t)[i * |t.officeApps| + j].path == Sprintf(t.pathRegEx, [t.officeVersions[i], t.officeApps[j]])
  {
    GridAt(t.officeVersions, t.officeApps, i, j);
  }

  /** Conversely, every target comes from some (version, app) pair at its position. */
  lemma ExpansionFromPairs(t: RegExSingleDWORD, k: nat) returns (i: nat, j: nat)
    requires k < |HardenTargets(t)|
    ensures i < |t.officeVersions| && j < |t.officeApps| && k == i * |t.officeApps| + j
    ensures HardenTargets(t)[k] == HardenTarget(t, t.officeVersions[i], t.officeApps[j])
    ensures ProbeTargets(t)[k] == ProbeTarget(t, t.officeVersions[i], t.officeApps[j])
  {
    i, j := GridSplit(t.officeVersions, t.officeApps, k);
    GridAt(t.officeVersions, t.officeApps, i, j);
  }

  /**
   * Duplicates are not removed: pairs of equal versions and equal apps give equal targets,
   * each at its own position.
   */
  lemma DuplicatesKept(t: RegExSingleDWORD, i1: nat, j1: nat, i2: nat, j2: nat)
    requires i1 < |t.officeVersions| && i2 < |t.officeVersions|
    requires j1 < |t.officeApps| && j2 < |t.officeApps|
    requires t.officeVersions[i1] == t.officeVersions[i2] && t.officeApps[j1] == t.officeApps[j2]
    ensures i1 * |t.officeApps| + j1 < |HardenTargets(t)| && i2 * |t.officeApps| + j2 < |HardenTargets(t)|
    ensures HardenTargets(t)[i1 * |t.officeApps| + j1] == HardenTargets(t)[i2 * |t.officeApps| + j2]
    ensures ProbeTargets(t)[i1 * |t.officeApps| + j1] == ProbeTargets(t)[i2 * |t.officeApps| + j2]
  {
    ExpansionOrder(t, i1, j1);
    ExpansionOrder(t, i2, j2);
  }

  /**
   * Field pass-through: every target `Harden` builds has the template's root key, value name,
   * hardened value and names; only the path differs between targets. The targets `IsHardened`
   * builds have the same addresses and values in the same order, and empty names.
   */
  lemma TargetsPassThrough(t: RegExSingleDWORD)
    ensures |ProbeTargets(t)| == |HardenTargets(t)|
    ensures forall k :: 0 <= k < |HardenTargets(t)| ==>
      var r := HardenTargets(t)[k];
      && r.rootKey == t.rootKey && r.valueName == t.valueName && r.hardenedValue == t.hardenedValue
      && r.shortName == t.Name() && r.longName == t.LongName() && r.description == t.Description()
    ensures forall k, l :: 0 <= k < |HardenTargets(t)| && 0 <= l < |HardenTargets(t)| ==>
      HardenTargets(t)[k] == HardenTargets(t)[l].(path := HardenTargets(t)[k].path)
    ensures forall k :: 0 <= k < |ProbeTargets(t)| ==>
      ProbeTargets(t)[k] == HardenTargets(t)[k].(shortName := "", longName := "", description := "")
  {
  }

  // ---------------------------------------------------------------------------
  // Harden: sequential and fail-fast

  /** One call of a single-value rule's `Harden`: the rule and the flag it received. */
  datatype Call = Call(target: SingleValueDWORD, harden: bool)

  /** The registry after a run, its error (None for nil) and the calls made, in order. */
  datatype Outcome = Outcome(store: Store, err: Option<Error>, calls: seq<Call>)

  /** Calls `step` on each target in turn with the same flag, stopping at the first error. */
  function Run(ts: seq<SingleValueDWORD>, harden: bool, step: HardenStep, s: Store): Outcome
    decreases |ts|
  {
    if ts == [] then Outcome(s, None, [])
    else
      var r := step(ts[0], harden, s);
      if r.err.Some? then Outcome(r.store, r.err, [Call(ts[0], harden)])
      else
        var o := Run(ts[1..], harden, step, r.store);
        Outcome(o.store, o.err, [Call(ts[0], harden)] + o.calls)
  }

  /** What the k-th target's `Harden` returns, given that the targets before it all succeeded. */
  function StepAt(ts: seq<SingleValueDWORD>, harden: bool, step: HardenStep, s: Store, k: nat): StepResult
    requires k < |ts|
  {
    step(ts[k], harden, Run(ts[..k], harden, step, s).store)
  }

  /** A run over ts + us whose first part succeeds continues from where the first part left the registry. */
  lemma {:induction false} RunAppend(ts: seq<SingleValueDWORD>, us: seq<SingleValueDWORD>, harden: bool, step: HardenStep, s: Store)
    requires Run(ts, harden, step, s).err == None
    ensures var o := Run(ts, harden, step, s);
            var p := Run(us, harden, step, o.store);
            Run(ts + us, harden, step, s) == Outcome(p.store, p.err, o.calls + p.calls)
    decreases |ts|
  {
    if ts == [] {
      assert ts + us == us;
    } else {
      var r := step(ts[0], harden, s);
      assert (ts + us)[0] == ts[0] && (ts + us)[1..] == ts[1..] + us;
      RunAppend(ts[1..], us, harden, step, r.store);
    }
  }

  /** A successful step extends a successful prefix by one call. */
  lemma RunExtend(ts: seq<SingleValueDWORD>, harden: bool, step: HardenStep, s: Store, k: nat)
    requires k < |ts|
    requires Run(ts[..k], harden, step, s).err == None
    ensures var o := Run(ts[..k], harden, step, s);
            var r := StepAt(ts, harden, step, s, k);
            Run(ts[..k + 1], harden, step, s)
              == if r.err.Some? then Outcome(r.store, r.err, o.calls + [Call(ts[k], harden)])
                 else Outcome(r.store, None, o.calls + [Call(ts[k], harden)])
  {
    assert ts[..k + 1] == ts[..k] + [ts[k]];
    RunAppend(ts[..k], [ts[k]], harden, step, s);
    assert [ts[k]][1..] == [];
  }

  /**
   * Fail-fast: if the targets before k succeeded and target k fails, the run returns that error
   * unchanged, leaves the registry as target k's `Harden` left it (nothing is rolled back), and
   * invokes no target after k.
   */
  lemma RunFailFast(ts: seq<SingleValueDWORD>, harden: bool, step: HardenStep, s: Store, k: nat)
    requires k < |ts|
    requires Run(ts[..k], harden, step, s).err == None
    requires StepAt(ts, harden, step, s, k).err.Some?
    ensures var r := StepAt(ts, harden, step, s, k);
            Run(ts, harden, step, s)
              == Outcome(r.store, r.err, Run(ts[..k], harden, step, s).calls + [Call(ts[k], harden)])
  {
    var r := StepAt(ts, harden, step, s, k);
    var o := Run(ts[..k], harden, step, s);
    assert ts == ts[..k] + ts[k..];
    RunAppend(ts[..k], ts[k..], harden, step, s);
    assert ts[k..][0] == ts[k];
  }

  /**
   * The calls made are a prefix of the targets, in order, each with the run's flag; all targets
   * are called when the run returns nil, and at least one when it returns an error.
   */
  lemma {:induction false} RunCalls(ts: seq<SingleValueDWORD>, harden: bool, step: HardenStep, s: Store)
    ensures var o := Run(ts, harden, step, s);
            && |o.calls| <= |ts|
            && (forall k :: 0 <= k < |o.calls| ==> o.calls[k] == Call(ts[k], harden))
            && (o.err == None ==> |o.calls| == |ts|)
            && (o.err.Some? ==> |o.calls| >= 1)
    decreases |ts|
  {
    if ts != [] {
      var r := step(ts[0], harden, s);
      if r.err == None {
        RunCalls(ts[1..], harden, step, r.store);
      }
    }
  }

  /**
   * The error a run returns is the first error: every target before the last one called
   * returned nil, and the last one called returned the run's error and registry.
   */
  lemma {:induction false} RunErrorIsFirst(ts: seq<SingleValueDWORD>, harden: bool, step: HardenStep, s: Store)
    requires Run(ts, harden, step, s).err.Some?
    ensures var o := Run(ts, harden, step, s);
            && 1 <= |o.calls| <= |ts|
            && Run(ts[..|o.calls| - 1], harden, step, s).err == None
            && StepAt(ts, harden, step, s, |o.calls| - 1) == StepResult(o.store, o.err)
    decreases |ts|
  {
    var r := step(ts[0], harden, s);
    if r.err.Some? {
      assert ts[..0] == [];
    } else {
      var rest := ts[1..];
      RunErrorIsFirst(rest, harden, step, r.store);
      var o := Run(rest, harden, step, r.store);
      var n := |o.calls| - 1;
      assert ts[..n + 1] == [ts[0]] + rest[..n];
      assert ([ts[0]] + rest[..n])[1..] == rest[..n];
      assert ts[n + 1] == rest[n];
    }
  }

  /** A run returns nil exactly when every target's `Harden` returned nil. */
  lemma {:induction false} RunNilIff(ts: seq<SingleValueDWORD>, harden: bool, step: HardenStep, s: Store)
    ensures Run(ts, harden, step, s).err == None
            <==> forall k :: 0 <= k < |ts| ==> StepAt(ts, harden, step, s, k).err == None
  {
    var o := Run(ts, harden, step, s);
    if o.err.Some? {
      RunErrorIsFirst(ts, harden, step, s);
      assert StepAt(ts, harden, step, s, |o.calls| - 1).err.Some?;
    } else {
      forall k | 0 <= k < |ts| ensures StepAt(ts, harden, step, s, k).err == None {
        NilPrefix(ts, harden, step, s, k);
        RunExtend(ts, harden, step, s, k);
        NilPrefix(ts, harden, step, s, k + 1);
      }
    }
  }

  /** Every prefix of a run that returned nil returned nil. */
  lemma {:induction false} NilPrefix(ts: seq<SingleValueDWORD>, harden: bool, step: HardenStep, s: Store, k: nat)
    requires k <= |ts|
    requires Run(ts, harden, step, s).err == None
    ensures Run(ts[..k], harden, step, s).err == None
    decreases |ts|
  {
    if k > 0 {
      var r := step(ts[0], harden, s);
      NilPrefix(ts[1..], harden, step, r.store, k - 1);
      assert ts[..k][0] == ts[0] && ts[..k][1..] == ts[1..][..k - 1];
    }
  }

  /**
   * `Harden(harden)` on the registry `s0`: for each version, for each app, build the single-value
   * rule and call its `Harden` with the same flag; return the first error unchanged. `calls`
   * lists the single-value calls made, in order.
   */
  method Harden(t: RegExSingleDWORD, harden: bool, step: HardenStep, s0: Store)
    returns (s: Store, err: Option<Error>, ghost calls: seq<Call>)
    ensures s == Run(HardenTargets(t), harden, step, s0).store
    ensures err == Run(HardenTargets(t), harden, step, s0).err
    ensures calls == Run(HardenTargets(t), harden, step, s0).calls
  {
    ghost var ts := HardenTargets(t);
    ghost var done := 0;
    ExpansionSize(t);
    var versions, apps := t.officeVersions, t.officeApps;
    s := s0;
    calls := [];
    for i := 0 to |versions|
      invariant done == i * |apps| <= |ts|
      invariant Run(ts[..done], harden, step, s0) == Outcome(s, None, calls)
    {
      for j := 0 to |apps|
        invariant done == i * |apps| + j <= |ts|
        invariant Run(ts[..done], harden, step, s0) == Outcome(s, None, calls)
      {
        var path := Sprintf(t.pathRegEx, [versions[i], apps[j]]);
        var single := SingleValueDWORD(t.rootKey, path, t.valueName, t.hardenedValue,
                                       t.shortName, t.longName, t.description);
        ExpansionOrder(t, i, j);
        var r := step(single, harden, s);
        calls := calls + [Call(single, harden)];
        RunExtend(ts, harden, step, s0, done);
        if r.err.Some? {
          RunFailFast(ts, harden, step, s0, done);
          return r.store, r.err, calls;
        }
        s := r.store;
        done := done + 1;
        RowBound(i, j + 1, |versions|, |apps|);
      }
      NextRow(i, |versions|, |apps|);
    }
    assert ts[..done] == ts;
    err := None;
  }

  // ---------------------------------------------------------------------------
  // IsHardened: exhaustive AND

  /** Every target reports hardened on the registry s. */
  predicate AllHardened(ts: seq<SingleValueDWORD>, probe: HardenedProbe, s: Store) {
    forall k :: 0 <= k < |ts| ==> probe(ts[k], s)
  }

  /** Probing one more target ANDs its answer into the result so far. */
  lemma AllHardenedSnoc(ts: seq<SingleValueDWORD>, r: SingleValueDWORD, probe: HardenedProbe, s: Store)
    ensures AllHardened(ts + [r], probe, s) == (AllHardened(ts, probe, s) && probe(r, s))
  {
    assert forall k :: 0 <= k < |ts| ==> (ts + [r])[k] == ts[k];
    assert (ts + [r])[|ts|] == r;
  }

  /**
   * `IsHardened()` on the registry s: probes every expanded target, versions outer and apps
   * inner, with no early exit, and ANDs the answers. `probed` lists the probes made.
   */
  method IsHardened(t: RegExSingleDWORD, probe: HardenedProbe, s: Store) returns (hardened: bool, ghost probed: seq<SingleValueDWORD>)
    ensures hardened == AllHardened(ProbeTargets(t), probe, s)
    ensures probed == ProbeTargets(t)
  {
    ghost var ts := ProbeTargets(t);
    ExpansionSize(t);
    var versions, apps := t.officeVersions, t.officeApps;
    hardened := true;
    probed := [];
    for i := 0 to |versions|
      invariant |probed| == i * |apps| <= |ts|
      invariant probed == ts[..|probed|]
      invariant hardened == AllHardened(probed, probe, s)
    {
      for j := 0 to |apps|
        invariant |probed| == i * |apps| + j <= |ts|
        invariant probed == ts[..|probed|]
        invariant hardened == AllHardened(probed, probe, s)
      {
        var path := Sprintf(t.pathRegEx, [versions[i], apps[j]]);
        var single := SingleValueDWORD(t.rootKey, path, t.valueName, t.hardenedValue, "", "", "");
        ExpansionOrder(t, i, j);
        if !probe(single, s) {
          hardened := false;
        }
        AllHardenedSnoc(probed, single, probe, s);
        assert ts[..|probed| + 1] == ts[..|probed|] + [single];
        probed := probed + [single];
        RowBound(i, j + 1, |versions|, |apps|);
      }
      NextRow(i, |versions|, |apps|);
    }
    assert probed == ts;
  }

  // ---------------------------------------------------------------------------
  // Properties of the template rule

  /** With no versions or no apps, `Harden` invokes nothing and returns nil, and `IsHardened` is true. */
  lemma EmptyExpansion(t: RegExSingleDWORD, harden: bool, step: HardenStep, probe: HardenedProbe, s: Store)
    requires t.officeVersions == [] || t.officeApps == []
    ensures Run(HardenTargets(t), harden, step, s) == Outcome(s, None, [])
    ensures AllHardened(ProbeTargets(t), probe, s)
  {
    ExpansionSize(t);
    assert HardenTargets(t) == [];
  }

  /**
   * The calls `Harden` makes: call i * |apps| + j, when made, is the single-value rule for
   * (versions[i], apps[j]) with the caller's flag; a nil result means all pairs were called.
   */
  lemma HardenCallOrder(t: RegExSingleDWORD, harden: bool, step: HardenStep, s: Store, i: nat, j: nat)
    requires i < |t.officeVersions| && j < |t.officeApps|
    ensures var o := Run(HardenTargets(t), harden, step, s);
            && (o.err == None ==> |o.calls| == |t.officeVersions| * |t.officeApps|)
            && (i * |t.officeApps| + j < |o.calls| ==>
                  o.calls[i * |t.officeApps| + j] == Call(HardenTarget(t, t.officeVersions[i], t.officeApps[j]), harden))
  {
    RunCalls(HardenTargets(t), harden, step, s);
    ExpansionOrder(t, i, j);
    ExpansionSize(t);
  }

  /** `IsHardened` is true exactly when the rule for every (version, app) pair reports hardened. */
  lemma IsHardenedIffEveryPair(t: RegExSingleDWORD, probe: HardenedProbe, s: Store)
    ensures AllHardened(ProbeTargets(t), probe, s)
            <==> forall i, j :: 0 <= i < |t.officeVersions| && 0 <= j < |t.officeApps| ==>
                   probe(ProbeTarget(t, t.officeVersions[i], t.officeApps[j]), s)
  {
    var ts := ProbeTargets(t);
    if AllHardened(ts, probe, s) {
      forall i, j | 0 <= i < |t.officeVersions| && 0 <= j < |t.officeApps|
        ensures probe(ProbeTarget(t, t.officeVersions[i], t.officeApps[j]), s)
      {
        ExpansionOrder(t, i, j);
        ExpansionSize(t);
      }
    } else {
      var k :| 0 <= k < |ts| && !probe(ts[k], s);
      ExpansionSize(t);
      var i, j := ExpansionFromPairs(t, k);
    }
  }

  /**
   * No state at template level: whatever flag and registry two runs start from, the n-th call
   * of each names the same single-value rule, the n-th target of the expansion.
   */
  lemma SameTargetsEveryCall(t: RegExSingleDWORD, h1: bool, h2: bool, step: HardenStep, s1: Store, s2: Store, n: nat)
    requires n < |Run(HardenTargets(t), h1, step, s1).calls|
    requires n < |Run(HardenTargets(t), h2, step, s2).calls|
    ensures n < |HardenTargets(t)|
    ensures Run(HardenTargets(t), h1, step, s1).calls[n].target
            == Run(HardenTargets(t), h2, step, s2).calls[n].target
            == HardenTargets(t)[n]
  {
    RunCalls(HardenTargets(t), h1, step, s1);
    RunCalls(HardenTargets(t), h2, step, s2);
  }
}
