/** A scan of the artifacts against an advisory service: what is asked, and what the exit code
    says about the answers. */
module CatalogScan {
  import opened Options
  import opened SbomScanner

  /** An artifact with the version it is scanned at, when that is not its own. */
  datatype Target = Target(artifact: Scanned, scannedVersion: Option<string>)
  datatype Query = Query(coordinate: string, version: string)
  datatype Finding = Finding(target: Target, id: string)

  /** The service answers with the advisories of each query, or not at all. */
  type Service = seq<Query> -> Option<seq<seq<string>>>

  const CLEAN := 0
  const FOUND := 1
  const FAILED := 2

  function VersionAsked(t: Target): string {
    if t.scannedVersion.Some? then t.scannedVersion.value else t.artifact.version
  }

  function Queries(ts: seq<Target>): seq<Query> {
    seq(|ts|, i requires 0 <= i < |ts| => Query(ts[i].artifact.coordinate, VersionAsked(ts[i])))
  }

  predicate AnyRuntime(ts: seq<Target>) {
    exists t :: t in ts && t.artifact.runtimeVersioned
  }

  function Resolved(t: Target, release: string): Target {
    if t.artifact.runtimeVersioned then t.(scannedVersion := Some(release)) else t
  }

  /** Points the artifacts of the runtime at a released version. Nothing is fetched when there are
      none, and nothing changes when there is no release. */
  method ResolveRuntimeVersions(targets: array<Target>, latest: Option<string>) returns (ok: bool)
    modifies targets
    ensures ok <==> (AnyRuntime(old(targets[..])) ==> latest.Some?)
    ensures forall i :: 0 <= i < targets.Length ==>
              targets[i] == if latest.Some? then Resolved(old(targets[i]), latest.value) else old(targets[i])
  {
    var i := 0;
    while i < targets.Length && !targets[i].artifact.runtimeVersioned
      invariant 0 <= i <= targets.Length
      invariant forall j :: 0 <= j < i ==> !targets[j].artifact.runtimeVersioned
    {
      i := i + 1;
    }
    if i == targets.Length {
      return true;
    }
    assert targets[..][i].artifact.runtimeVersioned;
    if latest.None? {
      return false;
    }
    i := 0;
    while i < targets.Length
      invariant 0 <= i <= targets.Length
      invariant forall j :: 0 <= j < i ==> targets[j] == Resolved(old(targets[j]), latest.value)
      invariant forall j :: i <= j < targets.Length ==> targets[j] == old(targets[j])
    {
      targets[i] := Resolved(targets[i], latest.value);
      i := i + 1;
    }
    ok := true;
  }

  predicate IsFinding(ts: seq<Target>, answers: seq<seq<string>>, f: Finding, i: int) {
    0 <= i < |ts| && i < |answers| && f.target == ts[i] && f.id in answers[i]
  }

  /** The answers matched with the targets, as far as both reach. */
  function Findings(ts: seq<Target>, answers: seq<seq<string>>, n: nat): seq<Finding>
    requires n <= |ts| && n <= |answers|
  {
    if n == 0 then []
    else Findings(ts, answers, n - 1) + FindingsOf(ts[n - 1], answers[n - 1])
  }

  function FindingsOf(t: Target, ids: seq<string>): seq<Finding> {
    seq(|ids|, j requires 0 <= j < |ids| => Finding(t, ids[j]))
  }

  function Reach(ts: seq<Target>, answers: seq<seq<string>>): nat {
    if |ts| <= |answers| then |ts| else |answers|
  }

  method Match(ts: seq<Target>, answers: seq<seq<string>>) returns (findings: seq<Finding>)
    ensures findings == Findings(ts, answers, Reach(ts, answers))
  {
    findings := [];
    var i := 0;
    while i < |ts| && i < |answers|
      invariant 0 <= i <= Reach(ts, answers)
      invariant findings == Findings(ts, answers, i)
    {
      var j := 0;
      while j < |answers[i]|
        invariant 0 <= j <= |answers[i]|
        invariant findings == Findings(ts, answers, i) + FindingsOf(ts[i], answers[i])[..j]
      {
        findings := findings + [Finding(ts[i], answers[i][j])];
        j := j + 1;
      }
      i := i + 1;
    }
  }

  lemma {:induction false} FindingsMeaning(ts: seq<Target>, answers: seq<seq<string>>, n: nat, f: Finding)
    requires n <= |ts| && n <= |answers|
    ensures f in Findings(ts, answers, n) <==> exists i :: i < n && IsFinding(ts, answers, f, i)
  {
    if n > 0 {
      FindingsMeaning(ts, answers, n - 1, f);
      var last := FindingsOf(ts[n - 1], answers[n - 1]);
      if IsFinding(ts, answers, f, n - 1) {
        var j :| 0 <= j < |answers[n - 1]| && answers[n - 1][j] == f.id;
        assert last[j] == f;
      }
      assert f in last ==> IsFinding(ts, answers, f, n - 1);
    }
  }

  lemma {:induction false} NoFindings(ts: seq<Target>, answers: seq<seq<string>>, n: nat)
    requires n <= |ts| && n <= |answers|
    ensures Findings(ts, answers, n) == [] <==> forall i :: 0 <= i < n ==> answers[i] == []
  {
    if n > 0 {
      NoFindings(ts, answers, n - 1);
      assert |FindingsOf(ts[n - 1], answers[n - 1])| == |answers[n - 1]|;
    }
  }

  function Partition(fs: seq<Finding>, runtime: bool): seq<Finding> {
    if fs == [] then []
    else (if fs[0].target.artifact.runtimeVersioned == runtime then [fs[0]] else []) + Partition(fs[1..], runtime)
  }

  lemma PartitionStarts(fs: seq<Finding>, runtime: bool)
    requires fs != []
    ensures multiset(Partition(fs, runtime)) ==
            multiset(Partition(fs[1..], runtime))
            + if fs[0].target.artifact.runtimeVersioned == runtime then multiset{fs[0]} else multiset{}
  {}

  lemma {:induction false} PartitionSides(fs: seq<Finding>, runtime: bool, f: Finding)
    requires f in Partition(fs, runtime)
    ensures f.target.artifact.runtimeVersioned == runtime
  {
    if f in Partition(fs[1..], runtime) {
      PartitionSides(fs[1..], runtime, f);
    }
  }

  lemma {:induction false} PartitionSum(fs: seq<Finding>)
    ensures multiset(Partition(fs, false)) + multiset(Partition(fs, true)) == multiset(fs)
  {
    if fs == [] {
      assert Partition(fs, false) == [] && Partition(fs, true) == [];
    } else {
      hide Partition;
      PartitionSum(fs[1..]);
      PartitionStarts(fs, false);
      PartitionStarts(fs, true);
      FindingsStart(fs);
      assert multiset(Partition(fs, false)) + multiset(Partition(fs, true)) == multiset(fs);
    }
    hide Partition;
  }

  lemma FindingsStart(fs: seq<Finding>)
    requires fs != []
    ensures multiset(fs) == multiset{fs[0]} + multiset(fs[1..])
  {
    assert fs == [fs[0]] + fs[1..];
  }

  /** The two tables of the report hold every finding once, on its own side. */
  lemma PartitionKeepsAll(fs: seq<Finding>)
    ensures multiset(Partition(fs, false)) + multiset(Partition(fs, true)) == multiset(fs)
    ensures forall runtime, f :: f in Partition(fs, runtime) ==> f.target.artifact.runtimeVersioned == runtime
  {
    PartitionSum(fs);
    hide Partition;
    forall runtime, f | f in Partition(fs, runtime)
      ensures f.target.artifact.runtimeVersioned == runtime
    {
      PartitionSides(fs, runtime, f);
    }
  }

  /** The artifacts as they are asked about, once the release is known. */
  function Targets(artifacts: seq<Scanned>, latest: Option<string>): seq<Target> {
    seq(|artifacts|, i requires 0 <= i < |artifacts| =>
      Target(artifacts[i], if artifacts[i].runtimeVersioned then latest else None))
  }

  predicate Askable(artifacts: seq<Scanned>, latest: Option<string>) {
    artifacts != [] && ((exists a :: a in artifacts && a.runtimeVersioned) ==> latest.Some?)
  }

  function Answer(artifacts: seq<Scanned>, latest: Option<string>, service: Service): Option<seq<seq<string>>> {
    service(Queries(Targets(artifacts, latest)))
  }

  /** The findings of a scan, none when it fails. */
  function Found(artifacts: seq<Scanned>, latest: Option<string>, service: Service): seq<Finding> {
    var answer, ts := Answer(artifacts, latest, service), Targets(artifacts, latest);
    if Askable(artifacts, latest) && answer.Some? then Findings(ts, answer.value, Reach(ts, answer.value)) else []
  }

  function ExitCode(artifacts: seq<Scanned>, latest: Option<string>, service: Service): int {
    if !Askable(artifacts, latest) || Answer(artifacts, latest, service).None? then FAILED
    else if Found(artifacts, latest, service) != [] then FOUND
    else CLEAN
  }

  /** The scan fails when there is nothing to ask about, no release to ask about, or no answer.
      Otherwise the tables hold the findings, each on its own side. */
  method Run(artifacts: seq<Scanned>, latest: Option<string>, service: Service)
    returns (code: int, pinned: seq<Finding>, camel: seq<Finding>)
    ensures code == ExitCode(artifacts, latest, service)
    ensures code == 2 <==> !Askable(artifacts, latest) || Answer(artifacts, latest, service).None?
    ensures code == 0 <==>
            && Askable(artifacts, latest) && Answer(artifacts, latest, service).Some?
            && AllClean(Answer(artifacts, latest, service).value, |artifacts|)
    ensures code == 1 <==> pinned != [] || camel != []
    ensures pinned == Partition(Found(artifacts, latest, service), false)
    ensures camel == Partition(Found(artifacts, latest, service), true)
  {
    CleanScan(artifacts, latest, service);
    PartitionKeepsAll(Found(artifacts, latest, service));
    pinned, camel := [], [];
    if artifacts == [] {
      return FAILED, pinned, camel;
    }
    var targets := new Target[|artifacts|](i requires 0 <= i < |artifacts| => Target(artifacts[i], None));
    ghost var unresolved := targets[..];
    RuntimeTargets(artifacts, unresolved);
    var ok := ResolveRuntimeVersions(targets, latest);
    if !ok {
      return FAILED, pinned, camel;
    }
    var ts := targets[..];
    assert ts == Targets(artifacts, latest);
    var answer := service(Queries(ts));
    if answer.None? {
      return FAILED, pinned, camel;
    }
    var findings := Match(ts, answer.value);
    pinned, camel := Partition(findings, false), Partition(findings, true);
    assert |findings| == |multiset(findings)|;
    code := if findings != [] then FOUND else CLEAN;
  }

  lemma RuntimeTargets(artifacts: seq<Scanned>, ts: seq<Target>)
    requires |ts| == |artifacts| && forall i :: 0 <= i < |ts| ==> ts[i] == Target(artifacts[i], None)
    ensures AnyRuntime(ts) <==> exists a :: a in artifacts && a.runtimeVersioned
  {
    forall a | a in artifacts && a.runtimeVersioned
      ensures AnyRuntime(ts)
    {
      var i :| 0 <= i < |artifacts| && artifacts[i] == a;
      assert ts[i] in ts;
    }
  }

  // ----- what the exit code says

  predicate AllClean(answers: seq<seq<string>>, n: nat) {
    forall i :: 0 <= i < n && i < |answers| ==> answers[i] == []
  }

  /** A scan is clean exactly when it could ask, was answered, and no matched answer names an
      advisory; it never asks about a runtime artifact at the version of the catalog. */
  lemma CleanScan(artifacts: seq<Scanned>, latest: Option<string>, service: Service)
    ensures ExitCode(artifacts, latest, service) == 0 <==>
            && Askable(artifacts, latest) && Answer(artifacts, latest, service).Some?
            && AllClean(Answer(artifacts, latest, service).value, |artifacts|)
    ensures Askable(artifacts, latest) ==>
              forall i :: 0 <= i < |artifacts| ==>
                Queries(Targets(artifacts, latest))[i] ==
                Query(artifacts[i].coordinate,
                      if artifacts[i].runtimeVersioned then latest.value else artifacts[i].version)
  {
    var ts, answer := Targets(artifacts, latest), Answer(artifacts, latest, service);
    if answer.Some? {
      NoFindings(ts, answer.value, Reach(ts, answer.value));
    }
  }

  /** The service answered for artifact i, and the answer names no advisory. */
  predicate VouchedFor(artifacts: seq<Scanned>, latest: Option<string>, service: Service, i: nat) {
    var answer := Answer(artifacts, latest, service);
    answer.Some? && i < |answer.value| && answer.value[i] == []
  }

  /** After a clean scan every artifact is vouched for exactly when there are at least as many
      answers as artifacts: the others go unnoticed. */
  lemma CleanVouchesForAnsweredOnly(artifacts: seq<Scanned>, latest: Option<string>, service: Service)
    requires ExitCode(artifacts, latest, service) == 0
    ensures (forall i :: 0 <= i < |artifacts| ==> VouchedFor(artifacts, latest, service, i))
            <==> |artifacts| <= |Answer(artifacts, latest, service).value|
  {
    CleanScan(artifacts, latest, service);
    var n := |artifacts|;
    hide ExitCode, Answer, Askable;
    if forall i :: 0 <= i < n ==> VouchedFor(artifacts, latest, service, i) {
      assert n > 0 ==> VouchedFor(artifacts, latest, service, n - 1);
    }
  }

  /** A service that answers nothing at all for the one artifact asked about leaves the scan
      clean. */
  lemma UnansweredIsClean()
    ensures var artifacts := [Scanned("org.example:lib", "1.0", "a-source", false)];
            var service: Service := _ => Some([]);
            && ExitCode(artifacts, None, service) == 0
            && !VouchedFor(artifacts, None, service, 0)
  {
    var artifacts := [Scanned("org.example:lib", "1.0", "a-source", false)];
    CleanScan(artifacts, None, _ => Some([]));
  }
}
