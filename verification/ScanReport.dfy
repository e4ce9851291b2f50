/** The report of a scan: what is asked, what the findings are, and in which order. */
module ScanReport {
  import opened Options
  import opened SbomScanner
  import opened CatalogScan

  // ----- what is asked

  /** The version an artifact is asked at and reported with. */
  ghost predicate AskedFor(q: Query, a: Scanned, latest: Option<string>) {
    && q.coordinate == a.coordinate
    && q.version == (if a.runtimeVersioned && latest.Some? then latest.value else a.version)
  }

  ghost predicate AskedForAll(qs: seq<Query>, artifacts: seq<Scanned>, latest: Option<string>) {
    |qs| == |artifacts| && forall i :: 0 <= i < |qs| ==> AskedFor(qs[i], artifacts[i], latest)
  }

  /** The service is asked once, one query for each artifact in their order. */
  lemma AnswerMeaning(artifacts: seq<Scanned>, latest: Option<string>, service: Service, qs: seq<Query>)
    requires AskedForAll(qs, artifacts, latest)
    ensures Answer(artifacts, latest, service) == service(qs)
  {
    var asked := Queries(Targets(artifacts, latest));
    forall i | 0 <= i < |qs|
      ensures asked[i] == qs[i]
    {
      assert AskedFor(qs[i], artifacts[i], latest);
    }
    assert asked == qs;
  }

  // ----- the findings in their order

  /** An advisory: the place of its artifact, and its place in the answer. */
  datatype Place = Place(artifact: nat, advisory: nat)

  predicate Before(p: Place, q: Place) {
    p.artifact < q.artifact || (p.artifact == q.artifact && p.advisory < q.advisory)
  }

  predicate InRange(answers: seq<seq<string>>, n: nat, p: Place) {
    p.artifact < n && p.artifact < |answers| && p.advisory < |answers[p.artifact]|
  }

  ghost predicate Reported(fs: seq<Finding>, ts: seq<Target>, answers: seq<seq<string>>, n: nat, ps: seq<Place>)
    requires n <= |ts|
  {
    && |ps| == |fs| && (forall k, l :: 0 <= k < l < |ps| ==> Before(ps[k], ps[l]))
    && (forall k :: 0 <= k < |ps| ==>
          && InRange(answers, n, ps[k])
          && fs[k] == Finding(ts[ps[k].artifact], answers[ps[k].artifact][ps[k].advisory]))
    && (forall p :: InRange(answers, n, p) ==> p in ps)
  }

  function PlacesOf(i: nat, n: nat): seq<Place> {
    seq(n, j requires 0 <= j < n => Place(i, j))
  }

  lemma ReportedMore(
      fs: seq<Finding>, ts: seq<Target>, answers: seq<seq<string>>, n: nat, ps: seq<Place>, qs: seq<Place>)
    requires n < |ts| && n < |answers| && Reported(fs, ts, answers, n, ps) && qs == PlacesOf(n, |answers[n]|)
    ensures Reported(fs + FindingsOf(ts[n], answers[n]), ts, answers, n + 1, ps + qs)
  {
    forall p | InRange(answers, n + 1, p)
      ensures p in ps + qs
    {
      if p.artifact == n {
        assert qs[p.advisory] == p;
      } else {
        assert InRange(answers, n, p);
      }
    }
  }

  /** Every advisory is reported once, with its artifact, artifact by artifact in the order of the
      answers. */
  lemma {:induction false} FindingsInOrder(ts: seq<Target>, answers: seq<seq<string>>, n: nat)
    returns (ps: seq<Place>)
    requires n <= |ts| && n <= |answers|
    ensures Reported(Findings(ts, answers, n), ts, answers, n, ps)
  {
    hide Reported, FindingsOf;
    if n == 0 {
      ps := [];
      NothingReported(ts, answers);
    } else {
      ps := FindingsInOrder(ts, answers, n - 1);
      var qs := PlacesOf(n - 1, |answers[n - 1]|);
      ReportedMore(Findings(ts, answers, n - 1), ts, answers, n - 1, ps, qs);
      ps := ps + qs;
    }
  }

  lemma NothingReported(ts: seq<Target>, answers: seq<seq<string>>)
    ensures Reported([], ts, answers, 0, [])
  {}

  // ----- the two tables

  ghost predicate Picked(fs: seq<Finding>, runtime: bool, table: seq<Finding>, ps: seq<nat>) {
    && |ps| == |table| && (forall k, l :: 0 <= k < l < |ps| ==> ps[k] < ps[l])
    && (forall k :: 0 <= k < |ps| ==> ps[k] < |fs| && table[k] == fs[ps[k]])
    && (forall i: nat :: i in ps <==> i < |fs| && fs[i].target.artifact.runtimeVersioned == runtime)
  }

  lemma {:induction false} PartitionConcat(a: seq<Finding>, b: seq<Finding>, runtime: bool)
    ensures Partition(a + b, runtime) == Partition(a, runtime) + Partition(b, runtime)
  {
    if a == [] {
      assert a + b == b;
    } else {
      assert (a + b)[1..] == a[1..] + b;
      PartitionConcat(a[1..], b, runtime);
    }
  }

  lemma PickedMore(fs: seq<Finding>, last: Finding, runtime: bool, table: seq<Finding>, ps: seq<nat>)
    requires Picked(fs, runtime, table, ps)
    ensures if last.target.artifact.runtimeVersioned == runtime
            then Picked(fs + [last], runtime, table + [last], ps + [|fs|]) else Picked(fs + [last], runtime, table, ps)
  {
    assert forall i :: 0 <= i < |fs| ==> (fs + [last])[i] == fs[i];
    assert forall i: nat :: i in ps + [|fs|] <==> i in ps || i == |fs|;
  }

  /** A table holds the findings of its side in their order. */
  lemma {:induction false} TableInOrder(fs: seq<Finding>, runtime: bool) returns (ps: seq<nat>)
    ensures Picked(fs, runtime, Partition(fs, runtime), ps)
  {
    hide Picked, Partition;
    if fs == [] {
      ps := [];
      NothingPicked(runtime);
    } else {
      var front, last := fs[..|fs| - 1], fs[|fs| - 1];
      assert fs == front + [last];
      PartitionConcat(front, [last], runtime);
      ps := TableInOrder(front, runtime);
      OneInTable(last, runtime);
      PickedMore(front, last, runtime, Partition(front, runtime), ps);
      if last.target.artifact.runtimeVersioned == runtime {
        ps := ps + [|front|];
      } else {
        assert Partition(front, runtime) + [] == Partition(front, runtime);
      }
    }
  }

  lemma NothingPicked(runtime: bool)
    ensures Picked([], runtime, Partition([], runtime), [])
  {}

  lemma OneInTable(f: Finding, runtime: bool)
    ensures Partition([f], runtime) == if f.target.artifact.runtimeVersioned == runtime then [f] else []
  {}

  /** What is found says for each artifact what it was asked at, and which advisory was answered. */
  lemma FoundMeaning(artifacts: seq<Scanned>, latest: Option<string>, service: Service, qs: seq<Query>)
    returns (ts: seq<Target>, ps: seq<Place>)
    requires AskedForAll(qs, artifacts, latest) && Askable(artifacts, latest) && service(qs).Some?
    ensures |ts| == |artifacts|
    ensures forall i :: 0 <= i < |ts| ==>
              ts[i] == Target(artifacts[i], if artifacts[i].runtimeVersioned then latest else None)
    ensures Reported(Found(artifacts, latest, service), ts, service(qs).value, |ts|, ps)
  {
    AnswerMeaning(artifacts, latest, service, qs);
    ts := Targets(artifacts, latest);
    var answers := service(qs).value;
    var n := Reach(ts, answers);
    ps := FindingsInOrder(ts, answers, n);
    hide Findings;
    assert forall p :: InRange(answers, n, p) <==> InRange(answers, |ts|, p);
  }

  /** The two ways a scan cannot be asked for. */
  lemma AskableMeaning(artifacts: seq<Scanned>, latest: Option<string>)
    ensures Askable(artifacts, latest) <==>
            artifacts != [] && (latest.Some? || forall i :: 0 <= i < |artifacts| ==> !artifacts[i].runtimeVersioned)
  {
    if !Askable(artifacts, latest) && artifacts != [] {
      var a :| a in artifacts && a.runtimeVersioned;
      var i :| 0 <= i < |artifacts| && artifacts[i] == a;
    }
  }
}
