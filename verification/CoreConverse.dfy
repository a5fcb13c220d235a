/** What the deterministic core drops: with a collision-free digest, two payloads have one core exactly
    when they agree on everything it keeps, field by field. */
module CoreConverse {
  import opened Aggregates
  import opened CoreProjection

  // ---------------------------------------------------------------- rows and results

  /** A stable row determines every field of its row except the timing ones. */
  lemma StableRowDetermines(h: Digest, sc: Schema, a: Json, b: Json)
    requires "deterministic_row_sha256" !in sc.row
    requires StableRow(h, sc)(a).Some? && StableRow(h, sc)(b).Some?
    ensures StableRow(h, sc)(a) == StableRow(h, sc)(b) <==> RowsAlike()(a, b)
  {
    if RowsAlike()(a, b) {
      RowSame(h, sc, a, b);
    }
    if StableRow(h, sc)(a) == StableRow(h, sc)(b) {
      var x, y := a.fields - ROW_TIMING, b.fields - ROW_TIMING;
      assert x["deterministic_row_sha256" := Text(h(Object(x)))] == y["deterministic_row_sha256" := Text(h(Object(y)))];
      forall k | k in a.fields && k !in ROW_TIMING ensures a.fields[k] == b.fields[k] {
        assert k in x && k in y;
        assert x[k] == x["deterministic_row_sha256" := Text(h(Object(x)))][k];
        assert y[k] == y["deterministic_row_sha256" := Text(h(Object(y)))][k];
      }
    }
  }

  /** A step that yields one value on related documents only yields one list on related lists only. */
  lemma {:induction false} EachDetermines(f: Json -> Option<Json>, rel: (Json, Json) -> bool, xs: seq<Json>,
                                          ys: seq<Json>)
    requires forall x, y :: f(x).Some? && f(x) == f(y) ==> rel(x, y)
    requires Each(f, xs).Some? && Each(f, xs) == Each(f, ys)
    ensures Pairwise(rel, xs, ys)
  {
    EachLength(f, xs);
    EachLength(f, ys);
    if xs != [] {
      assert Each(f, xs).value[0] == f(xs[0]).value && Each(f, ys).value[0] == f(ys[0]).value;
      assert Each(f, xs).value[1..] == Each(f, xs[1..]).value && Each(f, ys).value[1..] == Each(f, ys[1..]).value;
      EachDetermines(f, rel, xs[1..], ys[1..]);
      forall i | 0 <= i < |xs| ensures rel(xs[i], ys[i]) {
        if i > 0 { assert rel(xs[1..][i - 1], ys[1..][i - 1]); }
      }
    }
  }

  lemma {:induction false} EachLength(f: Json -> Option<Json>, xs: seq<Json>)
    ensures Each(f, xs).Some? ==> |Each(f, xs).value| == |xs|
  {
    if xs != [] { EachLength(f, xs[1..]); }
  }

  /** What a result over rows shows: the digest of its rows and the fields it kept. */
  lemma ResultShows(h: Digest, kept: Fields, rows: seq<Json>)
    requires kept.Keys !! RESULT_ADDED && ResultOver(h, kept, rows).Some?
    ensures ResultOver(h, kept, rows).value.Object?
    ensures ResultOver(h, kept, rows).value.fields - RESULT_ADDED == kept
    ensures Get(ResultOver(h, kept, rows).value, "deterministic_row_stream_sha256") == Some(Text(h(Array(rows))))
  {
    hide Each;
    assert forall k :: k in kept <==> k in ResultOver(h, kept, rows).value.fields - RESULT_ADDED;
  }

  lemma AgreeWhereKept(a: Fields, b: Fields, keys: set<string>)
    requires a.Keys == b.Keys && a - keys == b - keys
    ensures AgreeOff(a, b, keys)
  {
    forall k | k in a && k !in keys ensures a[k] == b[k] {
      assert k in a - keys && k in b - keys && (a - keys)[k] == a[k] && (b - keys)[k] == b[k];
    }
  }

  /** With a collision-free digest two results have the same projection exactly when they differ
      in timing only: the projection drops nothing else, in the result or in any of its rows. */
  lemma StableResultDetermines(h: Digest, sc: Schema, a: Json, b: Json)
    requires forall x, y :: h(x) == h(y) ==> x == y
    requires "deterministic_row_sha256" !in sc.row && sc.result !! RESULT_ADDED
    requires StableResult(h, sc)(a).Some? && StableResult(h, sc)(b).Some?
    ensures StableResult(h, sc)(a) == StableResult(h, sc)(b) <==> ResultsAlike()(a, b)
  {
    if ResultsAlike()(a, b) {
      ResultSame(h, sc, a, b);
    }
    if StableResult(h, sc)(a) == StableResult(h, sc)(b) {
      SameProjection(h, sc, a, b);
    }
  }

  lemma ResultUnfolds(h: Digest, sc: Schema, a: Json)
    requires StableResult(h, sc)(a).Some?
    ensures a.Object? && a.fields.Keys == sc.result && RowsOf(h, sc, a).Some?
    ensures StableResult(h, sc)(a) == ResultOver(h, a.fields - RESULT_DROPPED, RowsOf(h, sc, a).value)
  {
    hide RowsOf, ResultOver;
  }

  lemma SameRows(h: Digest, sc: Schema, a: Json, b: Json)
    requires "deterministic_row_sha256" !in sc.row
    requires RowsOf(h, sc, a).Some? && RowsOf(h, sc, a) == RowsOf(h, sc, b)
    ensures FieldAlike(RowListsAlike(), a, b, "row_evidence")
  {
    hide StableRow, RowsAlike, Each;
    forall x, y | StableRow(h, sc)(x).Some? && StableRow(h, sc)(x) == StableRow(h, sc)(y) ensures RowsAlike()(x, y) {
      StableRowDetermines(h, sc, x, y);
    }
    EachDetermines(StableRow(h, sc), RowsAlike(), Get(a, "row_evidence").value.items,
      Get(b, "row_evidence").value.items);
  }

  lemma SameProjection(h: Digest, sc: Schema, a: Json, b: Json)
    requires forall x, y :: h(x) == h(y) ==> x == y
    requires "deterministic_row_sha256" !in sc.row && sc.result !! RESULT_ADDED
    requires StableResult(h, sc)(a).Some? && StableResult(h, sc)(a) == StableResult(h, sc)(b)
    ensures ResultsAlike()(a, b)
  {
    ResultUnfolds(h, sc, a);
    ResultUnfolds(h, sc, b);
    hide StableResult, RowsOf, ResultOver, AgreeOff, FieldAlike, RowListsAlike;
    var r, s := RowsOf(h, sc, a).value, RowsOf(h, sc, b).value;
    ResultShows(h, a.fields - RESULT_DROPPED, r);
    ResultShows(h, b.fields - RESULT_DROPPED, s);
    assert h(Array(r)) == h(Array(s));
    assert Array(r) == Array(s);
    AgreeWhereKept(a.fields, b.fields, RESULT_DROPPED);
    SameRows(h, sc, a, b);
  }

  // ---------------------------------------------------------------- the whole core

  /** Field k of the document at field part. */
  function Within(metrics: Json, part: string, k: string): Option<Json>
  {
    var document :- Get(metrics, part);
    Get(document, k)
  }

  ghost function FamiliesAlike(): (Json, Json) -> bool
  {
    (a: Json, b: Json) => Get(a, "family_sha256") == Get(b, "family_sha256")
  }

  /** Complete metrics agree on arm, support, the digests of their parts, the digest of each family, and
      every aggregate metric that is no latency. */
  ghost predicate MetricsMatch(a: Json, b: Json)
  {
    && Get(a, "arm") == Get(b, "arm") && Get(a, "support_sha256") == Get(b, "support_sha256")
    && Within(a, "calibration", "calibration_sha256") == Within(b, "calibration", "calibration_sha256")
    && Within(a, "economics", "economics_sha256") == Within(b, "economics", "economics_sha256")
    && Within(a, "bootstrap", "bootstrap_sha256") == Within(b, "bootstrap", "bootstrap_sha256")
    && (match (Get(a, "by_family"), Get(b, "by_family"))
        case (Some(Array(xs)), Some(Array(ys))) => Pairwise(FamiliesAlike(), xs, ys)
        case _ => false)
    && (match (Get(a, "aggregate"), Get(b, "aggregate"))
        case (Some(Object(x)), Some(Object(y))) =>
          AgreeOff(x, y, {"p50_latency_ms", "p95_latency_ms", "p99_latency_ms"})
        case _ => false)
  }

  lemma FamilyDigestsIff(xs: seq<Json>, ys: seq<Json>)
    requires Each(FamilyDigest(), xs).Some? && Each(FamilyDigest(), ys).Some?
    ensures Each(FamilyDigest(), xs) == Each(FamilyDigest(), ys) <==> Pairwise(FamiliesAlike(), xs, ys)
  {
    if Each(FamilyDigest(), xs) == Each(FamilyDigest(), ys) { EachDetermines(FamilyDigest(), FamiliesAlike(), xs, ys); }
    if Pairwise(FamiliesAlike(), xs, ys) { EachSame(FamilyDigest(), FamiliesAlike(), xs, ys); }
  }

  lemma BoundParts(a: Json)
    requires BoundMetrics(a).Some?
    ensures var m := BoundMetrics(a).value;
      && m.Keys == BOUND
      && Get(a, "arm") == Some(m["arm"]) && Get(a, "support_sha256") == Some(m["support_sha256"])
      && Within(a, "calibration", "calibration_sha256") == Some(m["calibration_sha256"])
      && Within(a, "economics", "economics_sha256") == Some(m["economics_sha256"])
      && Within(a, "bootstrap", "bootstrap_sha256") == Some(m["bootstrap_sha256"])
      && Get(a, "by_family").Some? && Get(a, "by_family").value.Array?
      && Each(FamilyDigest(), Get(a, "by_family").value.items).Some?
      && m["family_sha256"] == Array(Each(FamilyDigest(), Get(a, "by_family").value.items).value)
  {
    hide Each, Get;
  }

  lemma SixValues(m: Fields, n: Fields)
    requires m.Keys == n.Keys == BOUND
    ensures m == n <==> && m["arm"] == n["arm"] && m["support_sha256"] == n["support_sha256"]
                        && m["calibration_sha256"] == n["calibration_sha256"]
                        && m["economics_sha256"] == n["economics_sha256"]
                        && m["bootstrap_sha256"] == n["bootstrap_sha256"] && m["family_sha256"] == n["family_sha256"]
  {
    if m["arm"] == n["arm"] && m["support_sha256"] == n["support_sha256"]
       && m["calibration_sha256"] == n["calibration_sha256"] && m["economics_sha256"] == n["economics_sha256"]
       && m["bootstrap_sha256"] == n["bootstrap_sha256"] && m["family_sha256"] == n["family_sha256"] {
      forall k | k in BOUND ensures m[k] == n[k] {}
    }
  }

  lemma MetricsMatchIff(a: Json, b: Json)
    requires BoundMetrics(a).Some? && BoundMetrics(b).Some? && Kept(a).Some? && Kept(b).Some?
    ensures BoundMetrics(a) == BoundMetrics(b) && Kept(a) == Kept(b) <==> MetricsMatch(a, b)
  {
    hide BoundMetrics, Each, Get, Within, Kept, Pairwise, AgreeOff, BOUND;
    BoundParts(a);
    BoundParts(b);
    FamilyDigestsIff(Get(a, "by_family").value.items, Get(b, "by_family").value.items);
    KeptIff(a, b);
    SixValues(BoundMetrics(a).value, BoundMetrics(b).value);
  }

  lemma KeptIff(a: Json, b: Json)
    requires Kept(a).Some? && Kept(b).Some?
    ensures Get(a, "aggregate").Some? && Get(a, "aggregate").value.Object?
    ensures Get(b, "aggregate").Some? && Get(b, "aggregate").value.Object?
    ensures Kept(a) == Kept(b)
        <==> AgreeOff(Get(a, "aggregate").value.fields, Get(b, "aggregate").value.fields, LATENCY)
  {
    hide Get;
    var x, y := Get(a, "aggregate").value.fields, Get(b, "aggregate").value.fields;
    if Kept(a) == Kept(b) {
      SameKeys(x, y, LATENCY);
      AgreeWhereKept(x, y, LATENCY);
    }
    if AgreeOff(x, y, LATENCY) { SameRest(x, y, LATENCY, LATENCY); }
  }

  lemma SameKeys(x: Fields, y: Fields, keys: set<string>)
    requires x - keys == y - keys && keys <= x.Keys && keys <= y.Keys
    ensures x.Keys == y.Keys
  {
    assert forall k :: k in x <==> k in keys || k in x - keys;
    assert forall k :: k in y <==> k in keys || k in y - keys;
  }

  const BOUND: set<string> :=
    {"arm", "support_sha256", "calibration_sha256", "economics_sha256", "family_sha256", "bootstrap_sha256"}

  lemma SealedShows(h: Digest, x: Fields, y: Fields, name: string)
    requires name !in x && name !in y && Sealed(h, x, name) == Sealed(h, y, name)
    ensures x == y
  {
    var u, v := Sealed(h, x, name).fields, Sealed(h, y, name).fields;
    assert u - {name} == x && v - {name} == y;
  }

  lemma CompleteUnfolds(h: Digest, sc: Schema, a: Json, digest: Json)
    requires StableComplete(h, sc, a, digest).Some?
    ensures Unsealed(a, digest).Some? && Kept(a).Some? && BoundMetrics(a).Some?
    ensures StableComplete(h, sc, a, digest).value
        == Sealed(h, Unsealed(a, digest).value, "deterministic_complete_metrics_sha256")
  {
    hide BoundMetrics, Sealed;
  }

  lemma UnsealedShows(a: Json, b: Json, digest: Json)
    requires Unsealed(a, digest).Some? && Unsealed(b, digest).Some?
    ensures "deterministic_complete_metrics_sha256" !in Unsealed(a, digest).value
    ensures Unsealed(a, digest) == Unsealed(b, digest) <==> BoundMetrics(a) == BoundMetrics(b) && Kept(a) == Kept(b)
  {
    hide BoundMetrics, Kept, Get, Within, Each;
    BoundParts(a);
    BoundParts(b);
    var x, y := Unsealed(a, digest).value, Unsealed(b, digest).value;
    if x == y {
      var m, n := BoundMetrics(a).value, BoundMetrics(b).value;
      assert x["aggregate"] == Kept(a).value && y["aggregate"] == Kept(b).value;
      assert x - {"deterministic_result_sha256", "aggregate"} == m
          && y - {"deterministic_result_sha256", "aggregate"} == n;
    }
  }

  lemma CompleteIff(h: Digest, sc: Schema, a: Json, b: Json, digest: Json)
    requires StableComplete(h, sc, a, digest).Some? && StableComplete(h, sc, b, digest).Some?
    ensures StableComplete(h, sc, a, digest) == StableComplete(h, sc, b, digest) <==> MetricsMatch(a, b)
  {
    hide Unsealed, MetricsMatch, BoundMetrics, Kept, Sealed;
    CompleteUnfolds(h, sc, a, digest);
    CompleteUnfolds(h, sc, b, digest);
    MetricsMatchIff(a, b);
    UnsealedShows(a, b, digest);
    UnsealedShows(b, a, digest);
    hide StableComplete;
    if StableComplete(h, sc, a, digest) == StableComplete(h, sc, b, digest) {
      SealedShows(h, Unsealed(a, digest).value, Unsealed(b, digest).value, "deterministic_complete_metrics_sha256");
    }
  }

  ghost predicate AllMatch(xs: seq<Json>, ys: seq<Json>)
  {
    |xs| == |ys| && forall i :: 0 <= i < |xs| ==> MetricsMatch(xs[i], ys[i])
  }

  lemma {:induction false} CompletesIff(h: Digest, sc: Schema, xs: seq<Json>, ys: seq<Json>, results: seq<Json>)
    requires StableCompletes(h, sc, xs, results).Some? && StableCompletes(h, sc, ys, results).Some?
    ensures StableCompletes(h, sc, xs, results) == StableCompletes(h, sc, ys, results) <==> AllMatch(xs, ys)
  {
    hide StableComplete, MetricsMatch;
    if xs != [] {
      var digest := Get(results[0], "deterministic_result_sha256").value;
      CompleteIff(h, sc, xs[0], ys[0], digest);
      CompletesIff(h, sc, xs[1..], ys[1..], results[1..]);
      CompletesHead(h, sc, xs, results);
      CompletesHead(h, sc, ys, results);
      AllMatchTail(xs, ys);
    }
  }

  lemma CompletesHead(h: Digest, sc: Schema, xs: seq<Json>, results: seq<Json>)
    requires StableCompletes(h, sc, xs, results).Some? && xs != []
    ensures var all := StableCompletes(h, sc, xs, results).value;
      var digest := Get(results[0], "deterministic_result_sha256").value;
      && all != [] && Some(all[0]) == StableComplete(h, sc, xs[0], digest)
      && Some(all[1..]) == StableCompletes(h, sc, xs[1..], results[1..])
  {
    hide StableComplete;
  }

  lemma AllMatchTail(xs: seq<Json>, ys: seq<Json>)
    requires xs != [] && |xs| == |ys|
    ensures AllMatch(xs, ys) <==> MetricsMatch(xs[0], ys[0]) && AllMatch(xs[1..], ys[1..])
  {
    hide MetricsMatch;
    if MetricsMatch(xs[0], ys[0]) && AllMatch(xs[1..], ys[1..]) {
      forall i | 0 <= i < |xs| ensures MetricsMatch(xs[i], ys[i]) {
        if i > 0 { assert MetricsMatch(xs[1..][i - 1], ys[1..][i - 1]); }
      }
    }
    if AllMatch(xs, ys) {
      forall i | 0 <= i < |xs| - 1
        ensures MetricsMatch(xs[1..][i], ys[1..][i])
      {
        assert MetricsMatch(xs[i + 1], ys[i + 1]);
      }
    }
  }

  const CONTROL_ADDED: set<string> := {"deterministic_row_evidence_sha256", "deterministic_control_sha256"}

  /** The measurements that are no latencies agree. */
  ghost predicate MeasurementsMatch(a: Json, b: Json)
  {
    match (Get(a, "measurements"), Get(b, "measurements"))
    case (Some(Array(xs)), Some(Array(ys))) => Filter(NoNamedLatency(), xs) == Filter(NoNamedLatency(), ys)
    case _ => false
  }

  function NoNamedLatency(): Json -> bool { (m: Json) => !NamedLatency(m) }

  lemma SameMeasurementsKept(xs: seq<Json>)
    ensures Filter(NoNamedLatency(), xs) == Filter(NotLatency(), xs)
  {
    forall m | m in xs ensures NoNamedLatency()(m) == NotLatency()(m) { NamedIsLatency(m); }
    FilterCongruent(NoNamedLatency(), NotLatency(), xs);
  }

  lemma NamedIsLatency(m: Json)
    ensures NamedLatency(m) == IsLatency(m)
  {
    hide Get;
  }

  /** The row evidence agrees but for score bindings and workload latencies. */
  ghost predicate EvidenceMatches(a: Json, b: Json)
  {
    match (Get(a, "name"), Get(a, "row_evidence_json"), Get(b, "row_evidence_json"))
    case (Some(Text(name)), Some(x), Some(y)) => ControlRowsAlike(name, x, y)
    case _ => false
  }

  /** Controls agree on every field but the derived ones, on the measurements and on the row evidence. */
  ghost predicate ControlsMatch(a: Json, b: Json)
  {
    && a.Object? && b.Object?
    && AgreeOff(a.fields, b.fields, {"control_sha256", "row_evidence_json", "row_evidence_sha256", "measurements"})
    && MeasurementsMatch(a, b) && EvidenceMatches(a, b)
  }

  lemma MeasurementsMatchIff(a: Json, b: Json)
    requires Measurements(a).Some? && Measurements(b).Some?
    ensures Measurements(a) == Measurements(b) <==> MeasurementsMatch(a, b)
  {
    hide Filter, Get, Have, NoNamedLatency;
    SameMeasurementsKept(Get(a, "measurements").value.items);
    SameMeasurementsKept(Get(b, "measurements").value.items);
  }

  lemma WorkloadRowDetermines(a: Json, b: Json)
    requires StableWorkloadRow()(a).Some? && StableWorkloadRow()(a) == StableWorkloadRow()(b)
    ensures WorkloadRowsAlike()(a, b)
  {
    AgreeWhereKept(a.fields, b.fields, {"latency_ms"});
  }

  lemma ArmUnfolds(a: Json)
    requires StableWorkloadArm(a).Some?
    ensures a.Object? && {"score_sha256", "rows"} <= a.fields.Keys && a.fields["rows"].Array?
    ensures Each(StableWorkloadRow(), a.fields["rows"].items).Some? && StableWorkloadArm(a).value.Object?
    ensures var u := StableWorkloadArm(a).value.fields;
      && "rows" in u && u["rows"] == Array(Each(StableWorkloadRow(), a.fields["rows"].items).value)
      && u - {"rows"} == a.fields - {"score_sha256", "rows"}
  {
    hide Each;
    var rest := a.fields - {"score_sha256", "rows"};
    var rows := Array(Each(StableWorkloadRow(), a.fields["rows"].items).value);
    assert rest["rows" := rows] - {"rows"} == rest;
  }

  lemma RowListDetermines(a: Json, b: Json)
    requires a.Array? && b.Array? && Each(StableWorkloadRow(), a.items).Some?
    requires Each(StableWorkloadRow(), a.items) == Each(StableWorkloadRow(), b.items)
    ensures WorkloadRowListsAlike()(a, b)
  {
    forall x, y | StableWorkloadRow()(x).Some? && StableWorkloadRow()(x) == StableWorkloadRow()(y)
      ensures WorkloadRowsAlike()(x, y)
    {
      WorkloadRowDetermines(x, y);
    }
    hide StableWorkloadRow, WorkloadRowsAlike;
    EachDetermines(StableWorkloadRow(), WorkloadRowsAlike(), a.items, b.items);
  }

  lemma WorkloadArmDetermines(a: Json, b: Json)
    requires StableWorkloadArm(a).Some? && StableWorkloadArm(a) == StableWorkloadArm(b)
    ensures WorkloadArmsAlike()(a, b)
  {
    hide StableWorkloadArm, StableWorkloadRow, WorkloadRowListsAlike, Each, AgreeOff;
    var off := {"score_sha256", "rows"};
    ArmUnfolds(a);
    ArmUnfolds(b);
    SameKeys(a.fields, b.fields, off);
    AgreeWhereKept(a.fields, b.fields, off);
    RowListDetermines(a.fields["rows"], b.fields["rows"]);
  }

  lemma {:induction false} ArmListed(arms: Fields, names: seq<string>, i: nat)
    requires StableArms(arms, names).Some? && i < |names|
    ensures names[i] in arms && names[i] in StableArms(arms, names).value
    ensures StableWorkloadArm(arms[names[i]]) == Some(StableArms(arms, names).value[names[i]])
  {
    hide StableWorkloadArm;
    var n := |names| - 1;
    if i < n && names[i] != names[n] { ArmListed(arms, names[..n], i); }
  }

  lemma ArmsDetermine(sc: Schema, a: Fields, b: Fields)
    requires a.Keys == b.Keys == set n | n in sc.arms
    requires StableArms(a, sc.arms).Some? && StableArms(a, sc.arms) == StableArms(b, sc.arms)
    ensures forall n :: n in a ==> WorkloadArmsAlike()(a[n], b[n])
  {
    hide StableArms, StableWorkloadArm, WorkloadArmsAlike;
    forall n | n in a ensures WorkloadArmsAlike()(a[n], b[n]) {
      assert n in a.Keys;
      var i :| 0 <= i < |sc.arms| && sc.arms[i] == n;
      ArmListed(a, sc.arms, i);
      ArmListed(b, sc.arms, i);
      WorkloadArmDetermines(a[n], b[n]);
    }
  }

  /** Two bodies of row evidence have one stable form exactly when they agree but for timing. */
  lemma EvidenceIff(sc: Schema, name: string, a: Json, b: Json)
    requires StableControlRows(sc, name, a).Some? && StableControlRows(sc, name, b).Some?
    ensures StableControlRows(sc, name, a) == StableControlRows(sc, name, b) <==> ControlRowsAlike(name, a, b)
  {
    if ControlRowsAlike(name, a, b) { ControlRowsSame(sc, name, a, b); }
    if StableControlRows(sc, name, a) == StableControlRows(sc, name, b) {
      if name in INVARIANCE {
        SameKeys(a.fields, b.fields, SCORE_BINDINGS);
        AgreeWhereKept(a.fields, b.fields, SCORE_BINDINGS);
      } else if name in WORKLOAD {
        WorkloadDetermines(sc, name, a, b);
      }
    }
  }

  lemma WorkloadDetermines(sc: Schema, name: string, a: Json, b: Json)
    requires name !in INVARIANCE && name in WORKLOAD
    requires StableControlRows(sc, name, a).Some? && StableControlRows(sc, name, a) == StableControlRows(sc, name, b)
    ensures ControlRowsAlike(name, a, b)
  {
    hide StableArms, WorkloadArmsAlike;
    var x, y := a.fields["arms"].fields, b.fields["arms"].fields;
    assert StableControlRows(sc, name, a).value.fields["arms"] == Object(StableArms(x, sc.arms).value);
    assert StableControlRows(sc, name, b).value.fields["arms"] == Object(StableArms(y, sc.arms).value);
    ArmsDetermine(sc, x, y);
    hide StableControlRows;
  }

  lemma EvidenceMatchesIff(sc: Schema, a: Json, b: Json)
    requires ControlRows(sc, a).Some? && ControlRows(sc, b).Some? && Get(a, "name") == Get(b, "name")
    ensures ControlRows(sc, a) == ControlRows(sc, b) <==> EvidenceMatches(a, b)
  {
    EvidenceIff(sc, Get(a, "name").value.s, Get(a, "row_evidence_json").value, Get(b, "row_evidence_json").value);
    hide Get, StableControlRows, ControlRowsAlike;
  }

  lemma ControlUnfolds(h: Digest, sc: Schema, a: Json)
    requires StableControl(h, sc, a).Some?
    ensures a.Object? && a.fields.Keys == sc.control && Measurements(a).Some? && ControlRows(sc, a).Some?
    ensures StableControl(h, sc, a).value.1
         == Sealed(h, UnsealedControl(h, a.fields - CONTROL_DERIVED, Measurements(a).value, ControlRows(sc, a).value),
                   "deterministic_control_sha256")
  {
    hide Sealed, Measurements, ControlRows, UnsealedControl;
  }

  lemma UnsealedControlShows(h: Digest, x: Fields, m: seq<Json>, r: Json, y: Fields, n: seq<Json>, q: Json)
    requires forall u, v :: h(u) == h(v) ==> u == v
    requires x.Keys !! CONTROL_ADDED + {"measurements"} && y.Keys !! CONTROL_ADDED + {"measurements"}
    ensures UnsealedControl(h, x, m, r) == UnsealedControl(h, y, n, q) <==> x == y && m == n && r == q
    ensures "deterministic_control_sha256" !in UnsealedControl(h, x, m, r)
  {
    var u, v := UnsealedControl(h, x, m, r), UnsealedControl(h, y, n, q);
    if u == v {
      assert u["measurements"] == Array(m) && v["measurements"] == Array(n);
      assert u["deterministic_row_evidence_sha256"] == Text(h(r))
          && v["deterministic_row_evidence_sha256"] == Text(h(q));
      assert u - {"measurements", "deterministic_row_evidence_sha256"} == x;
      assert v - {"measurements", "deterministic_row_evidence_sha256"} == y;
    }
  }

  /** The name is none of the derived fields. */
  lemma SameName(a: Json, b: Json)
    requires a.Object? && b.Object? && AgreeOff(a.fields, b.fields, CONTROL_DERIVED)
    ensures Get(a, "name") == Get(b, "name")
  {
    assert "name" in a.fields.Keys <==> "name" in b.fields.Keys;
  }

  lemma ControlIff(h: Digest, sc: Schema, a: Json, b: Json)
    requires (forall x, y :: h(x) == h(y) ==> x == y) && sc.control !! CONTROL_ADDED
    requires StableControl(h, sc, a).Some? && StableControl(h, sc, b).Some?
    ensures StableControl(h, sc, a).value.1 == StableControl(h, sc, b).value.1 <==> ControlsMatch(a, b)
  {
    ControlUnfolds(h, sc, a);
    ControlUnfolds(h, sc, b);
    hide StableControl, UnsealedControl, Measurements, ControlRows, AgreeOff, Sealed, MeasurementsMatch,
         EvidenceMatches, Get;
    var x, y := a.fields - CONTROL_DERIVED, b.fields - CONTROL_DERIVED;
    var m, n, r, q := Measurements(a).value, Measurements(b).value, ControlRows(sc, a).value, ControlRows(sc, b).value;
    UnsealedControlShows(h, x, m, r, y, n, q);
    UnsealedControlShows(h, y, n, q, x, m, r);
    MeasurementsMatchIff(a, b);
    if StableControl(h, sc, a).value.1 == StableControl(h, sc, b).value.1 {
      SealedShows(h, UnsealedControl(h, x, m, r), UnsealedControl(h, y, n, q), "deterministic_control_sha256");
      AgreeWhereKept(a.fields, b.fields, CONTROL_DERIVED);
    }
    if AgreeOff(a.fields, b.fields, CONTROL_DERIVED) {
      SameRest(a.fields, b.fields, CONTROL_DERIVED, CONTROL_DERIVED);
      SameName(a, b);
      EvidenceMatchesIff(sc, a, b);
    }
  }

  ghost predicate AllControlsMatch(xs: seq<Json>, ys: seq<Json>)
  {
    |xs| == |ys| && forall i :: 0 <= i < |xs| ==> ControlsMatch(xs[i], ys[i])
  }

  lemma {:induction false} ControlListAt(h: Digest, sc: Schema, xs: seq<Json>)
    requires StableControlList(h, sc, xs).Some?
    ensures var stable := StableControlList(h, sc, xs).value.stable;
      |stable| == |xs|
      && forall i :: 0 <= i < |xs| ==>
           StableControl(h, sc, xs[i]).Some? && stable[i] == StableControl(h, sc, xs[i]).value.1
  {
    hide StableControl;
    if xs != [] {
      var n := |xs| - 1;
      ControlListAt(h, sc, xs[..n]);
      var rest := StableControlList(h, sc, xs[..n]).value.stable;
      assert StableControlList(h, sc, xs).value.stable == rest + [StableControl(h, sc, xs[n]).value.1];
      hide StableControlList;
      forall i | 0 <= i < n
        ensures StableControl(h, sc, xs[i]).Some? && rest[i] == StableControl(h, sc, xs[i]).value.1
      {
        assert xs[..n][i] == xs[i];
      }
    }
  }

  lemma ControlListIff(h: Digest, sc: Schema, xs: seq<Json>, ys: seq<Json>)
    requires (forall x, y :: h(x) == h(y) ==> x == y) && sc.control !! CONTROL_ADDED
    requires StableControlList(h, sc, xs).Some? && StableControlList(h, sc, ys).Some?
    ensures StableControlList(h, sc, xs).value.stable == StableControlList(h, sc, ys).value.stable
        <==> AllControlsMatch(xs, ys)
  {
    ControlListAt(h, sc, xs);
    ControlListAt(h, sc, ys);
    hide StableControlList, StableControl, ControlsMatch;
    var a, b := StableControlList(h, sc, xs).value.stable, StableControlList(h, sc, ys).value.stable;
    if |xs| == |ys| {
      forall i | 0 <= i < |xs| ensures a[i] == b[i] <==> ControlsMatch(xs[i], ys[i]) {
        ControlIff(h, sc, xs[i], ys[i]);
      }
    }
  }

  /** What the core keeps of the control suite agrees. */
  ghost predicate SuitesMatch(a: Json, b: Json)
  {
    && a.Object? && b.Object? && AgreeOff(a.fields, b.fields, {"suite_sha256", "controls"})
    && (match (Get(a, "controls"), Get(b, "controls"))
        case (Some(Array(xs)), Some(Array(ys))) => AllControlsMatch(xs, ys)
        case _ => false)
  }

  lemma SuiteIff(h: Digest, sc: Schema, a: Json, b: Json)
    requires (forall x, y :: h(x) == h(y) ==> x == y) && sc.control !! CONTROL_ADDED
    requires "deterministic_control_suite_sha256" !in sc.suite
    requires StableControls(h, sc, a).Some? && StableControls(h, sc, b).Some?
    ensures StableControls(h, sc, a).value.0 == StableControls(h, sc, b).value.0 <==> SuitesMatch(a, b)
  {
    hide StableControlList, AllControlsMatch;
    var xs, ys := a.fields["controls"].items, b.fields["controls"].items;
    ControlListIff(h, sc, xs, ys);
    var x := (a.fields - {"suite_sha256"})["controls" := Array(StableControlList(h, sc, xs).value.stable)];
    var y := (b.fields - {"suite_sha256"})["controls" := Array(StableControlList(h, sc, ys).value.stable)];
    assert StableControls(h, sc, a).value.0 == Sealed(h, x, "deterministic_control_suite_sha256");
    assert StableControls(h, sc, b).value.0 == Sealed(h, y, "deterministic_control_suite_sha256");
    ListingShows(a.fields, Array(StableControlList(h, sc, xs).value.stable),
      b.fields, Array(StableControlList(h, sc, ys).value.stable));
    hide Sealed, StableControls, AgreeOff;
    if StableControls(h, sc, a).value.0 == StableControls(h, sc, b).value.0 {
      SealedShows(h, x, y, "deterministic_control_suite_sha256");
    }
  }

  lemma ListingShows(a: Fields, l: Json, b: Fields, m: Json)
    requires a.Keys == b.Keys
    ensures (a - {"suite_sha256"})["controls" := l] == (b - {"suite_sha256"})["controls" := m]
       <==> l == m && AgreeOff(a, b, {"suite_sha256", "controls"})
  {
    var x, y := (a - {"suite_sha256"})["controls" := l], (b - {"suite_sha256"})["controls" := m];
    if x == y {
      assert x["controls"] == l && y["controls"] == m;
      forall k | k in a && k !in {"suite_sha256", "controls"}
        ensures a[k] == b[k]
      {
        assert x[k] == a[k] && y[k] == b[k];
      }
    }
    if l == m && AgreeOff(a, b, {"suite_sha256", "controls"}) { SuiteRest(a, b, l); }
  }

  function KeptGate(): Json -> bool { (g: Json) => Get(g, "metric") != Some(Text("p95_latency_ms")) }

  lemma SameGatesKept(xs: seq<Json>)
    ensures Filter(KeptGate(), xs) == Filter(NotLatencyGate(), xs)
  {
    hide Get;
    FilterCongruent(KeptGate(), NotLatencyGate(), xs);
  }

  /** Readiness agrees on the arm, the gates but the latency gate, and names and verdicts of the
      qualifying controls. */
  ghost predicate ReadinessMatch(a: Json, b: Json)
  {
    && Get(a, "evaluated_arm") == Get(b, "evaluated_arm")
    && (match (Get(a, "gates"), Get(b, "gates"))
        case (Some(Array(xs)), Some(Array(ys))) => Filter(KeptGate(), xs) == Filter(KeptGate(), ys)
        case _ => false)
    && (match (Get(a, "qualifying_controls"), Get(b, "qualifying_controls"))
        case (Some(Array(xs)), Some(Array(ys))) => Pairwise(QualifyingAlike(), xs, ys)
        case _ => false)
  }

  lemma GatesMatchIff(a: Json, b: Json)
    requires StableGates(a).Some? && StableGates(b).Some?
    ensures Get(a, "gates").Some? && Get(a, "gates").value.Array?
    ensures Get(b, "gates").Some? && Get(b, "gates").value.Array?
    ensures StableGates(a) == StableGates(b)
       <==> Filter(KeptGate(), Get(a, "gates").value.items) == Filter(KeptGate(), Get(b, "gates").value.items)
  {
    hide Filter, Get, Have, KeptGate;
    SameGatesKept(Get(a, "gates").value.items);
    SameGatesKept(Get(b, "gates").value.items);
  }

  lemma QualifyingMatchIff(a: Json, b: Json, d: map<string, Json>)
    requires StableQualifying(a, d).Some? && StableQualifying(b, d).Some?
    ensures Get(a, "qualifying_controls").Some? && Get(a, "qualifying_controls").value.Array?
    ensures Get(b, "qualifying_controls").Some? && Get(b, "qualifying_controls").value.Array?
    ensures StableQualifying(a, d) == StableQualifying(b, d)
       <==> Pairwise(QualifyingAlike(), Get(a, "qualifying_controls").value.items,
              Get(b, "qualifying_controls").value.items)
  {
    hide Get, QualifyingControl, QualifyingAlike, Pairwise, Each;
    var xs, ys := Get(a, "qualifying_controls").value.items, Get(b, "qualifying_controls").value.items;
    if StableQualifying(a, d) == StableQualifying(b, d) {
      forall x, y | QualifyingControl(d)(x).Some? && QualifyingControl(d)(x) == QualifyingControl(d)(y)
        ensures QualifyingAlike()(x, y)
      {
        QualifyingDetermines(d, x, y);
      }
      EachDetermines(QualifyingControl(d), QualifyingAlike(), xs, ys);
    }
    if Pairwise(QualifyingAlike(), xs, ys) {
      forall x, y | QualifyingAlike()(x, y) ensures QualifyingControl(d)(x) == QualifyingControl(d)(y) {
        QualifyingSame(d, x, y);
      }
      EachSame(QualifyingControl(d), QualifyingAlike(), xs, ys);
    }
  }

  lemma QualifyingDetermines(d: map<string, Json>, x: Json, y: Json)
    requires QualifyingControl(d)(x).Some? && QualifyingControl(d)(x) == QualifyingControl(d)(y)
    ensures QualifyingAlike()(x, y)
  {
    var u, v := QualifyingControl(d)(x).value.items, QualifyingControl(d)(y).value.items;
    assert u[0] == x.items[0] && u[1] == x.items[1] && v[0] == y.items[0] && v[1] == y.items[1];
    assert x.items[..2] == [x.items[0], x.items[1]] && y.items[..2] == [y.items[0], y.items[1]];
  }

  lemma ReadinessIff(h: Digest, sc: Schema, a: Json, b: Json, d: map<string, Json>)
    requires StableReadiness(h, sc, a, d).Some? && StableReadiness(h, sc, b, d).Some?
    ensures StableReadiness(h, sc, a, d) == StableReadiness(h, sc, b, d) <==> ReadinessMatch(a, b)
  {
    hide StableGates, StableQualifying, AllPassed, Sealed, Get, ControlPassed, Filter, Pairwise;
    GatesMatchIff(a, b);
    QualifyingMatchIff(a, b, d);
    if StableReadiness(h, sc, a, d) == StableReadiness(h, sc, b, d) {
      var m, n := StableGates(a).value, StableGates(b).value;
      var x := UnsealedReadiness(Get(a, "evaluated_arm").value, m, AllPassed(m).value, StableQualifying(a, d).value);
      var y := UnsealedReadiness(Get(b, "evaluated_arm").value, n, AllPassed(n).value, StableQualifying(b, d).value);
      SealedShows(h, x, y, "deterministic_readiness_sha256");
      assert x["evaluated_arm"] == y["evaluated_arm"] && x["gates"] == y["gates"]
          && x["qualifying_controls"] == y["qualifying_controls"];
    }
  }

  /** A stable control carries its name and its digest, so the stable list determines the digest map. */
  lemma NamedDigest(h: Digest, sc: Schema, a: Json)
    requires StableControl(h, sc, a).Some?
    ensures Get(StableControl(h, sc, a).value.1, "name") == Some(Text(StableControl(h, sc, a).value.0))
  {
    hide Measurements, ControlRows;
    assert "name" in a.fields - CONTROL_DERIVED;
  }

  lemma SnocShows(a: seq<Json>, x: Json, b: seq<Json>, y: Json)
    requires |a| == |b|
    ensures a + [x] == b + [y] <==> a == b && x == y
  {
    if a + [x] == b + [y] {
      assert (a + [x])[..|a|] == a && (b + [y])[..|b|] == b;
      assert (a + [x])[|a|] == x && (b + [y])[|b|] == y;
    }
  }

  lemma {:induction false} SameDigests(h: Digest, sc: Schema, xs: seq<Json>, ys: seq<Json>)
    requires StableControlList(h, sc, xs).Some? && StableControlList(h, sc, ys).Some?
    requires StableControlList(h, sc, xs).value.stable == StableControlList(h, sc, ys).value.stable
    ensures StableControlList(h, sc, xs) == StableControlList(h, sc, ys)
  {
    hide StableControl, Get;
    ControlListAt(h, sc, xs);
    ControlListAt(h, sc, ys);
    if xs != [] {
      var n := |xs| - 1;
      ControlListAt(h, sc, xs[..n]);
      ControlListAt(h, sc, ys[..n]);
      SnocShows(StableControlList(h, sc, xs[..n]).value.stable, StableControl(h, sc, xs[n]).value.1,
                StableControlList(h, sc, ys[..n]).value.stable, StableControl(h, sc, ys[n]).value.1);
      SameDigests(h, sc, xs[..n], ys[..n]);
      NamedDigest(h, sc, xs[n]);
      NamedDigest(h, sc, ys[n]);
    }
  }

  lemma SameSuiteDigests(h: Digest, sc: Schema, a: Json, b: Json)
    requires "deterministic_control_suite_sha256" !in sc.suite
    requires StableControls(h, sc, a).Some? && StableControls(h, sc, b).Some?
    requires StableControls(h, sc, a).value.0 == StableControls(h, sc, b).value.0
    ensures StableControls(h, sc, a).value.1 == StableControls(h, sc, b).value.1
  {
    hide StableControlList;
    var xs, ys := a.fields["controls"].items, b.fields["controls"].items;
    var l, m := StableControlList(h, sc, xs).value.stable, StableControlList(h, sc, ys).value.stable;
    assert Get(StableControls(h, sc, a).value.0, "controls") == Some(Array(l));
    assert Get(StableControls(h, sc, b).value.0, "controls") == Some(Array(m));
    assert Array(l) == Array(m);
    SameDigests(h, sc, xs, ys);
  }

  const CORE_ADDED: set<string> :=
    {"execution_artifact_addresses", "arm_results", "complete_metrics", "controls", "readiness"}

  /** The two payloads agree on everything the core keeps. */
  ghost predicate PartsMatch(p: Payload, q: Payload)
  {
    && p.header == q.header && p.addresses == q.addresses
    && Pairwise(ResultsAlike(), p.results, q.results)
    && AllMatch(p.complete, q.complete)
    && SuitesMatch(p.controls, q.controls)
    && ReadinessMatch(p.readiness, q.readiness)
  }

  lemma DocumentShows(a: Fields, x: Parts, b: Fields, y: Parts)
    requires a.Keys !! CORE_ADDED && b.Keys !! CORE_ADDED
    ensures Document(a, x) == Document(b, y) <==> a == b && x == y
  {
    var u, v := Document(a, x).fields, Document(b, y).fields;
    if u == v {
      assert u - CORE_ADDED == a && v - CORE_ADDED == b;
      assert u["execution_artifact_addresses"] == v["execution_artifact_addresses"]
          && u["arm_results"] == v["arm_results"];
      assert u["complete_metrics"] == v["complete_metrics"] && u["controls"] == v["controls"]
          && u["readiness"] == v["readiness"];
    }
  }

  /** With a collision-free digest two payloads have the same core exactly when everything it keeps
      agrees: it drops nothing but what the comparison of the parts leaves out. */
  lemma CoreIff(h: Digest, sc: Schema, p: Payload, q: Payload)
    requires forall x, y :: h(x) == h(y) ==> x == y
    requires "deterministic_row_sha256" !in sc.row && sc.result !! RESULT_ADDED && sc.control !! CONTROL_ADDED
    requires "deterministic_control_suite_sha256" !in sc.suite && p.header.Keys !! CORE_ADDED
        && q.header.Keys !! CORE_ADDED
    requires Core(h, sc, p).Some? && Core(h, sc, q).Some?
    ensures Core(h, sc, p) == Core(h, sc, q) <==> PartsMatch(p, q)
  {
    hide Document, StableResult, StableCompletes, StableControls, StableReadiness, Each, ResultsAlike, AllMatch,
         SuitesMatch, ReadinessMatch, Pairwise;
    var x, y := PartsOf(h, sc, p).value, PartsOf(h, sc, q).value;
    DocumentShows(p.header, x, q.header, y);
    ResultsIff(h, sc, p.results, q.results);
    if x.results == y.results { CompletesIff(h, sc, p.complete, q.complete, x.results); }
    SuiteIff(h, sc, p.controls, q.controls);
    if x.controls == y.controls {
      SameSuiteDigests(h, sc, p.controls, q.controls);
      ReadinessIff(h, sc, p.readiness, q.readiness, StableControls(h, sc, p.controls).value.1);
    }
  }

  lemma ResultsIff(h: Digest, sc: Schema, xs: seq<Json>, ys: seq<Json>)
    requires forall x, y :: h(x) == h(y) ==> x == y
    requires "deterministic_row_sha256" !in sc.row && sc.result !! RESULT_ADDED
    requires Each(StableResult(h, sc), xs).Some? && Each(StableResult(h, sc), ys).Some?
    ensures Each(StableResult(h, sc), xs) == Each(StableResult(h, sc), ys) <==> Pairwise(ResultsAlike(), xs, ys)
  {
    hide StableResult, ResultsAlike, Each, Pairwise;
    if Each(StableResult(h, sc), xs) == Each(StableResult(h, sc), ys) {
      forall a, b | StableResult(h, sc)(a).Some? && StableResult(h, sc)(a) == StableResult(h, sc)(b)
        ensures ResultsAlike()(a, b)
      {
        SameProjection(h, sc, a, b);
      }
      EachDetermines(StableResult(h, sc), ResultsAlike(), xs, ys);
    }
    if Pairwise(ResultsAlike(), xs, ys) {
      forall a, b | ResultsAlike()(a, b)
        ensures StableResult(h, sc)(a) == StableResult(h, sc)(b)
      {
        ResultSame(h, sc, a, b);
      }
      EachSame(StableResult(h, sc), ResultsAlike(), xs, ys);
    }
  }
}
