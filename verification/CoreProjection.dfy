/** The projection that separates the deterministic core of an evidence payload from timing.

    Documents are JSON values; a document without the fields a step reads is refused, None.
    The digest is a parameter. */
module CoreProjection {
  import opened Aggregates

  datatype Json = Null | Bool(b: bool) | Number(mantissa: int, exponent: int) | Text(s: string)
                | Array(items: seq<Json>)
                | Object(fields: map<string, Json>)

  type Fields = map<string, Json>

  type Digest = Json -> string

  /** The exact field sets of the documents, and the arm order. */
  datatype Schema = Schema(row: set<string>, result: set<string>, complete: set<string>, suite: set<string>,
                           control: set<string>, readiness: set<string>, arms: seq<string>)

  function Get(j: Json, k: string): Option<Json>
  {
    if j.Object? && k in j.fields then Some(j.fields[k]) else None
  }

  function Items(j: Json): Option<seq<Json>>
  {
    if j.Array? then Some(j.items) else None
  }

  function ExactFields(j: Json, keys: set<string>): Option<Fields>
  {
    if j.Object? && j.fields.Keys == keys then Some(j.fields) else None
  }

  /** Apply a step to every element, refusing the list if it refuses one. */
  function Each(f: Json -> Option<Json>, xs: seq<Json>): Option<seq<Json>>
  {
    if xs == [] then Some([])
    else
      var y :- f(xs[0]);
      var ys :- Each(f, xs[1..]);
      Some([y] + ys)
  }

  /** A document with its own digest added under the given name. */
  function Sealed(h: Digest, fields: Fields, name: string): Json
  {
    Object(fields[name := Text(h(Object(fields)))])
  }

  // ---------------------------------------------------------------- rows and results

  const ROW_TIMING: set<string> := {"latency_ms", "row_output_sha256"}

  function StableRow(h: Digest, sc: Schema): Json -> Option<Json>
  {
    (row: Json) =>
      var fields :- ExactFields(row, sc.row);
      Some(Sealed(h, fields - ROW_TIMING, "deterministic_row_sha256"))
  }

  function RowAddress(): Json -> Option<Json>
  {
    (row: Json) =>
      var support :- Get(row, "support");
      var eventId :- Get(support, "event_id");
      var digest :- Get(row, "deterministic_row_sha256");
      Some(Object(map["event_id" := eventId, "deterministic_row_sha256" := digest]))
  }

  const RESULT_TIMING: set<string> :=
    {"p50_latency_ms", "p95_latency_ms", "p99_latency_ms", "score_sha256", "result_sha256"}
  const RESULT_DROPPED: set<string> := RESULT_TIMING + {"arm_spec", "row_evidence"}
  const RESULT_ADDED: set<string> :=
    {"row_evidence_addresses", "deterministic_row_stream_sha256", "deterministic_result_sha256"}

  /** The stable rows of a result. */
  function RowsOf(h: Digest, sc: Schema, result: Json): Option<seq<Json>>
  {
    var evidence :- Get(result, "row_evidence");
    var raw :- Items(evidence);
    Each(StableRow(h, sc), raw)
  }

  function StableResult(h: Digest, sc: Schema): Json -> Option<Json>
  {
    (result: Json) =>
      var fields :- ExactFields(result, sc.result);
      var rows :- RowsOf(h, sc, result);
      ResultOver(h, fields - RESULT_DROPPED, rows)
  }

  /** A result over its stable rows: their addresses, the digest of their stream, and its own digest. */
  function ResultOver(h: Digest, kept: Fields, rows: seq<Json>): Option<Json>
  {
    var addresses :- Each(RowAddress(), rows);
    Some(Sealed(h, kept["row_evidence_addresses" := Array(addresses)]
                       ["deterministic_row_stream_sha256" := Text(h(Array(rows)))],
                "deterministic_result_sha256"))
  }

  // ---------------------------------------------------------------- complete metrics

  const LATENCY: set<string> := {"p50_latency_ms", "p95_latency_ms", "p99_latency_ms"}

  function FamilyDigest(): Json -> Option<Json> { (family: Json) => Get(family, "family_sha256") }

  function StableComplete(h: Digest, sc: Schema, metrics: Json, resultDigest: Json): Option<Json>
  {
    var fields :- ExactFields(metrics, sc.complete);
    var unsealed :- Unsealed(metrics, resultDigest);
    Some(Sealed(h, unsealed, "deterministic_complete_metrics_sha256"))
  }

  /** The fields of stable complete metrics before they are sealed. */
  function Unsealed(metrics: Json, resultDigest: Json): Option<Fields>
  {
    var bound :- BoundMetrics(metrics);
    var kept :- Kept(metrics);
    Some(bound["deterministic_result_sha256" := resultDigest]["aggregate" := kept])
  }

  /** The aggregate without its latencies. */
  function Kept(metrics: Json): Option<Json>
  {
    var aggregate :- Get(metrics, "aggregate");
    if aggregate.Object? && LATENCY <= aggregate.fields.Keys then Some(Object(aggregate.fields - LATENCY)) else None
  }

  /** The fields of complete metrics that name other documents. */
  function BoundMetrics(metrics: Json): Option<Fields>
  {
    var arm :- Get(metrics, "arm");
    var support :- Get(metrics, "support_sha256");
    var calibration :- Get(metrics, "calibration");
    var economics :- Get(metrics, "economics");
    var families :- Get(metrics, "by_family");
    var bootstrap :- Get(metrics, "bootstrap");
    BoundOver(arm, support, calibration, economics, families, bootstrap)
  }

  function BoundOver(arm: Json, support: Json, calibration: Json, economics: Json, families: Json,
                     bootstrap: Json): Option<Fields>
  {
    var calibrationDigest :- Get(calibration, "calibration_sha256");
    var economicsDigest :- Get(economics, "economics_sha256");
    var familyItems :- Items(families);
    var familyDigests :- Each(FamilyDigest(), familyItems);
    var bootstrapDigest :- Get(bootstrap, "bootstrap_sha256");
    Some(map["arm" := arm, "support_sha256" := support, "calibration_sha256" := calibrationDigest,
             "economics_sha256" := economicsDigest, "family_sha256" := Array(familyDigests),
             "bootstrap_sha256" := bootstrapDigest])
  }

  // ---------------------------------------------------------------- controls

  const INVARIANCE: set<string> := {"identity_rename", "future_causality", "equal_time_isolation", "feature_leakage"}
  const WORKLOAD: set<string> := {"benign_only", "fraud_only_diagnostic"}
  const SCORE_BINDINGS: set<string> := {"before_score_sha256", "after_score_sha256"}

  function StableWorkloadRow(): Json -> Option<Json>
  {
    (row: Json) =>
      var fields :- ExactFields(row, {"event_id", "action", "probability", "latency_ms"});
      Some(Object(fields - {"latency_ms"}))
  }

  function StableWorkloadArm(arm: Json): Option<Json>
  {
    var score :- Get(arm, "score_sha256");
    var rows :- Get(arm, "rows");
    var raw :- Items(rows);
    var stable :- Each(StableWorkloadRow(), raw);
    Some(Object((arm.fields - {"score_sha256", "rows"})["rows" := Array(stable)]))
  }

  function StableArms(arms: Fields, names: seq<string>): Option<Fields>
  {
    if names == [] then Some(map[])
    else
      var n := |names| - 1;
      var rest :- StableArms(arms, names[..n]);
      if names[n] !in arms then None
      else
        var arm :- StableWorkloadArm(arms[names[n]]);
        Some(rest[names[n] := arm])
  }

  /** The row evidence of a control, already parsed from its canonical JSON. */
  function StableControlRows(sc: Schema, name: string, rows: Json): Option<Json>
  {
    if !rows.Object? then None
    else if name in INVARIANCE then
      if SCORE_BINDINGS <= rows.fields.Keys then Some(Object(rows.fields - SCORE_BINDINGS)) else None
    else if name in WORKLOAD then
      if rows.fields.Keys != {"arms", "full_score_sha256"} || !rows.fields["arms"].Object?
         || rows.fields["arms"].fields.Keys != (set a | a in sc.arms) then None
      else
        var stable :- StableArms(rows.fields["arms"].fields, sc.arms);
        Some(Object(map["arms" := Object(stable)]))
    else if name == "label_shuffle" then Some(rows)
    else None
  }

  predicate EndsWith(s: string, suffix: string)
  {
    |suffix| <= |s| && s[|s| - |suffix|..] == suffix
  }

  /** Every element of the list has the field. */
  predicate Have(xs: seq<Json>, k: string)
  {
    forall x :: x in xs ==> Get(x, k).Some?
  }

  /** A measurement whose name ends in p95_latency_ms. */
  predicate IsLatency(m: Json)
  {
    var name := Get(m, "name");
    name.Some? && name.value.Text? && EndsWith(name.value.s, "p95_latency_ms")
  }

  function NotLatency(): Json -> bool { (m: Json) => !IsLatency(m) }

  const CONTROL_DERIVED: set<string> := {"control_sha256", "row_evidence_json", "row_evidence_sha256", "measurements"}

  function StableControl(h: Digest, sc: Schema, control: Json): Option<(string, Json)>
  {
    var fields :- ExactFields(control, sc.control);
    var name :- Get(control, "name");
    var measurements :- Measurements(control);
    var rows :- ControlRows(sc, control);
    if !name.Text? then None
    else Some((name.s,
      Sealed(h, UnsealedControl(h, fields - CONTROL_DERIVED, measurements, rows), "deterministic_control_sha256")))
  }

  /** The fields of a stable control before they are sealed. */
  function UnsealedControl(h: Digest, kept: Fields, measurements: seq<Json>, rows: Json): Fields
  {
    kept["measurements" := Array(measurements)]["deterministic_row_evidence_sha256" := Text(h(rows))]
  }

  /** The stable row evidence of a control. */
  function ControlRows(sc: Schema, control: Json): Option<Json>
  {
    var name :- Get(control, "name");
    var rows :- Get(control, "row_evidence_json");
    if name.Text? then StableControlRows(sc, name.s, rows) else None
  }

  /** The measurements of a control that are not latencies. */
  function Measurements(control: Json): Option<seq<Json>>
  {
    var measurements :- Get(control, "measurements");
    var raw :- Items(measurements);
    if Have(raw, "name") then Some(Filter(NotLatency(), raw)) else None
  }

  datatype Controls = Controls(stable: seq<Json>, digests: map<string, Json>)

  function StableControlList(h: Digest, sc: Schema, controls: seq<Json>): Option<Controls>
  {
    if controls == [] then Some(Controls([], map[]))
    else
      var n := |controls| - 1;
      var rest :- StableControlList(h, sc, controls[..n]);
      var named :- StableControl(h, sc, controls[n]);
      var digest :- Get(named.1, "deterministic_control_sha256");
      Some(Controls(rest.stable + [named.1], rest.digests[named.0 := digest]))
  }

  function StableControls(h: Digest, sc: Schema, suite: Json): Option<(Json, map<string, Json>)>
  {
    var fields :- ExactFields(suite, sc.suite);
    var raw :- Get(suite, "controls");
    var items :- Items(raw);
    var controls :- StableControlList(h, sc, items);
    Some((Sealed(h, (fields - {"suite_sha256"})["controls" := Array(controls.stable)],
                 "deterministic_control_suite_sha256"),
          controls.digests))
  }

  // ---------------------------------------------------------------- readiness

  const READINESS_DERIVED: set<string> := {"status", "readiness_sha256", "gates", "qualifying_controls"}

  predicate IsLatencyGate(gate: Json)
  {
    Get(gate, "metric") == Some(Text("p95_latency_ms"))
  }

  function NotLatencyGate(): Json -> bool { (gate: Json) => !IsLatencyGate(gate) }

  predicate Truthy(j: Json)
  {
    match j
    case Null => false
    case Bool(b) => b
    case Number(m, _) => m != 0
    case Text(s) => s != ""
    case Array(items) => items != []
    case Object(fields) => fields != map[]
  }

  function AllPassed(gates: seq<Json>): Option<bool>
  {
    if gates == [] then Some(true)
    else
      var passed :- Get(gates[0], "passed");
      if !Truthy(passed) then Some(false) else AllPassed(gates[1..])
  }

  function QualifyingControl(digests: map<string, Json>): Json -> Option<Json>
  {
    (c: Json) =>
      var items :- Items(c);
      if |items| != 3 || !items[0].Text? || items[0].s !in digests then None
      else Some(Array([items[0], items[1], digests[items[0].s]]))
  }

  function ControlPassed(): Json -> bool { (c: Json) => c.Array? && |c.items| > 1 && Truthy(c.items[1]) }

  /** Every gate but the one latency gate. */
  function StableGates(readiness: Json): Option<seq<Json>>
  {
    var gates :- Get(readiness, "gates");
    var raw :- Items(gates);
    if Have(raw, "metric") && |Filter(NotLatencyGate(), raw)| + 1 == |raw| then Some(Filter(NotLatencyGate(), raw))
    else None
  }

  function StableQualifying(readiness: Json, digests: map<string, Json>): Option<seq<Json>>
  {
    var controls :- Get(readiness, "qualifying_controls");
    var raw :- Items(controls);
    Each(QualifyingControl(digests), raw)
  }

  function StableReadiness(h: Digest, sc: Schema, readiness: Json, digests: map<string, Json>): Option<Json>
  {
    var fields :- ExactFields(readiness, sc.readiness);
    var gates :- StableGates(readiness);
    var controls :- StableQualifying(readiness, digests);
    var arm :- Get(readiness, "evaluated_arm");
    var gatesPassed :- AllPassed(gates);
    Some(Sealed(h, UnsealedReadiness(arm, gates, gatesPassed, controls), "deterministic_readiness_sha256"))
  }

  /** The fields of stable readiness before they are sealed, the status derived from the rest. */
  function UnsealedReadiness(arm: Json, gates: seq<Json>, gatesPassed: bool, controls: seq<Json>): Fields
  {
    var ready := gatesPassed && forall c :: c in controls ==> ControlPassed()(c);
    map["evaluated_arm" := arm, "gates" := Array(gates), "qualifying_controls" := Array(controls),
        "deterministic_status" := Text(if ready then "ready" else "not_ready")]
  }

  // ---------------------------------------------------------------- the core document

  datatype Payload = Payload(header: Fields, addresses: Json, results: seq<Json>, complete: seq<Json>, controls: Json,
                             readiness: Json)

  function ArmOf(): Json -> Option<Json> { (r: Json) => Get(r, "arm") }

  function StableCompletes(h: Digest, sc: Schema, complete: seq<Json>, results: seq<Json>): Option<seq<Json>>
  {
    if |complete| != |results| then None
    else if complete == [] then Some([])
    else
      var digest :- Get(results[0], "deterministic_result_sha256");
      var first :- StableComplete(h, sc, complete[0], digest);
      var rest :- StableCompletes(h, sc, complete[1..], results[1..]);
      Some([first] + rest)
  }

  function ArmNames(names: seq<string>): seq<Json>
  {
    if names == [] then [] else [Text(names[0])] + ArmNames(names[1..])
  }

  /** The five parts of a core. */
  datatype Parts = Parts(addresses: Json, results: seq<Json>, metrics: seq<Json>, controls: Json, readiness: Json)

  function Document(header: Fields, x: Parts): Json
  {
    Object(header["execution_artifact_addresses" := x.addresses]["arm_results" := Array(x.results)]
                 ["complete_metrics" := Array(x.metrics)]["controls" := x.controls]["readiness" := x.readiness])
  }

  function PartsOf(h: Digest, sc: Schema, p: Payload): Option<Parts>
  {
    var results :- Each(StableResult(h, sc), p.results);
    var metrics :- StableCompletes(h, sc, p.complete, results);
    var controls :- StableControls(h, sc, p.controls);
    var readiness :- StableReadiness(h, sc, p.readiness, controls.1);
    Some(Parts(p.addresses, results, metrics, controls.0, readiness))
  }

  /** `_independent_core_document`. */
  function Core(h: Digest, sc: Schema, p: Payload): Option<Json>
  {
    var parts :- PartsOf(h, sc, p);
    var arms :- Each(ArmOf(), parts.results);
    if arms == ArmNames(sc.arms) then Some(Document(p.header, parts)) else None
  }

  // ---------------------------------------------------------------- differing only in timing

  /** The same keys, and the same values but for the keys listed. */
  ghost predicate AgreeOff(a: Fields, b: Fields, keys: set<string>)
  {
    a.Keys == b.Keys && forall k :: k in a && k !in keys ==> a[k] == b[k]
  }

  ghost predicate ObjectsAgreeOff(a: Json, b: Json, keys: set<string>)
  {
    a == b || (a.Object? && b.Object? && AgreeOff(a.fields, b.fields, keys))
  }

  ghost predicate Pairwise(rel: (Json, Json) -> bool, xs: seq<Json>, ys: seq<Json>)
  {
    |xs| == |ys| && forall i :: 0 <= i < |xs| ==> rel(xs[i], ys[i])
  }

  ghost predicate ArraysAlike(rel: (Json, Json) -> bool, a: Json, b: Json)
  {
    a == b || (a.Array? && b.Array? && Pairwise(rel, a.items, b.items))
  }

  /** Field k of both, when they have it, is related by rel. */
  ghost predicate FieldAlike(rel: (Json, Json) -> bool, a: Json, b: Json, k: string)
  {
    match (Get(a, k), Get(b, k))
    case (Some(x), Some(y)) => rel(x, y)
    case _ => true
  }

  ghost function RowsAlike(): (Json, Json) -> bool
  {
    (a: Json, b: Json) => ObjectsAgreeOff(a, b, {"latency_ms", "row_output_sha256"})
  }

  ghost function RowListsAlike(): (Json, Json) -> bool { (a: Json, b: Json) => ArraysAlike(RowsAlike(), a, b) }

  ghost function ResultsAlike(): (Json, Json) -> bool
  {
    (a: Json, b: Json) =>
      && ObjectsAgreeOff(a, b, {"p50_latency_ms", "p95_latency_ms", "p99_latency_ms", "score_sha256", "result_sha256",
                                "arm_spec", "row_evidence"})
      && FieldAlike(RowListsAlike(), a, b, "row_evidence")
  }

  ghost function AggregatesAlike(): (Json, Json) -> bool
  {
    (a: Json, b: Json) => ObjectsAgreeOff(a, b, {"p50_latency_ms", "p95_latency_ms", "p99_latency_ms"})
  }

  ghost function CompletesAlike(): (Json, Json) -> bool
  {
    (a: Json, b: Json) =>
      && ObjectsAgreeOff(a, b, {"arm_result_sha256", "complete_metrics_sha256", "aggregate"})
      && FieldAlike(AggregatesAlike(), a, b, "aggregate")
  }

  ghost function WorkloadRowsAlike(): (Json, Json) -> bool {
    (a: Json, b: Json) => ObjectsAgreeOff(a, b, {"latency_ms"})
  }

  ghost function WorkloadRowListsAlike(): (Json, Json) -> bool {
    (a: Json, b: Json) => ArraysAlike(WorkloadRowsAlike(), a, b)
  }

  ghost function WorkloadArmsAlike(): (Json, Json) -> bool
  {
    (a: Json, b: Json) =>
      && ObjectsAgreeOff(a, b, {"score_sha256", "rows"})
      && FieldAlike(WorkloadRowListsAlike(), a, b, "rows")
  }

  ghost function ArmMapsAlike(): (Json, Json) -> bool
  {
    (a: Json, b: Json) =>
      a == b || (a.Object? && b.Object? && a.fields.Keys == b.fields.Keys
                 && forall k :: k in a.fields ==> WorkloadArmsAlike()(a.fields[k], b.fields[k]))
  }

  ghost predicate ControlRowsAlike(name: string, a: Json, b: Json)
  {
    if name in {"identity_rename", "future_causality", "equal_time_isolation", "feature_leakage"} then
      ObjectsAgreeOff(a, b, {"before_score_sha256", "after_score_sha256"})
    else if name in {"benign_only", "fraud_only_diagnostic"} then
      ObjectsAgreeOff(a, b, {"full_score_sha256", "arms"}) && FieldAlike(ArmMapsAlike(), a, b, "arms")
    else a == b
  }

  /** Its name is a text whose last fourteen characters are p95_latency_ms. */
  predicate NamedLatency(m: Json)
  {
    match Get(m, "name")
    case Some(Text(s)) => |s| >= 14 && s[|s| - 14..] == "p95_latency_ms"
    case _ => false
  }

  ghost function MeasurementsAlike(): (Json, Json) -> bool
  {
    (a: Json, b: Json) => a == b || (NamedLatency(a) && NamedLatency(b))
  }

  ghost function MeasurementListsAlike(): (Json, Json) -> bool {
    (a: Json, b: Json) => ArraysAlike(MeasurementsAlike(), a, b)
  }

  ghost function ControlsAlike(): (Json, Json) -> bool
  {
    (a: Json, b: Json) =>
      && ObjectsAgreeOff(a, b, {"control_sha256", "row_evidence_json", "row_evidence_sha256", "measurements"})
      && FieldAlike(MeasurementListsAlike(), a, b, "measurements")
      && (match (Get(a, "name"), Get(a, "row_evidence_json"), Get(b, "row_evidence_json"))
          case (Some(Text(name)), Some(x), Some(y)) => ControlRowsAlike(name, x, y)
          case _ => true)
  }

  ghost function ControlListsAlike(): (Json, Json) -> bool { (a: Json, b: Json) => ArraysAlike(ControlsAlike(), a, b) }

  ghost predicate SuitesAlike(a: Json, b: Json)
  {
    && ObjectsAgreeOff(a, b, {"suite_sha256", "controls"})
    && FieldAlike(ControlListsAlike(), a, b, "controls")
  }

  ghost function GatesAlike(): (Json, Json) -> bool
  {
    (a: Json, b: Json) =>
      a == b || Get(a, "metric") == Get(b, "metric") == Some(Text("p95_latency_ms"))
  }

  ghost function GateListsAlike(): (Json, Json) -> bool { (a: Json, b: Json) => ArraysAlike(GatesAlike(), a, b) }

  /** Equal but for the digest in third place. */
  ghost function QualifyingAlike(): (Json, Json) -> bool
  {
    (a: Json, b: Json) =>
      a == b || (a.Array? && b.Array? && |a.items| == |b.items| == 3 && a.items[..2] == b.items[..2])
  }

  ghost function QualifyingListsAlike(): (Json, Json) -> bool {
    (a: Json, b: Json) => ArraysAlike(QualifyingAlike(), a, b)
  }

  ghost predicate ReadinessAlike(a: Json, b: Json)
  {
    && ObjectsAgreeOff(a, b, {"status", "readiness_sha256", "gates", "qualifying_controls"})
    && FieldAlike(GateListsAlike(), a, b, "gates")
    && FieldAlike(QualifyingListsAlike(), a, b, "qualifying_controls")
  }

  /** The two payloads differ only in latency samples, latency metrics, the latency gate, the
      readiness status and the digests derived from them. */
  ghost predicate DifferOnlyInTiming(p: Payload, q: Payload)
  {
    && p.header == q.header && p.addresses == q.addresses
    && Pairwise(ResultsAlike(), p.results, q.results)
    && Pairwise(CompletesAlike(), p.complete, q.complete)
    && SuitesAlike(p.controls, q.controls)
    && ReadinessAlike(p.readiness, q.readiness)
  }

  // ---------------------------------------------------------------- the core ignores timing

  lemma SameRest(a: Fields, b: Fields, keys: set<string>, more: set<string>)
    requires AgreeOff(a, b, keys) && keys <= more
    ensures a - more == b - more
  {
    assert forall k :: k in a - more <==> k in b - more;
  }

  lemma SameField(a: Json, b: Json, keys: set<string>, k: string)
    requires ObjectsAgreeOff(a, b, keys)
    ensures k !in keys ==> Get(a, k) == Get(b, k)
    ensures Get(a, k).Some? == Get(b, k).Some?
    ensures a.Object? == b.Object? && (a.Object? ==> a.fields.Keys == b.fields.Keys)
  {
    if a.Object? && b.Object? { assert k in a.fields.Keys <==> k in b.fields.Keys; }
  }

  lemma PairwiseTail(rel: (Json, Json) -> bool, xs: seq<Json>, ys: seq<Json>)
    requires Pairwise(rel, xs, ys) && xs != []
    ensures rel(xs[0], ys[0]) && Pairwise(rel, xs[1..], ys[1..])
  {
    forall i | 0 <= i < |xs| - 1 ensures rel(xs[1..][i], ys[1..][i]) { assert rel(xs[i + 1], ys[i + 1]); }
  }

  /** A step blind to a relation gives the same list on related lists. */
  lemma {:induction false} EachSame(f: Json -> Option<Json>, rel: (Json, Json) -> bool, xs: seq<Json>, ys: seq<Json>)
    requires Pairwise(rel, xs, ys)
    requires forall x, y :: rel(x, y) ==> f(x) == f(y)
    ensures Each(f, xs) == Each(f, ys)
  {
    if xs != [] {
      PairwiseTail(rel, xs, ys);
      EachSame(f, rel, xs[1..], ys[1..]);
    }
  }

  lemma ItemsSame(f: Json -> Option<Json>, rel: (Json, Json) -> bool, a: Json, b: Json)
    requires ArraysAlike(rel, a, b)
    requires forall x, y :: rel(x, y) ==> f(x) == f(y)
    ensures a.Array? == b.Array?
    ensures a.Array? ==> Each(f, a.items) == Each(f, b.items) && |a.items| == |b.items|
  {
    if a != b { EachSame(f, rel, a.items, b.items); }
  }

  lemma RowSame(h: Digest, sc: Schema, a: Json, b: Json)
    requires RowsAlike()(a, b)
    ensures StableRow(h, sc)(a) == StableRow(h, sc)(b)
  {
    if a != b { SameRest(a.fields, b.fields, ROW_TIMING, ROW_TIMING); }
  }

  lemma RowListSame(h: Digest, sc: Schema, x: Json, y: Json)
    requires RowListsAlike()(x, y)
    ensures x.Array? == y.Array? && (x.Array? ==> Each(StableRow(h, sc), x.items) == Each(StableRow(h, sc), y.items))
  {
    forall a, b | RowsAlike()(a, b) ensures StableRow(h, sc)(a) == StableRow(h, sc)(b) { RowSame(h, sc, a, b); }
    hide StableRow, RowsAlike;
    ItemsSame(StableRow(h, sc), RowsAlike(), x, y);
  }

  lemma ResultSame(h: Digest, sc: Schema, a: Json, b: Json)
    requires ResultsAlike()(a, b)
    ensures StableResult(h, sc)(a) == StableResult(h, sc)(b)
  {
    if a != b {
      SameRest(a.fields, b.fields, RESULT_DROPPED, RESULT_DROPPED);
      SameField(a, b, RESULT_DROPPED, "row_evidence");
      hide StableRow, ResultOver, RowListsAlike, Each, AgreeOff;
      if Get(a, "row_evidence").Some? {
        RowListSame(h, sc, Get(a, "row_evidence").value, Get(b, "row_evidence").value);
      }
    }
  }

  lemma BoundSame(a: Json, b: Json)
    requires ObjectsAgreeOff(a, b, {"arm_result_sha256", "complete_metrics_sha256", "aggregate"})
    ensures BoundMetrics(a) == BoundMetrics(b)
  {
    var off := {"arm_result_sha256", "complete_metrics_sha256", "aggregate"};
    SameField(a, b, off, "arm");
    SameField(a, b, off, "support_sha256");
    SameField(a, b, off, "calibration");
    SameField(a, b, off, "economics");
    SameField(a, b, off, "by_family");
    SameField(a, b, off, "bootstrap");
    hide Get, BoundOver, ObjectsAgreeOff;
  }

  lemma KeptSame(a: Json, b: Json)
    requires CompletesAlike()(a, b)
    ensures Kept(a) == Kept(b)
  {
    SameField(a, b, {"arm_result_sha256", "complete_metrics_sha256", "aggregate"}, "aggregate");
    if Get(a, "aggregate").Some? { AggregateSame(Get(a, "aggregate").value, Get(b, "aggregate").value); }
    hide Get, AggregatesAlike, ObjectsAgreeOff;
  }

  lemma CompleteSame(h: Digest, sc: Schema, a: Json, b: Json, digest: Json)
    requires CompletesAlike()(a, b)
    ensures StableComplete(h, sc, a, digest) == StableComplete(h, sc, b, digest)
  {
    BoundSame(a, b);
    KeptSame(a, b);
    SameField(a, b, {"arm_result_sha256", "complete_metrics_sha256", "aggregate"}, "aggregate");
    hide Sealed, Get, Kept, BoundMetrics, AggregatesAlike, ObjectsAgreeOff;
  }

  lemma AggregateSame(a: Json, b: Json)
    requires AggregatesAlike()(a, b)
    ensures a.Object? == b.Object?
    ensures a.Object? ==> a.fields.Keys == b.fields.Keys && a.fields - LATENCY == b.fields - LATENCY
  {
    if a != b { SameRest(a.fields, b.fields, LATENCY, LATENCY); }
  }

  lemma WorkloadArmSame(a: Json, b: Json)
    requires WorkloadArmsAlike()(a, b)
    ensures StableWorkloadArm(a) == StableWorkloadArm(b)
  {
    if a != b {
      var off := {"score_sha256", "rows"};
      SameField(a, b, off, "score_sha256");
      SameField(a, b, off, "rows");
      SameRest(a.fields, b.fields, off, off);
      if Get(a, "rows").Some? {
        forall x, y | WorkloadRowsAlike()(x, y) ensures StableWorkloadRow()(x) == StableWorkloadRow()(y) {
          if x != y { SameRest(x.fields, y.fields, {"latency_ms"}, {"latency_ms"}); }
        }
        hide StableWorkloadRow;
        ItemsSame(StableWorkloadRow(), WorkloadRowsAlike(), Get(a, "rows").value, Get(b, "rows").value);
      }
    }
  }

  lemma {:induction false} ArmsSame(a: Fields, b: Fields, names: seq<string>)
    requires a.Keys == b.Keys && forall k :: k in a ==> WorkloadArmsAlike()(a[k], b[k])
    ensures StableArms(a, names) == StableArms(b, names)
  {
    if names != [] {
      var n := |names| - 1;
      ArmsSame(a, b, names[..n]);
      if names[n] in a {
        assert names[n] in b.Keys;
        WorkloadArmSame(a[names[n]], b[names[n]]);
      }
      hide StableWorkloadArm, WorkloadArmsAlike;
    }
  }

  lemma ControlRowsSame(sc: Schema, name: string, a: Json, b: Json)
    requires ControlRowsAlike(name, a, b)
    ensures StableControlRows(sc, name, a) == StableControlRows(sc, name, b)
  {
    if a != b {
      if name in INVARIANCE {
        SameRest(a.fields, b.fields, SCORE_BINDINGS, SCORE_BINDINGS);
      } else {
        var off := {"full_score_sha256", "arms"};
        SameField(a, b, off, "arms");
        if "arms" in a.fields && a.fields["arms"] != b.fields["arms"] {
          ArmsSame(a.fields["arms"].fields, b.fields["arms"].fields, sc.arms);
        }
        hide StableArms, WorkloadArmsAlike;
      }
    }
  }

  lemma MeasurementsNamed(x: Json, y: Json)
    requires MeasurementsAlike()(x, y)
    ensures Get(x, "name").Some? == Get(y, "name").Some?
  {
    if x != y { assert Get(x, "name").Some? && Get(y, "name").Some?; }
  }

  /** Related elements are equal or both dropped, so the filtered lists are the same. */
  lemma {:induction false} FilterSame(p: Json -> bool, rel: (Json, Json) -> bool, xs: seq<Json>, ys: seq<Json>)
    requires Pairwise(rel, xs, ys) && forall x, y :: rel(x, y) ==> x == y || (!p(x) && !p(y))
    ensures Filter(p, xs) == Filter(p, ys)
  {
    if xs != [] {
      PairwiseTail(rel, xs, ys);
      hide Pairwise;
      FilterSame(p, rel, xs[1..], ys[1..]);
    }
  }

  lemma HaveSame(rel: (Json, Json) -> bool, k: string, xs: seq<Json>, ys: seq<Json>)
    requires Pairwise(rel, xs, ys) && forall x, y :: rel(x, y) ==> Get(x, k).Some? == Get(y, k).Some?
    ensures Have(xs, k) == Have(ys, k)
  {
    hide Get;
    assert forall i :: 0 <= i < |xs| ==> xs[i] in xs && ys[i] in ys && rel(xs[i], ys[i]);
  }

  lemma MeasurementsSame(xs: seq<Json>, ys: seq<Json>)
    requires Pairwise(MeasurementsAlike(), xs, ys)
    ensures Filter(NotLatency(), xs) == Filter(NotLatency(), ys) && |xs| == |ys|
    ensures Have(xs, "name") == Have(ys, "name")
  {
    forall x, y | MeasurementsAlike()(x, y)
      ensures Get(x, "name").Some? == Get(y, "name").Some?
    {
      MeasurementsNamed(x, y);
    }
    hide Get, Filter, Have;
    HaveSame(MeasurementsAlike(), "name", xs, ys);
    FilterSame(NotLatency(), MeasurementsAlike(), xs, ys);
  }

  lemma ControlMeasurementsSame(a: Json, b: Json)
    requires ObjectsAgreeOff(a, b, CONTROL_DERIVED) && FieldAlike(MeasurementListsAlike(), a, b, "measurements")
    ensures Measurements(a) == Measurements(b)
  {
    SameField(a, b, CONTROL_DERIVED, "measurements");
    var m, n := Get(a, "measurements"), Get(b, "measurements");
    if m.Some? && m != n { MeasurementsSame(m.value.items, n.value.items); }
    hide Have, Filter, Get, MeasurementsAlike, ObjectsAgreeOff;
  }

  lemma StableRowsSame(sc: Schema, a: Json, b: Json)
    requires ControlsAlike()(a, b)
    ensures ControlRows(sc, a) == ControlRows(sc, b)
  {
    if a != b {
      SameField(a, b, CONTROL_DERIVED, "name");
      SameField(a, b, CONTROL_DERIVED, "row_evidence_json");
      var x, y := Get(a, "row_evidence_json"), Get(b, "row_evidence_json");
      if x.Some? && Get(a, "name").Some? && Get(a, "name").value.Text? {
        ControlRowsSame(sc, Get(a, "name").value.s, x.value, y.value);
      }
      hide StableControlRows, Get, ControlRowsAlike, MeasurementsAlike, AgreeOff;
    }
  }

  lemma ControlSame(h: Digest, sc: Schema, a: Json, b: Json)
    requires ControlsAlike()(a, b)
    ensures StableControl(h, sc, a) == StableControl(h, sc, b)
  {
    if a != b {
      ControlMeasurementsSame(a, b);
      StableRowsSame(sc, a, b);
      SameField(a, b, CONTROL_DERIVED, "name");
      SameRest(a.fields, b.fields, CONTROL_DERIVED, CONTROL_DERIVED);
      hide Sealed, ControlRows, Measurements, Get, ControlRowsAlike, MeasurementsAlike, AgreeOff, UnsealedControl;
    }
  }

  lemma {:induction false} ControlListSame(h: Digest, sc: Schema, xs: seq<Json>, ys: seq<Json>)
    requires Pairwise(ControlsAlike(), xs, ys)
    ensures StableControlList(h, sc, xs) == StableControlList(h, sc, ys)
  {
    if xs != [] {
      var n := |xs| - 1;
      assert ControlsAlike()(xs[n], ys[n]);
      ControlSame(h, sc, xs[n], ys[n]);
      hide StableControl, ControlsAlike;
      ControlListSame(h, sc, xs[..n], ys[..n]);
    }
  }

  lemma SuiteSame(h: Digest, sc: Schema, a: Json, b: Json)
    requires SuitesAlike(a, b)
    ensures StableControls(h, sc, a) == StableControls(h, sc, b)
  {
    if a != b {
      var off := {"suite_sha256", "controls"};
      SameField(a, b, off, "controls");
      var x, y := Get(a, "controls"), Get(b, "controls");
      if x.Some? && x != y { ControlListSame(h, sc, x.value.items, y.value.items); }
      if x.Some? && x.value.Array? && StableControlList(h, sc, x.value.items).Some? {
        SuiteRest(a.fields, b.fields, Array(StableControlList(h, sc, x.value.items).value.stable));
      }
      hide StableControlList, ControlsAlike, Sealed;
    }
  }

  /** The listing under "controls" is replaced, so only the other fields have to agree. */
  lemma SuiteRest(a: Fields, b: Fields, listing: Json)
    requires AgreeOff(a, b, {"suite_sha256", "controls"})
    ensures (a - {"suite_sha256"})["controls" := listing] == (b - {"suite_sha256"})["controls" := listing]
  {
    var x, y := (a - {"suite_sha256"})["controls" := listing], (b - {"suite_sha256"})["controls" := listing];
    assert forall k :: k in x <==> k in y;
  }

  lemma GatesNamed(x: Json, y: Json)
    requires GatesAlike()(x, y)
    ensures Get(x, "metric").Some? == Get(y, "metric").Some?
  {
    if x != y { assert Get(x, "metric").Some? && Get(y, "metric").Some?; }
  }

  lemma GatesSame(xs: seq<Json>, ys: seq<Json>)
    requires Pairwise(GatesAlike(), xs, ys)
    ensures Filter(NotLatencyGate(), xs) == Filter(NotLatencyGate(), ys) && |xs| == |ys|
    ensures Have(xs, "metric") == Have(ys, "metric")
  {
    forall x, y | GatesAlike()(x, y) ensures Get(x, "metric").Some? == Get(y, "metric").Some? { GatesNamed(x, y); }
    hide Get, Filter, Have;
    HaveSame(GatesAlike(), "metric", xs, ys);
    FilterSame(NotLatencyGate(), GatesAlike(), xs, ys);
  }

  lemma ReadinessGatesSame(a: Json, b: Json)
    requires ObjectsAgreeOff(a, b, READINESS_DERIVED) && FieldAlike(GateListsAlike(), a, b, "gates")
    ensures StableGates(a) == StableGates(b)
  {
    SameField(a, b, READINESS_DERIVED, "gates");
    var m, n := Get(a, "gates"), Get(b, "gates");
    if m.Some? && m != n { GatesSame(m.value.items, n.value.items); }
    hide Have, Filter, Get, GatesAlike, ObjectsAgreeOff;
  }

  lemma ReadinessQualifyingSame(a: Json, b: Json, digests: map<string, Json>)
    requires ObjectsAgreeOff(a, b, READINESS_DERIVED) && FieldAlike(QualifyingListsAlike(), a, b, "qualifying_controls")
    ensures StableQualifying(a, digests) == StableQualifying(b, digests)
  {
    SameField(a, b, READINESS_DERIVED, "qualifying_controls");
    var x, y := Get(a, "qualifying_controls"), Get(b, "qualifying_controls");
    if x.Some? {
      forall c, d | QualifyingAlike()(c, d) ensures QualifyingControl(digests)(c) == QualifyingControl(digests)(d) {
        QualifyingSame(digests, c, d);
      }
      hide QualifyingControl, QualifyingAlike;
      ItemsSame(QualifyingControl(digests), QualifyingAlike(), x.value, y.value);
    }
  }

  lemma ReadinessSame(h: Digest, sc: Schema, a: Json, b: Json, digests: map<string, Json>)
    requires ReadinessAlike(a, b)
    ensures StableReadiness(h, sc, a, digests) == StableReadiness(h, sc, b, digests)
  {
    ReadinessGatesSame(a, b);
    ReadinessQualifyingSame(a, b, digests);
    SameField(a, b, READINESS_DERIVED, "evaluated_arm");
    hide Sealed, Get, StableGates, StableQualifying, ObjectsAgreeOff, FieldAlike, AllPassed;
  }

  lemma QualifyingSame(digests: map<string, Json>, c: Json, d: Json)
    requires QualifyingAlike()(c, d)
    ensures QualifyingControl(digests)(c) == QualifyingControl(digests)(d)
  {
    if c != d {
      assert c.items[0] == c.items[..2][0] && c.items[1] == c.items[..2][1];
      assert d.items[0] == d.items[..2][0] && d.items[1] == d.items[..2][1];
    }
  }

  lemma {:induction false} CompletesSame(h: Digest, sc: Schema, xs: seq<Json>, ys: seq<Json>, results: seq<Json>)
    requires Pairwise(CompletesAlike(), xs, ys)
    ensures StableCompletes(h, sc, xs, results) == StableCompletes(h, sc, ys, results)
  {
    hide StableComplete;
    if xs != [] && |xs| == |results| {
      PairwiseTail(CompletesAlike(), xs, ys);
      var digest := Get(results[0], "deterministic_result_sha256");
      if digest.Some? { CompleteSame(h, sc, xs[0], ys[0], digest.value); }
      hide CompletesAlike;
      CompletesSame(h, sc, xs[1..], ys[1..], results[1..]);
    }
  }

  /** Two payloads that differ only in timing have the same core, or are both refused. */
  lemma CoreIgnoresTiming(h: Digest, sc: Schema, p: Payload, q: Payload)
    requires DifferOnlyInTiming(p, q)
    ensures Core(h, sc, p) == Core(h, sc, q)
  {
    hide StableResult, StableCompletes, StableControls, StableReadiness, Each, ResultsAlike;
    forall a, b | ResultsAlike()(a, b) ensures StableResult(h, sc)(a) == StableResult(h, sc)(b) {
      ResultSame(h, sc, a, b);
    }
    EachSame(StableResult(h, sc), ResultsAlike(), p.results, q.results);
    var results := Each(StableResult(h, sc), p.results);
    if results.Some? { CompletesSame(h, sc, p.complete, q.complete, results.value); }
    SuiteSame(h, sc, p.controls, q.controls);
    var controls := StableControls(h, sc, p.controls);
    if controls.Some? { ReadinessSame(h, sc, p.readiness, q.readiness, controls.value.1); }
  }
}
