/** What each stable document of the deterministic core holds, by the names of its fields, and when there is one. */
module CoreFields {
  import opened Aggregates
  import opened CoreProjection
  import opened CoreConverse

  // ---------------------------------------------------------------- rows and results

  /** d is an object that holds exactly the entries of `fields`, and under the name given the digest of all these. */
  ghost predicate SealedOver(h: Digest, d: Json, fields: Fields, name: string)
  {
    && d.Object? && name !in fields && d.fields.Keys == fields.Keys + {name}
    && (forall k :: k in fields ==> d.fields[k] == fields[k]) && d.fields[name] == Text(h(Object(fields)))
  }

  lemma SealIs(h: Digest, fields: Fields, name: string)
    requires name !in fields
    ensures SealedOver(h, Sealed(h, fields, name), fields, name)
  {
  }

  /** A row has a stable form exactly when it has the fields of a row; the form seals all but the two timing ones. */
  lemma RowShows(h: Digest, sc: Schema, row: Json)
    requires "deterministic_row_sha256" !in sc.row
    ensures var s := StableRow(h, sc)(row);
      && (s.Some? <==> row.Object? && row.fields.Keys == sc.row)
      && (s.Some? ==>
            SealedOver(h, s.value, row.fields - {"latency_ms", "row_output_sha256"}, "deterministic_row_sha256"))
  {
    if row.Object? && row.fields.Keys == sc.row {
      SealIs(h, row.fields - ROW_TIMING, "deterministic_row_sha256");
    }
    hide Sealed, SealedOver;
  }

  /** The row names its event under its support. */
  predicate NamesEvent(row: Json)
  {
    match Get(row, "support")
    case Some(support) => Get(support, "event_id").Some?
    case None => false
  }

  lemma {:induction false} EachIff(f: Json -> Option<Json>, xs: seq<Json>)
    ensures Each(f, xs).Some? <==> forall x :: x in xs ==> f(x).Some?
    ensures Each(f, xs).Some? ==>
      |Each(f, xs).value| == |xs| && forall i :: 0 <= i < |xs| ==> Some(Each(f, xs).value[i]) == f(xs[i])
  {
    if xs != [] {
      EachIff(f, xs[1..]);
      assert forall x :: x in xs <==> x == xs[0] || x in xs[1..];
    }
  }

  /** The address of a stable row: the event that its row names, and the digest of the stable form. */
  lemma AddressShows(h: Digest, sc: Schema, row: Json)
    requires "deterministic_row_sha256" !in sc.row && StableRow(h, sc)(row).Some?
    ensures var s := StableRow(h, sc)(row).value;
      && (RowAddress()(s).Some? <==> NamesEvent(row))
      && (NamesEvent(row) ==>
            RowAddress()(s).value.Object?
            && RowAddress()(s).value.fields
               == map["event_id" := Get(Get(row, "support").value, "event_id").value,
                      "deterministic_row_sha256" := Text(h(Object(row.fields - {"latency_ms", "row_output_sha256"})))])
  {
    RowShows(h, sc, row);
    assert "support" in row.fields <==> "support" in StableRow(h, sc)(row).value.fields;
    hide StableRow;
  }

  /** A result has a stable form exactly when it has the fields of a result and a list of rows that have theirs
      and name their events. The form seals what is kept, the addresses of the rows and the digest of them all. */
  lemma ResultIff(h: Digest, sc: Schema, result: Json)
    requires "deterministic_row_sha256" !in sc.row
    ensures StableResult(h, sc)(result).Some?
       <==> && result.Object? && result.fields.Keys == sc.result && "row_evidence" in result.fields
            && result.fields["row_evidence"].Array?
            && forall row :: row in result.fields["row_evidence"].items
                 ==> row.Object? && row.fields.Keys == sc.row && NamesEvent(row)
  {
    hide StableRow, RowAddress, Each, NamesEvent, Sealed;
    if result.Object? && "row_evidence" in result.fields && result.fields["row_evidence"].Array? {
      AddressesIff(h, sc, result.fields["row_evidence"].items);
    }
  }

  lemma AddressesIff(h: Digest, sc: Schema, rows: seq<Json>)
    requires "deterministic_row_sha256" !in sc.row
    ensures (Each(StableRow(h, sc), rows).Some? && Each(RowAddress(), Each(StableRow(h, sc), rows).value).Some?)
       <==> forall row :: row in rows ==> row.Object? && row.fields.Keys == sc.row && NamesEvent(row)
  {
    var stable := Each(StableRow(h, sc), rows);
    EachIff(StableRow(h, sc), rows);
    forall row ensures StableRow(h, sc)(row).Some? <==> row.Object? && row.fields.Keys == sc.row {
      RowShows(h, sc, row);
    }
    hide StableRow, RowAddress, Each, NamesEvent;
    if stable.Some? {
      EachIff(RowAddress(), stable.value);
      forall i | 0 <= i < |rows| ensures RowAddress()(stable.value[i]).Some? <==> NamesEvent(rows[i]) {
        AddressShows(h, sc, rows[i]);
      }
      assert forall s :: s in stable.value ==> exists i :: 0 <= i < |rows| && s == stable.value[i];
      assert forall i :: 0 <= i < |rows| ==> stable.value[i] in stable.value && rows[i] in rows;
    }
  }

  lemma ResultShows(h: Digest, sc: Schema, result: Json)
    requires sc.result !! RESULT_ADDED && StableResult(h, sc)(result).Some?
    ensures result.Object? && RowsOf(h, sc, result).Some? && Each(RowAddress(), RowsOf(h, sc, result).value).Some?
    ensures var rows := RowsOf(h, sc, result).value;
      var kept := result.fields - {"arm_spec", "row_evidence", "p50_latency_ms", "p95_latency_ms", "p99_latency_ms",
                                   "score_sha256", "result_sha256"};
      SealedOver(h, StableResult(h, sc)(result).value,
        kept["row_evidence_addresses" := Array(Each(RowAddress(), rows).value)]
            ["deterministic_row_stream_sha256" := Text(h(Array(rows)))],
        "deterministic_result_sha256")
  {
    hide RowsOf, StableResult, Each, SealedOver, ResultOver;
    ResultUnfolds(h, sc, result);
    DroppedNames(result.fields);
    OverShows(h, result.fields - RESULT_DROPPED, RowsOf(h, sc, result).value);
  }

  lemma DroppedNames(fields: Fields)
    ensures fields - RESULT_DROPPED
         == fields - {"arm_spec", "row_evidence", "p50_latency_ms", "p95_latency_ms", "p99_latency_ms",
                      "score_sha256", "result_sha256"}
  {
    assert RESULT_DROPPED == {"arm_spec", "row_evidence", "p50_latency_ms", "p95_latency_ms", "p99_latency_ms",
                              "score_sha256", "result_sha256"};
  }

  lemma OverShows(h: Digest, kept: Fields, rows: seq<Json>)
    requires kept.Keys !! RESULT_ADDED && ResultOver(h, kept, rows).Some?
    ensures Each(RowAddress(), rows).Some?
    ensures SealedOver(h, ResultOver(h, kept, rows).value,
      kept["row_evidence_addresses" := Array(Each(RowAddress(), rows).value)]
          ["deterministic_row_stream_sha256" := Text(h(Array(rows)))],
      "deterministic_result_sha256")
  {
    hide SealedOver, Sealed, Each;
    var over := kept["row_evidence_addresses" := Array(Each(RowAddress(), rows).value)]
                    ["deterministic_row_stream_sha256" := Text(h(Array(rows)))];
    assert "deterministic_result_sha256" in RESULT_ADDED;
    SealIs(h, over, "deterministic_result_sha256");
  }

  // ---------------------------------------------------------------- metrics, controls

  /** Stable complete metrics seal eight entries: three copies, the result's digest, and the digests of the parts. */
  lemma CompleteShows(h: Digest, sc: Schema, metrics: Json, digest: Json)
    requires StableComplete(h, sc, metrics, digest).Some?
    ensures metrics.Object? && metrics.fields.Keys == sc.complete
    ensures {"arm", "support_sha256", "aggregate", "by_family"} <= sc.complete
    ensures metrics.fields["aggregate"].Object? && metrics.fields["by_family"].Array?
    ensures Each(FamilyDigest(), metrics.fields["by_family"].items).Some?
    ensures Within(metrics, "calibration", "calibration_sha256").Some?
    ensures Within(metrics, "economics", "economics_sha256").Some?
    ensures Within(metrics, "bootstrap", "bootstrap_sha256").Some?
    ensures SealedOver(h, StableComplete(h, sc, metrics, digest).value,
      map["arm" := metrics.fields["arm"], "deterministic_result_sha256" := digest,
          "support_sha256" := metrics.fields["support_sha256"],
          "aggregate" := Object(metrics.fields["aggregate"].fields
                                - {"p50_latency_ms", "p95_latency_ms", "p99_latency_ms"}),
          "calibration_sha256" := Within(metrics, "calibration", "calibration_sha256").value,
          "economics_sha256" := Within(metrics, "economics", "economics_sha256").value,
          "family_sha256" := Array(Each(FamilyDigest(), metrics.fields["by_family"].items).value),
          "bootstrap_sha256" := Within(metrics, "bootstrap", "bootstrap_sha256").value],
      "deterministic_complete_metrics_sha256")
  {
    hide Each, SealedOver, Unsealed, Within, Get, BoundMetrics, Kept;
    CompleteUnfolds(h, sc, metrics, digest);
    NamedFields(h, sc, metrics, digest);
    EightEntries(metrics, digest);
    SealIs(h, Unsealed(metrics, digest).value, "deterministic_complete_metrics_sha256");
  }

  lemma NamedFields(h: Digest, sc: Schema, metrics: Json, digest: Json)
    requires StableComplete(h, sc, metrics, digest).Some?
    ensures metrics.Object? && metrics.fields.Keys == sc.complete
    ensures {"arm", "support_sha256", "aggregate", "by_family"} <= sc.complete
    ensures Get(metrics, "arm") == Some(metrics.fields["arm"])
    ensures Get(metrics, "support_sha256") == Some(metrics.fields["support_sha256"])
    ensures Get(metrics, "aggregate") == Some(metrics.fields["aggregate"])
    ensures Get(metrics, "by_family") == Some(metrics.fields["by_family"])
  {
    hide BoundMetrics, Kept, Within, Each;
    CompleteUnfolds(h, sc, metrics, digest);
    BoundParts(metrics);
    KeptIff(metrics, metrics);
    hide StableComplete;
  }

  lemma UnsealedOver(metrics: Json, digest: Json)
    requires Unsealed(metrics, digest).Some?
    ensures BoundMetrics(metrics).Some? && Get(metrics, "aggregate").Some? && Get(metrics, "aggregate").value.Object?
    ensures Unsealed(metrics, digest).value
         == BoundMetrics(metrics).value["deterministic_result_sha256" := digest]
              ["aggregate" := Object(Get(metrics, "aggregate").value.fields
                                     - {"p50_latency_ms", "p95_latency_ms", "p99_latency_ms"})]
  {
    hide BoundMetrics, Get;
  }

  lemma EightEntries(metrics: Json, digest: Json)
    requires Unsealed(metrics, digest).Some?
    ensures Get(metrics, "arm").Some? && Get(metrics, "support_sha256").Some?
    ensures Get(metrics, "aggregate").Some? && Get(metrics, "aggregate").value.Object?
    ensures Get(metrics, "by_family").Some? && Get(metrics, "by_family").value.Array?
    ensures Each(FamilyDigest(), Get(metrics, "by_family").value.items).Some?
    ensures Within(metrics, "calibration", "calibration_sha256").Some?
    ensures Within(metrics, "economics", "economics_sha256").Some?
    ensures Within(metrics, "bootstrap", "bootstrap_sha256").Some?
    ensures Unsealed(metrics, digest).value
         == map["arm" := Get(metrics, "arm").value, "deterministic_result_sha256" := digest,
                "support_sha256" := Get(metrics, "support_sha256").value,
                "aggregate" := Object(Get(metrics, "aggregate").value.fields
                                      - {"p50_latency_ms", "p95_latency_ms", "p99_latency_ms"}),
                "calibration_sha256" := Within(metrics, "calibration", "calibration_sha256").value,
                "economics_sha256" := Within(metrics, "economics", "economics_sha256").value,
                "family_sha256" := Array(Each(FamilyDigest(), Get(metrics, "by_family").value.items).value),
                "bootstrap_sha256" := Within(metrics, "bootstrap", "bootstrap_sha256").value]
  {
    hide Each, Get, BoundMetrics, Within, Unsealed;
    UnsealedOver(metrics, digest);
    BoundParts(metrics);
    var m := BoundMetrics(metrics).value;
    SixValues(m, map["arm" := m["arm"], "support_sha256" := m["support_sha256"],
                     "calibration_sha256" := m["calibration_sha256"],
                     "economics_sha256" := m["economics_sha256"],
                     "bootstrap_sha256" := m["bootstrap_sha256"], "family_sha256" := m["family_sha256"]]);
  }

  /** Complete metrics are accepted exactly with their fields, an aggregate with its three latencies, and a digest in
      each part that another document stands for. */
  lemma CompleteAcceptedIff(h: Digest, sc: Schema, metrics: Json, digest: Json)
    ensures StableComplete(h, sc, metrics, digest).Some?
       <==> && metrics.Object? && metrics.fields.Keys == sc.complete && HasAggregate(metrics) && HasDigests(metrics)
  {
    hide Sealed, BoundMetrics, Kept, HasAggregate, HasDigests;
    AggregateIff(metrics);
    DigestsIff(metrics);
  }

  predicate HasAggregate(metrics: Json)
  {
    match Get(metrics, "aggregate")
    case Some(Object(a)) => "p50_latency_ms" in a && "p95_latency_ms" in a && "p99_latency_ms" in a
    case _ => false
  }

  predicate HasDigests(metrics: Json)
  {
    && Get(metrics, "arm").Some? && Get(metrics, "support_sha256").Some?
    && Within(metrics, "calibration", "calibration_sha256").Some?
    && Within(metrics, "economics", "economics_sha256").Some?
    && Within(metrics, "bootstrap", "bootstrap_sha256").Some?
    && match Get(metrics, "by_family")
       case Some(Array(families)) => forall f :: f in families ==> Get(f, "family_sha256").Some?
       case _ => false
  }

  lemma AggregateIff(metrics: Json)
    ensures Kept(metrics).Some? <==> HasAggregate(metrics)
  {
    hide Get;
  }

  lemma DigestsIff(metrics: Json)
    ensures BoundMetrics(metrics).Some? <==> HasDigests(metrics)
  {
    var families := Get(metrics, "by_family");
    if families.Some? && families.value.Array? {
      EachIff(FamilyDigest(), families.value.items);
    }
    hide Get, Each;
  }

  /** A stable control seals what is kept with the measurements that are no latency and the digest of its row
      evidence, and goes by its own name. */
  lemma ControlShows(h: Digest, sc: Schema, control: Json)
    requires sc.control !! CONTROL_ADDED && StableControl(h, sc, control).Some?
    ensures control.Object? && control.fields.Keys == sc.control && {"name", "measurements"} <= sc.control
    ensures control.fields["measurements"].Array? && ControlRows(sc, control).Some?
    ensures var (name, s) := StableControl(h, sc, control).value;
      var kept := control.fields - {"control_sha256", "row_evidence_json", "row_evidence_sha256", "measurements"};
      && control.fields["name"] == Text(name)
      && SealedOver(h, s,
           kept["measurements" := Array(Filter(NoNamedLatency(), control.fields["measurements"].items))]
               ["deterministic_row_evidence_sha256" := Text(h(ControlRows(sc, control).value))],
           "deterministic_control_sha256")
  {
    ControlUnfolds(h, sc, control);
    hide ControlRows, Filter, Have, SealedOver;
    SameMeasurementsKept(control.fields["measurements"].items);
    hide NoNamedLatency, NotLatency;
    SealIs(h, UnsealedControl(h, control.fields - CONTROL_DERIVED, Measurements(control).value,
                              ControlRows(sc, control).value), "deterministic_control_sha256");
  }

  predicate IsWorkloadRow(row: Json)
  {
    row.Object? && row.fields.Keys == {"event_id", "action", "probability", "latency_ms"}
  }

  predicate IsWorkloadArm(arm: Json)
  {
    && arm.Object? && "score_sha256" in arm.fields && "rows" in arm.fields && arm.fields["rows"].Array?
    && forall row :: row in arm.fields["rows"].items ==> IsWorkloadRow(row)
  }

  lemma WorkloadRowShows(row: Json)
    ensures StableWorkloadRow()(row).Some? <==> IsWorkloadRow(row)
    ensures IsWorkloadRow(row) ==>
      StableWorkloadRow()(row).value
      == Object(map["event_id" := row.fields["event_id"], "action" := row.fields["action"],
                    "probability" := row.fields["probability"]])
  {
    if IsWorkloadRow(row) {
      ThreeOfFour(row.fields);
    }
  }

  lemma ThreeOfFour(row: Fields)
    requires row.Keys == {"event_id", "action", "probability", "latency_ms"}
    ensures row - {"latency_ms"}
         == map["event_id" := row["event_id"], "action" := row["action"], "probability" := row["probability"]]
  {
    var kept := map["event_id" := row["event_id"], "action" := row["action"], "probability" := row["probability"]];
    assert (row - {"latency_ms"}).Keys == {"event_id", "action", "probability"} == kept.Keys;
    forall k | k in kept ensures (row - {"latency_ms"})[k] == kept[k] {
    }
  }

  /** A stable arm of a workload control: its fields but the score, and of each row event, action and probability. */
  lemma WorkloadArmShows(arm: Json)
    ensures StableWorkloadArm(arm).Some? <==> IsWorkloadArm(arm)
    ensures IsWorkloadArm(arm) ==>
      var s, rows := StableWorkloadArm(arm).value, arm.fields["rows"].items;
      && s.Object? && "rows" in s.fields && s.fields["rows"].Array? && |s.fields["rows"].items| == |rows|
      && s.fields - {"rows"} == arm.fields - {"score_sha256", "rows"}
      && forall i :: 0 <= i < |rows| ==> Some(s.fields["rows"].items[i]) == StableWorkloadRow()(rows[i])
  {
    hide StableWorkloadRow, Each;
    if arm.Object? && "rows" in arm.fields && arm.fields["rows"].Array? {
      var rows := arm.fields["rows"].items;
      EachIff(StableWorkloadRow(), rows);
      forall row ensures StableWorkloadRow()(row).Some? <==> IsWorkloadRow(row) { WorkloadRowShows(row); }
    }
    hide IsWorkloadRow;
    if StableWorkloadArm(arm).Some? {
      ArmUnfolds(arm);
    }
  }

  lemma {:induction false} ArmsIff(arms: Fields, names: seq<string>)
    ensures StableArms(arms, names).Some? <==> forall n :: n in names ==> n in arms && IsWorkloadArm(arms[n])
    ensures StableArms(arms, names).Some? ==> StableArms(arms, names).value.Keys == set n | n in names
  {
    if names != [] {
      var last, before := names[|names| - 1], names[..|names| - 1];
      assert names == before + [last];
      ArmsIff(arms, before);
      if last in arms { WorkloadArmShows(arms[last]); }
    }
    hide StableWorkloadArm, IsWorkloadArm;
  }

  /** The stable arms of a workload control, each by its name. */
  ghost predicate HoldsArms(sc: Schema, s: Json, arms: Fields)
  {
    && s.Object? && s.fields.Keys == {"arms"} && s.fields["arms"].Object?
    && s.fields["arms"].fields.Keys == (set n | n in sc.arms)
    && forall n :: n in sc.arms ==> n in arms && StableWorkloadArm(arms[n]) == Some(s.fields["arms"].fields[n])
  }

  lemma ArmsHeld(sc: Schema, arms: Fields)
    requires StableArms(arms, sc.arms).Some?
    ensures HoldsArms(sc, Object(map["arms" := Object(StableArms(arms, sc.arms).value)]), arms)
  {
    hide StableArms, StableWorkloadArm, IsWorkloadArm;
    ArmsIff(arms, sc.arms);
    var stable := StableArms(arms, sc.arms).value;
    forall n | n in sc.arms ensures n in arms && StableWorkloadArm(arms[n]) == Some(stable[n]) {
      var i :| 0 <= i < |sc.arms| && sc.arms[i] == n;
      ArmListed(arms, sc.arms, i);
    }
  }

  lemma WorkloadEvidence(sc: Schema, name: string, rows: Json)
    requires name == "benign_only" || name == "fraud_only_diagnostic"
    ensures StableControlRows(sc, name, rows).Some? <==> IsControlEvidence(sc, name, rows)
    ensures IsControlEvidence(sc, name, rows) ==>
      HoldsArms(sc, StableControlRows(sc, name, rows).value, rows.fields["arms"].fields)
  {
    hide StableArms, StableWorkloadArm, IsWorkloadArm, HoldsArms;
    if rows.Object? && rows.fields.Keys == {"arms", "full_score_sha256"} && rows.fields["arms"].Object? {
      var arms := rows.fields["arms"].fields;
      ArmsIff(arms, sc.arms);
      if StableArms(arms, sc.arms).Some? { ArmsHeld(sc, arms); }
    }
  }

  /** The row evidence a control must have, by its name. */
  ghost predicate IsControlEvidence(sc: Schema, name: string, rows: Json)
  {
    if name in {"identity_rename", "future_causality", "equal_time_isolation", "feature_leakage"} then
      rows.Object? && "before_score_sha256" in rows.fields && "after_score_sha256" in rows.fields
    else if name in {"benign_only", "fraud_only_diagnostic"} then
      && rows.Object? && rows.fields.Keys == {"arms", "full_score_sha256"} && rows.fields["arms"].Object?
      && rows.fields["arms"].fields.Keys == (set n | n in sc.arms)
      && forall n :: n in sc.arms ==> IsWorkloadArm(rows.fields["arms"].fields[n])
    else rows.Object? && name == "label_shuffle"
  }

  /** Row evidence is kept, or refused, as its control demands: an invariance control keeps all but the two scores, a
      workload control its stable arms alone, the shuffled labels everything; an unknown control has none. */
  lemma ControlEvidenceIff(sc: Schema, name: string, rows: Json)
    ensures StableControlRows(sc, name, rows).Some? <==> IsControlEvidence(sc, name, rows)
    ensures IsControlEvidence(sc, name, rows) ==>
      var s := StableControlRows(sc, name, rows).value;
      if name in {"benign_only", "fraud_only_diagnostic"} then HoldsArms(sc, s, rows.fields["arms"].fields)
      else if name == "label_shuffle" then s == rows
      else s == Object(rows.fields - {"before_score_sha256", "after_score_sha256"})
  {
    if name == "benign_only" || name == "fraud_only_diagnostic" {
      WorkloadEvidence(sc, name, rows);
      hide StableControlRows, IsControlEvidence, HoldsArms;
    } else {
      hide StableArms, HoldsArms, IsWorkloadArm;
      BindingNames(name);
    }
  }

  lemma BindingNames(name: string)
    requires name != "benign_only" && name != "fraud_only_diagnostic"
    ensures name !in WORKLOAD && SCORE_BINDINGS == {"before_score_sha256", "after_score_sha256"}
    ensures name in INVARIANCE
        <==> name in {"identity_rename", "future_causality", "equal_time_isolation", "feature_leakage"}
  {
  }

  /** A control is accepted exactly with its fields, a name, measurements that all have names, and the row evidence
      that its name demands. */
  lemma ControlAcceptedIff(h: Digest, sc: Schema, control: Json)
    ensures StableControl(h, sc, control).Some?
       <==> && control.Object? && control.fields.Keys == sc.control
            && {"name", "measurements", "row_evidence_json"} <= sc.control
            && control.fields["name"].Text? && control.fields["measurements"].Array?
            && (forall m :: m in control.fields["measurements"].items ==> Get(m, "name").Some?)
            && IsControlEvidence(sc, control.fields["name"].s, control.fields["row_evidence_json"])
  {
    hide Sealed, UnsealedControl, StableControlRows, IsControlEvidence, Filter;
    if control.Object? && {"name", "row_evidence_json"} <= control.fields.Keys && control.fields["name"].Text? {
      ControlEvidenceIff(sc, control.fields["name"].s, control.fields["row_evidence_json"]);
    }
  }

  /** A stable suite seals the suite's own fields with the stable controls listed in order. */
  lemma SuiteShows(h: Digest, sc: Schema, suite: Json)
    requires "deterministic_control_suite_sha256" !in sc.suite && StableControls(h, sc, suite).Some?
    ensures suite.Object? && suite.fields.Keys == sc.suite && "controls" in suite.fields
    ensures suite.fields["controls"].Array? && StableControlList(h, sc, suite.fields["controls"].items).Some?
    ensures SealedOver(h, StableControls(h, sc, suite).value.0,
      (suite.fields - {"suite_sha256"})
        ["controls" := Array(StableControlList(h, sc, suite.fields["controls"].items).value.stable)],
      "deterministic_control_suite_sha256")
  {
    hide StableControlList, SealedOver;
    SealIs(h, (suite.fields - {"suite_sha256"})
                ["controls" := Array(StableControlList(h, sc, suite.fields["controls"].items).value.stable)],
           "deterministic_control_suite_sha256");
    hide Sealed;
  }

  /** Stable controls are listed in their order, and each name is bound to the digest in the last control so named. */
  lemma {:induction false} ListShows(h: Digest, sc: Schema, controls: seq<Json>, i: nat)
    requires StableControlList(h, sc, controls).Some? && i < |controls|
    ensures var c := StableControlList(h, sc, controls).value;
      && |c.stable| == |controls| && StableControl(h, sc, controls[i]).Some?
      && c.stable[i] == StableControl(h, sc, controls[i]).value.1
      && StableControl(h, sc, controls[i]).value.0 in c.digests
      && ((forall j :: i < j < |controls| ==>
             StableControl(h, sc, controls[j]).Some?
             && StableControl(h, sc, controls[j]).value.0 != StableControl(h, sc, controls[i]).value.0)
          ==> Some(c.digests[StableControl(h, sc, controls[i]).value.0])
              == Get(c.stable[i], "deterministic_control_sha256"))
  {
    hide StableControl;
    var n := |controls| - 1;
    if i < n {
      ListShows(h, sc, controls[..n], i);
    } else if n > 0 {
      ListShows(h, sc, controls[..n], 0);
    }
  }

  // ---------------------------------------------------------------- readiness

  /** What counts as passed: anything but null, false, zero and the empty text, list and object. */
  predicate Passed(j: Json)
  {
    && j !in {Null, Bool(false), Text(""), Array([]), Object(map[])}
    && !(j.Number? && j.mantissa == 0)
  }

  lemma TruthyIsPassed(j: Json)
    ensures Truthy(j) == Passed(j)
  {
  }

  lemma {:induction false} AllPassedIff(gates: seq<Json>)
    requires AllPassed(gates).Some?
    ensures AllPassed(gates).value <==>
      forall g :: g in gates ==> Get(g, "passed").Some? && Passed(Get(g, "passed").value)
  {
    if gates != [] {
      assert forall g :: g in gates <==> g == gates[0] || g in gates[1..];
      TruthyIsPassed(Get(gates[0], "passed").value);
      if Truthy(Get(gates[0], "passed").value) { AllPassedIff(gates[1..]); }
      hide Truthy, Passed;
    }
  }

  /** The stable status is "ready" exactly when every gate other than the latency gate has passed and every
      qualifying control has, and otherwise "not_ready"; the status of the source plays no part. */
  lemma ReadyIff(h: Digest, sc: Schema, readiness: Json, digests: map<string, Json>)
    requires StableReadiness(h, sc, readiness, digests).Some?
    ensures Get(readiness, "gates").Some? && Get(readiness, "gates").value.Array?
    ensures Get(readiness, "qualifying_controls").Some? && Get(readiness, "qualifying_controls").value.Array?
    ensures var gates, controls :=
        Get(readiness, "gates").value.items, Get(readiness, "qualifying_controls").value.items;
      var ready :=
        && (forall g :: g in gates && Get(g, "metric") != Some(Text("p95_latency_ms"))
              ==> Get(g, "passed").Some? && Passed(Get(g, "passed").value))
        && (forall c :: c in controls ==> c.Array? && |c.items| == 3 && Passed(c.items[1]));
      Get(StableReadiness(h, sc, readiness, digests).value, "deterministic_status")
      == Some(Text(if ready then "ready" else "not_ready"))
  {
    hide StableReadiness, StableGates, StableQualifying, AllPassed, UnsealedReadiness, Sealed, Passed, Get;
    ReadinessUnfolds(h, sc, readiness, digests);
    var gates, controls := StableGates(readiness).value, StableQualifying(readiness, digests).value;
    var passed := AllPassed(gates).value;
    StatusIs(h, Get(readiness, "evaluated_arm").value, gates, passed, controls);
    GatesPassed(readiness);
    ControlsPassed(readiness, digests);
  }

  lemma StatusIs(h: Digest, arm: Json, gates: seq<Json>, passed: bool, controls: seq<Json>)
    ensures var s := Sealed(h, UnsealedReadiness(arm, gates, passed, controls), "deterministic_readiness_sha256");
      var ready := passed && forall c :: c in controls ==> ControlPassed()(c);
      Get(s, "deterministic_status") == Some(Text(if ready then "ready" else "not_ready"))
  {
    hide ControlPassed;
    var u := UnsealedReadiness(arm, gates, passed, controls);
    SealIs(h, u, "deterministic_readiness_sha256");
    assert "deterministic_status" in u;
    hide UnsealedReadiness, Sealed;
  }

  lemma GatesPassed(readiness: Json)
    requires StableGates(readiness).Some? && AllPassed(StableGates(readiness).value).Some?
    ensures Get(readiness, "gates").Some? && Get(readiness, "gates").value.Array?
    ensures AllPassed(StableGates(readiness).value).value
       <==> forall g :: g in Get(readiness, "gates").value.items && Get(g, "metric") != Some(Text("p95_latency_ms"))
              ==> Get(g, "passed").Some? && Passed(Get(g, "passed").value)
  {
    hide AllPassed, Passed, Filter, Have;
    var gates := StableGates(readiness).value;
    var raw := Get(readiness, "gates").value.items;
    AllPassedIff(gates);
    SameGatesKept(raw);
    hide StableGates, NotLatencyGate;
    FilterHolds(KeptGate(), raw);
    assert forall g :: g in gates <==> g in raw && Get(g, "metric") != Some(Text("p95_latency_ms")) by {
      hide Get;
    }
  }

  lemma {:induction false} FilterHolds(p: Json -> bool, xs: seq<Json>)
    ensures forall x :: x in Filter(p, xs) <==> x in xs && p(x)
  {
    if xs != [] {
      var last, before := xs[|xs| - 1], xs[..|xs| - 1];
      FilterHolds(p, before);
      assert xs == before + [last];
    }
  }

  lemma ControlsPassed(readiness: Json, digests: map<string, Json>)
    requires StableQualifying(readiness, digests).Some?
    ensures Get(readiness, "qualifying_controls").Some? && Get(readiness, "qualifying_controls").value.Array?
    ensures (forall c :: c in StableQualifying(readiness, digests).value ==> ControlPassed()(c))
       <==> forall c :: c in Get(readiness, "qualifying_controls").value.items
              ==> c.Array? && |c.items| == 3 && Passed(c.items[1])
  {
    hide Get, Each, ControlPassed, Passed, QualifyingControl;
    QualifyingPassed(Get(readiness, "qualifying_controls").value.items, digests);
  }

  lemma ReadinessUnfolds(h: Digest, sc: Schema, readiness: Json, digests: map<string, Json>)
    requires StableReadiness(h, sc, readiness, digests).Some?
    ensures readiness.Object? && readiness.fields.Keys == sc.readiness && Get(readiness, "evaluated_arm").Some?
    ensures StableGates(readiness).Some? && StableQualifying(readiness, digests).Some?
    ensures AllPassed(StableGates(readiness).value).Some?
    ensures var gates, controls := StableGates(readiness).value, StableQualifying(readiness, digests).value;
      StableReadiness(h, sc, readiness, digests).value
      == Sealed(h, UnsealedReadiness(Get(readiness, "evaluated_arm").value, gates, AllPassed(gates).value, controls),
                "deterministic_readiness_sha256")
  {
    hide StableGates, StableQualifying, AllPassed, Sealed, UnsealedReadiness;
  }

  lemma QualifyingPassed(controls: seq<Json>, digests: map<string, Json>)
    requires Each(QualifyingControl(digests), controls).Some?
    ensures (forall c :: c in Each(QualifyingControl(digests), controls).value ==> ControlPassed()(c))
       <==> forall c :: c in controls ==> c.Array? && |c.items| == 3 && Passed(c.items[1])
  {
    var stable := Each(QualifyingControl(digests), controls).value;
    EachIff(QualifyingControl(digests), controls);
    forall i | 0 <= i < |controls|
      ensures controls[i].Array? && |controls[i].items| == 3
      ensures ControlPassed()(stable[i]) == Passed(controls[i].items[1])
    {
      assert controls[i] in controls && QualifyingControl(digests)(controls[i]) == Some(stable[i]);
      TruthyIsPassed(controls[i].items[1]);
    }
    hide QualifyingControl, ControlPassed, Passed, Each;
    assert forall c :: c in stable ==> exists i :: 0 <= i < |controls| && c == stable[i];
    assert forall c :: c in controls ==> exists i :: 0 <= i < |controls| && c == controls[i];
    assert forall i :: 0 <= i < |controls| ==> stable[i] in stable && controls[i] in controls;
  }

  /** Stable readiness seals the arm, every gate but the one on latency, the status, and the qualifying controls,
      each with its name, its verdict and the stable digest of the control it names. */
  lemma ReadinessShows(h: Digest, sc: Schema, readiness: Json, digests: map<string, Json>)
    requires StableReadiness(h, sc, readiness, digests).Some?
    ensures {"evaluated_arm", "gates", "qualifying_controls"} <= sc.readiness
    ensures readiness.Object? && readiness.fields.Keys == sc.readiness && readiness.fields["gates"].Array?
    ensures StableQualifying(readiness, digests).Some?
    ensures var s := StableReadiness(h, sc, readiness, digests).value;
      var gates := readiness.fields["gates"].items;
      && |Filter(KeptGate(), gates)| + 1 == |gates| && s.Object? && "deterministic_status" in s.fields
      && SealedOver(h, s,
           map["evaluated_arm" := readiness.fields["evaluated_arm"], "gates" := Array(Filter(KeptGate(), gates)),
               "qualifying_controls" := Array(StableQualifying(readiness, digests).value),
               "deterministic_status" := s.fields["deterministic_status"]],
           "deterministic_readiness_sha256")
  {
    hide StableReadiness, AllPassed, Filter, StableGates, StableQualifying, SealedOver, Sealed, UnsealedReadiness, Get;
    ReadinessUnfolds(h, sc, readiness, digests);
    ReadinessFields(readiness, digests);
    var gates, controls := StableGates(readiness).value, StableQualifying(readiness, digests).value;
    var u := UnsealedReadiness(Get(readiness, "evaluated_arm").value, gates, AllPassed(gates).value, controls);
    FourEntries(Get(readiness, "evaluated_arm").value, gates, AllPassed(gates).value, controls);
    SealIs(h, u, "deterministic_readiness_sha256");
    StatusKept(h, u);
  }

  lemma StatusKept(h: Digest, u: Fields)
    requires "deterministic_status" in u
    ensures var s := Sealed(h, u, "deterministic_readiness_sha256");
      s.Object? && "deterministic_status" in s.fields && s.fields["deterministic_status"] == u["deterministic_status"]
  {
  }

  lemma FourEntries(arm: Json, gates: seq<Json>, passed: bool, controls: seq<Json>)
    ensures var u := UnsealedReadiness(arm, gates, passed, controls);
      && "deterministic_status" in u && "deterministic_readiness_sha256" !in u
      && u == map["evaluated_arm" := arm, "gates" := Array(gates), "qualifying_controls" := Array(controls),
                  "deterministic_status" := u["deterministic_status"]]
  {
    hide ControlPassed;
  }

  lemma ReadinessFields(readiness: Json, digests: map<string, Json>)
    requires readiness.Object? && StableGates(readiness).Some? && StableQualifying(readiness, digests).Some?
    requires Get(readiness, "evaluated_arm").Some?
    ensures {"evaluated_arm", "gates", "qualifying_controls"} <= readiness.fields.Keys
    ensures readiness.fields["gates"].Array?
    ensures Get(readiness, "evaluated_arm").value == readiness.fields["evaluated_arm"]
    ensures StableGates(readiness).value == Filter(KeptGate(), readiness.fields["gates"].items)
    ensures |Filter(KeptGate(), readiness.fields["gates"].items)| + 1 == |readiness.fields["gates"].items|
  {
    hide Filter, Each, Have;
    SameGatesKept(readiness.fields["gates"].items);
    hide KeptGate, NotLatencyGate, QualifyingControl;
  }

  lemma QualifyingShows(readiness: Json, digests: map<string, Json>, i: nat)
    requires StableQualifying(readiness, digests).Some?
    requires "qualifying_controls" in readiness.fields && readiness.fields["qualifying_controls"].Array?
    requires i < |readiness.fields["qualifying_controls"].items|
    ensures var controls := StableQualifying(readiness, digests).value;
      var c := readiness.fields["qualifying_controls"].items[i];
      && |controls| == |readiness.fields["qualifying_controls"].items|
      && c.Array? && |c.items| == 3 && c.items[0].Text? && c.items[0].s in digests
      && controls[i] == Array([c.items[0], c.items[1], digests[c.items[0].s]])
  {
    var items := readiness.fields["qualifying_controls"].items;
    EachIff(QualifyingControl(digests), items);
    assert items[i] in items;
    hide Each;
  }

  // ---------------------------------------------------------------- the core document

  /** A core carries the header and, under their names, the addresses, the stable results in the order of the
      arms, the stable metrics, each bound to its result, the stable controls and the stable readiness. */
  lemma CoreShows(h: Digest, sc: Schema, p: Payload)
    requires Core(h, sc, p).Some? && p.header.Keys !! CORE_ADDED
    ensures Each(StableResult(h, sc), p.results).Some? && |p.results| == |sc.arms|
    ensures StableControls(h, sc, p.controls).Some?
    ensures StableCompletes(h, sc, p.complete, Each(StableResult(h, sc), p.results).value).Some?
    ensures StableReadiness(h, sc, p.readiness, StableControls(h, sc, p.controls).value.1).Some?
    ensures var core, results := Core(h, sc, p).value, Each(StableResult(h, sc), p.results).value;
      && |results| == |sc.arms|
      && (forall i :: 0 <= i < |sc.arms| ==> Get(results[i], "arm") == Some(Text(sc.arms[i])))
      && core.Object? && (forall k :: k in p.header ==> k in core.fields && core.fields[k] == p.header[k])
      && Get(core, "execution_artifact_addresses") == Some(p.addresses)
      && Get(core, "arm_results") == Some(Array(results))
      && Get(core, "complete_metrics") == Some(Array(StableCompletes(h, sc, p.complete, results).value))
      && Get(core, "controls") == Some(StableControls(h, sc, p.controls).value.0)
      && Get(core, "readiness")
         == StableReadiness(h, sc, p.readiness, StableControls(h, sc, p.controls).value.1)
  {
    hide StableResult, StableCompletes, StableControls, StableReadiness, Each, ArmNames;
    var results := Each(StableResult(h, sc), p.results).value;
    EachIff(StableResult(h, sc), p.results);
    EachIff(ArmOf(), results);
    ArmNamesAre(sc.arms);
  }

  lemma {:induction false} ArmNamesAre(names: seq<string>)
    ensures |ArmNames(names)| == |names| && forall i :: 0 <= i < |names| ==> ArmNames(names)[i] == Text(names[i])
  {
    if names != [] { ArmNamesAre(names[1..]); }
  }
}
