/** How the economic accounting groups the events of all manifests into payments. */
module PaymentGroups {
  import opened Aggregates
  import Ledger
  import Economics

  /** One event of the manifest at index `source`. */
  datatype Fact = Fact(source: nat, link: Ledger.Link, record: Ledger.Record)

  /** The fraud flag of a link and the decision time of a raw event, by event id. */
  datatype Readings = Readings(isFraud: string -> bool, decidedAt: string -> real)

  /** The number of events of a manifest. An accepted one has as many records as links. */
  function Count(m: Ledger.Manifest): nat
  {
    if |m.lineage| <= |m.records| then |m.lineage| else |m.records|
  }

  /** Its first n events, each link with its record. */
  function FactsOf(m: Ledger.Manifest, source: nat, n: nat): (r: seq<Fact>)
    requires n <= Count(m)
    ensures |r| == n && forall i :: 0 <= i < n ==> r[i] == Fact(source, m.lineage[i], m.records[i])
  {
    if n == 0 then [] else FactsOf(m, source, n - 1) + [Fact(source, m.lineage[n - 1], m.records[n - 1])]
  }

  /** The events of the first k manifests, in the order they are read. */
  function Facts(ms: seq<Ledger.Manifest>, k: nat): seq<Fact>
    requires k <= |ms|
  {
    if k == 0 then [] else Facts(ms, k - 1) + FactsOf(ms[k - 1], k - 1, Count(ms[k - 1]))
  }

  ghost predicate AllAccepted(ms: seq<Ledger.Manifest>)
  {
    forall m :: m in ms ==> Ledger.Accepted(m)
  }

  lemma AcceptedAligned(ms: seq<Ledger.Manifest>, k: nat)
    requires AllAccepted(ms) && k < |ms|
    ensures Ledger.Accepted(ms[k]) && Count(ms[k]) == |ms[k].lineage| == |ms[k].records|
  {
    assert ms[k] in ms;
  }

  function PaidBy(p: string): Fact -> bool { (f: Fact) => f.link.payment == p }
  function Position(): Fact -> int { (f: Fact) => f.link.position }

  /** The events listed for one payment. */
  function PaidIn(p: string, facts: seq<Fact>): seq<Fact>
  {
    Filter(PaidBy(p), facts)
  }

  function Group(ms: seq<Ledger.Manifest>, p: string): seq<Fact>
  {
    PaidIn(p, Facts(ms, |ms|))
  }

  lemma PaidNone(p: string)
    ensures PaidIn(p, []) == []
  {
  }

  lemma PaidSnoc(p: string, facts: seq<Fact>, f: Fact)
    ensures PaidIn(p, facts + [f]) == PaidIn(p, facts) + if f.link.payment == p then [f] else []
  {
    FilterSnoc(PaidBy(p), facts, f);
    hide Filter;
  }

  lemma PaidAppend(p: string, a: seq<Fact>, b: seq<Fact>)
    ensures PaidIn(p, a + b) == PaidIn(p, a) + PaidIn(p, b)
  {
    FilterAppend(PaidBy(p), a, b);
  }

  ghost predicate Distinct(facts: seq<Fact>)
  {
    forall i, j :: 0 <= i < j < |facts| ==> facts[i].link.eventId != facts[j].link.eventId
  }

  // ---------------------------------------------------------------- grouping

  /** The dictionary of payments, its keys in insertion order, and the set of event ids. */
  datatype Index = Index(groups: map<string, seq<Fact>>, keys: seq<string>, events: set<string>)

  ghost predicate GroupsBy(groups: map<string, seq<Fact>>, facts: seq<Fact>)
  {
    && (forall p :: PaidIn(p, facts) == if p in groups then groups[p] else [])
    && (forall p :: p in groups ==> groups[p] != [])
  }

  ghost predicate ListsOnce(keys: seq<string>, ids: set<string>)
  {
    && (forall p :: p in keys <==> p in ids)
    && (forall i, j :: 0 <= i < j < |keys| ==> keys[i] != keys[j])
  }

  ghost predicate EventIds(events: set<string>, facts: seq<Fact>)
  {
    forall e :: e in events <==> exists f :: f in facts && f.link.eventId == e
  }

  ghost predicate Indexes(x: Index, facts: seq<Fact>)
  {
    GroupsBy(x.groups, facts) && ListsOnce(x.keys, x.groups.Keys) && EventIds(x.events, facts)
  }

  lemma GroupsNoted(groups: map<string, seq<Fact>>, f: Fact, facts: seq<Fact>)
    requires GroupsBy(groups, facts)
    ensures var p := f.link.payment;
      GroupsBy(groups[p := (if p in groups then groups[p] else []) + [f]], facts + [f])
  {
    forall q { PaidSnoc(q, facts, f); }
    hide PaidIn;
  }

  lemma KeysNoted(keys: seq<string>, ids: set<string>, p: string)
    requires ListsOnce(keys, ids)
    ensures ListsOnce(if p in ids then keys else keys + [p], ids + {p})
    ensures p in ids ==> ids + {p} == ids
  {
  }

  lemma EventsNoted(events: set<string>, f: Fact, facts: seq<Fact>)
    requires EventIds(events, facts)
    ensures EventIds(events + {f.link.eventId}, facts + [f])
  {
    forall e ensures e in events + {f.link.eventId} <==> exists g :: g in facts + [f] && g.link.eventId == e {
      assert f in facts + [f];
      if e in events {
        var g :| g in facts && g.link.eventId == e;
        assert g in facts + [f];
      }
    }
  }

  function Noted(x: Index, f: Fact): Index
  {
    var p := f.link.payment;
    Index(x.groups[p := (if p in x.groups then x.groups[p] else []) + [f]],
          if p in x.groups then x.keys else x.keys + [p],
          x.events + {f.link.eventId})
  }

  lemma NotedIndexes(x: Index, f: Fact, facts: seq<Fact>)
    requires Indexes(x, facts)
    ensures Indexes(Noted(x, f), facts + [f])
  {
    hide GroupsBy, EventIds, ListsOnce, PaidIn;
    GroupsNoted(x.groups, f, facts);
    KeysNoted(x.keys, x.groups.Keys, f.link.payment);
    EventsNoted(x.events, f, facts);
    assert Noted(x, f).groups.Keys == x.groups.Keys + {f.link.payment};
  }

  /** One event: refused when its id was seen before, otherwise appended under its payment. */
  method Note(x: Index, f: Fact, ghost facts: seq<Fact>) returns (r: Option<Index>)
    requires Indexes(x, facts)
    ensures r.None? <==> exists g :: g in facts && g.link.eventId == f.link.eventId
    ensures r.Some? ==> Indexes(r.value, facts + [f])
  {
    NotedIndexes(x, f, facts);
    assert EventIds(x.events, facts);
    hide Indexes, Noted;
    return if f.link.eventId in x.events then None else Some(Noted(x, f));
  }

  /** x indexes the events of the first k manifests, none of them repeated. */
  ghost predicate Read(x: Index, ms: seq<Ledger.Manifest>, k: nat)
    requires k <= |ms|
  {
    Distinct(Facts(ms, k)) && Indexes(x, Facts(ms, k))
  }

  /** The grouping loop over one manifest. */
  method GroupManifest(x: Index, ms: seq<Ledger.Manifest>, k: nat) returns (r: Option<Index>)
    requires k < |ms| && Read(x, ms, k)
    ensures r.Some? ==> Read(r.value, ms, k + 1)
    ensures r.None? ==> !Distinct(Facts(ms, |ms|))
  {
    FactsSnoc(ms, k);
    var m := ms[k];
    ghost var before := Facts(ms, k);
    hide Indexes, Distinct, FactsOf, Facts;
    var y := x;
    for i := 0 to Count(m)
      invariant Distinct(before + FactsOf(m, k, i)) && Indexes(y, before + FactsOf(m, k, i))
    {
      var f := Fact(k, m.lineage[i], m.records[i]);
      DoneSnoc(ms, k, i, f);
      var z := Note(y, f, before + FactsOf(m, k, i));
      if z.None? {
        NotDistinct(ms, k, i, f);
        return None;
      }
      StillDistinct(before + FactsOf(m, k, i), f);
      y := z.value;
    }
    return Some(y);
  }

  /** The grouping loop over all manifests; it stops at the first repeated event id. */
  method GroupAll(ms: seq<Ledger.Manifest>) returns (r: Option<Index>)
    ensures r.Some? <==> Distinct(Facts(ms, |ms|))
    ensures r.Some? ==> Indexes(r.value, Facts(ms, |ms|))
  {
    hide Read, Facts, Indexes, Distinct;
    var x := Index(map[], [], {});
    NothingRead(ms);
    for k := 0 to |ms|
      invariant Read(x, ms, k)
    {
      var y := GroupManifest(x, ms, k);
      if y.None? {
        return None;
      }
      x := y.value;
    }
    AllRead(x, ms);
    return Some(x);
  }

  lemma NothingRead(ms: seq<Ledger.Manifest>)
    ensures Read(Index(map[], [], {}), ms, 0)
  {
  }

  lemma AllRead(x: Index, ms: seq<Ledger.Manifest>)
    requires Read(x, ms, |ms|)
    ensures Distinct(Facts(ms, |ms|)) && Indexes(x, Facts(ms, |ms|))
  {
    hide Facts, Indexes, Distinct;
  }

  lemma FactsSnoc(ms: seq<Ledger.Manifest>, k: nat)
    requires k < |ms|
    ensures Facts(ms, k) + FactsOf(ms[k], k, 0) == Facts(ms, k)
    ensures Facts(ms, k + 1) == Facts(ms, k) + FactsOf(ms[k], k, Count(ms[k]))
  {
  }

  lemma DoneSnoc(ms: seq<Ledger.Manifest>, k: nat, i: nat, f: Fact)
    requires k < |ms| && i < Count(ms[k])
    requires f == Fact(k, ms[k].lineage[i], ms[k].records[i])
    ensures Facts(ms, k) + FactsOf(ms[k], k, i + 1) == Facts(ms, k) + FactsOf(ms[k], k, i) + [f]
  {
  }

  lemma StillDistinct(facts: seq<Fact>, f: Fact)
    requires Distinct(facts) && !exists g :: g in facts && g.link.eventId == f.link.eventId
    ensures Distinct(facts + [f])
  {
  }

  lemma {:induction false} FactsPrefix(ms: seq<Ledger.Manifest>, k: nat, n: nat)
    requires k <= n <= |ms|
    ensures Facts(ms, k) <= Facts(ms, n)
  {
    if k < n { FactsPrefix(ms, k, n - 1); }
  }

  lemma NotDistinct(ms: seq<Ledger.Manifest>, k: nat, i: nat, f: Fact)
    requires k < |ms| && i < Count(ms[k])
    requires f == Fact(k, ms[k].lineage[i], ms[k].records[i])
    requires exists g :: g in Facts(ms, k) + FactsOf(ms[k], k, i) && g.link.eventId == f.link.eventId
    ensures !Distinct(Facts(ms, |ms|))
  {
    var all, done := Facts(ms, |ms|), Facts(ms, k) + FactsOf(ms[k], k, i);
    DonePrefix(ms, k, i, f);
    hide FactsOf, Facts;
    var g :| g in done && g.link.eventId == f.link.eventId;
    var j :| 0 <= j < |done| && done[j] == g;
    assert all[j] == (done + [f])[j] == g && all[|done|] == (done + [f])[|done|] == f;
  }

  lemma DonePrefix(ms: seq<Ledger.Manifest>, k: nat, i: nat, f: Fact)
    requires k < |ms| && i < Count(ms[k]) && f == Fact(k, ms[k].lineage[i], ms[k].records[i])
    ensures Facts(ms, k) + FactsOf(ms[k], k, i) + [f] <= Facts(ms, |ms|)
  {
    FactsSnoc(ms, k);
    FactsPrefix(ms, k + 1, |ms|);
    DoneSnoc(ms, k, i, f);
    FactsOfPrefix(ms[k], k, i + 1, Count(ms[k]));
    hide FactsOf, Facts;
  }

  lemma FactsOfPrefix(m: Ledger.Manifest, k: nat, i: nat, n: nat)
    requires i <= n <= Count(m)
    ensures FactsOf(m, k, i) <= FactsOf(m, k, n)
  {
  }

  // ---------------------------------------------------------------- one payment, one manifest

  /** The positions of a payment's events within one manifest are those the replay checked. */
  lemma {:induction false} PositionsWithin(m: Ledger.Manifest, k: nat, n: nat, p: string)
    requires n <= Count(m)
    ensures Map(Position(), PaidIn(p, FactsOf(m, k, n))) == Ledger.Positions(m.lineage, n, p)
  {
    PaidNone(p);
    if n > 0 {
      PositionsWithin(m, k, n - 1, p);
      var f := Fact(k, m.lineage[n - 1], m.records[n - 1]);
      var before := FactsOf(m, k, n - 1);
      assert FactsOf(m, k, n) == before + [f];
      assert Map(Position(), [f]) == [f.link.position];
      hide FactsOf, PaidIn, Map;
      PaidSnoc(p, before, f);
      MapAppend(Position(), PaidIn(p, before), [f]);
    }
  }

  function Within(ms: seq<Ledger.Manifest>, k: nat, p: string): seq<Fact>
    requires k < |ms|
  {
    PaidIn(p, FactsOf(ms[k], k, Count(ms[k])))
  }

  lemma WithinFacts(ms: seq<Ledger.Manifest>, k: nat, p: string)
    requires AllAccepted(ms) && k < |ms|
    ensures Map(Position(), Within(ms, k, p)) == Ledger.Ascending(|Within(ms, k, p)|)
    ensures forall f :: f in Within(ms, k, p) ==> f.source == k
  {
    AcceptedAligned(ms, k);
    PositionsWithin(ms[k], k, Count(ms[k]), p);
    hide Ledger.Accepted;
  }

  /** Reading k manifests, a payment's group is what it has in each, one after the other. */
  lemma GroupSnoc(ms: seq<Ledger.Manifest>, k: nat, p: string)
    requires k < |ms|
    ensures PaidIn(p, Facts(ms, k + 1)) == PaidIn(p, Facts(ms, k)) + Within(ms, k, p)
  {
    PaidAppend(p, Facts(ms, k), FactsOf(ms[k], k, Count(ms[k])));
    hide PaidIn, FactsOf;
  }

  lemma NoFacts(ms: seq<Ledger.Manifest>, p: string)
    ensures PaidIn(p, Facts(ms, 0)) == []
  {
  }

  lemma {:induction false} WithinGroup(ms: seq<Ledger.Manifest>, n: nat, p: string, f: Fact)
    requires n <= |ms|
    ensures f in PaidIn(p, Facts(ms, n)) <==> exists k :: 0 <= k < n && f in Within(ms, k, p)
  {
    hide Within, Facts, PaidIn;
    NoFacts(ms, p);
    if n > 0 {
      WithinGroup(ms, n - 1, p, f);
      GroupSnoc(ms, n - 1, p);
    }
  }

  /** The payment occurs in manifest k. */
  ghost predicate Occurs(ms: seq<Ledger.Manifest>, k: nat, p: string)
  {
    k < |ms| && exists link :: link in ms[k].lineage && link.payment == p
  }

  ghost predicate InOneManifest(ms: seq<Ledger.Manifest>, p: string)
  {
    forall k, l :: Occurs(ms, k, p) && Occurs(ms, l, p) ==> k == l
  }

  lemma OccursWithin(ms: seq<Ledger.Manifest>, k: nat, p: string)
    requires AllAccepted(ms) && k < |ms|
    ensures Occurs(ms, k, p) <==> Within(ms, k, p) != []
  {
    AcceptedAligned(ms, k);
    hide Ledger.Accepted;
    var all := FactsOf(ms[k], k, Count(ms[k]));
    if Occurs(ms, k, p) {
      var link :| link in ms[k].lineage && link.payment == p;
      var i :| 0 <= i < |ms[k].lineage| && ms[k].lineage[i] == link;
      assert all[i] in PaidIn(p, all);
    }
    if Within(ms, k, p) != [] {
      var f := Within(ms, k, p)[0];
      assert f in all;
      var i :| 0 <= i < |all| && all[i] == f;
      assert ms[k].lineage[i] in ms[k].lineage;
    }
  }

  /** A payment in one manifest has, over all manifests, the group it has in that one. */
  lemma {:induction false} OnlyWithin(ms: seq<Ledger.Manifest>, n: nat, k: nat, p: string)
    requires AllAccepted(ms) && n <= |ms| && k < |ms|
    requires forall l :: Occurs(ms, l, p) ==> l == k
    ensures PaidIn(p, Facts(ms, n)) == if k < n then Within(ms, k, p) else []
  {
    hide Within, Occurs, Ledger.Accepted, AllAccepted, PaidIn, Facts;
    NoFacts(ms, p);
    if n > 0 {
      OnlyWithin(ms, n - 1, k, p);
      GroupSnoc(ms, n - 1, p);
      OccursWithin(ms, n - 1, p);
      var before, here := PaidIn(p, Facts(ms, n - 1)), Within(ms, n - 1, p);
      assert before + [] == before && [] + here == here;
    }
  }

  // ---------------------------------------------------------------- the positions check

  function ByPosition(): (Fact, Fact) -> bool { (f: Fact, g: Fact) => f.link.position <= g.link.position }

  /** `sorted` by lifecycle position. */
  function Ordered(group: seq<Fact>): seq<Fact> { SortBy(ByPosition(), group) }

  predicate Complete(group: seq<Fact>)
  {
    Map(Position(), Ordered(group)) == Ledger.Ascending(|group|)
  }

  /** A stable sort leaves an ascending list as it is. */
  lemma {:induction false} SortedAlready(group: seq<Fact>, k: nat)
    requires forall i, j :: 0 <= i < j < |group| ==> group[i].link.position <= group[j].link.position
    requires k <= |group|
    ensures Ordered(group[k..]) == group[k..]
    decreases |group| - k
  {
    if k < |group| {
      OrderedHead(group[k..]);
      hide Ordered;
      SortedAlready(group, k + 1);
      assert group[k..][1..] == group[k + 1..] && group[k..] == [group[k]] + group[k + 1..];
      InsertInFront(group[k], group[k + 1..]);
    }
  }

  lemma OrderedHead(group: seq<Fact>)
    requires group != []
    ensures Ordered(group) == Insert(ByPosition(), group[0], Ordered(group[1..]))
  {
  }

  lemma InsertInFront(f: Fact, tail: seq<Fact>)
    requires tail != [] ==> f.link.position <= tail[0].link.position
    ensures Insert(ByPosition(), f, tail) == [f] + tail
  {
  }

  lemma AscendingGroup(group: seq<Fact>)
    requires Map(Position(), group) == Ledger.Ascending(|group|)
    ensures Ordered(group) == group && Complete(group)
  {
    forall i | 0 <= i < |group| ensures group[i].link.position == i {
      assert Map(Position(), group)[i] == i;
    }
    SortedAlready(group, 0);
    assert group[0..] == group;
  }

  /** Two events at the same position break the check. */
  lemma PositionTwice(group: seq<Fact>, i: nat, j: nat)
    requires i < j < |group| && group[i].link.position == group[j].link.position
    ensures !Complete(group)
  {
    var positions := Map(Position(), group);
    var x := group[i].link.position;
    assert positions[i] == x && positions[j] == x;
    CountTwice(positions, i, j);
    MapPermutation(Position(), group, Ordered(group));
    CountOnce(Ledger.Ascending(|group|), x);
  }

  /** Over accepted manifests the positions check on a payment passes exactly when all its events
      are in one manifest, and then the sort changes nothing. */
  lemma CompleteIff(ms: seq<Ledger.Manifest>, p: string)
    requires AllAccepted(ms)
    ensures Complete(Group(ms, p)) <==> InOneManifest(ms, p)
    ensures InOneManifest(ms, p) ==> Ordered(Group(ms, p)) == Group(ms, p)
  {
    if InOneManifest(ms, p) {
      if k :| Occurs(ms, k, p) {
        OnlyWithin(ms, |ms|, k, p);
        WithinFacts(ms, k, p);
        AscendingGroup(Group(ms, p));
      } else {
        Nowhere(ms, |ms|, p);
        AscendingGroup(Group(ms, p));
      }
    } else {
      var k, l :| Occurs(ms, k, p) && Occurs(ms, l, p) && k != l;
      var i := FirstOf(ms, k, p);
      var j := FirstOf(ms, l, p);
      PositionTwice(Group(ms, p), if i < j then i else j, if i < j then j else i);
    }
  }

  lemma {:induction false} Nowhere(ms: seq<Ledger.Manifest>, n: nat, p: string)
    requires AllAccepted(ms) && n <= |ms| && forall k :: !Occurs(ms, k, p)
    ensures PaidIn(p, Facts(ms, n)) == []
  {
    hide Within, Occurs, Ledger.Accepted, AllAccepted, PaidIn, Facts;
    NoFacts(ms, p);
    if n > 0 {
      Nowhere(ms, n - 1, p);
      GroupSnoc(ms, n - 1, p);
      OccursWithin(ms, n - 1, p);
      var before, here := PaidIn(p, Facts(ms, n - 1)), Within(ms, n - 1, p);
      assert before + [] == before && [] + here == here;
    }
  }

  /** Where the group lists the payment's first event in manifest k. */
  lemma FirstOf(ms: seq<Ledger.Manifest>, k: nat, p: string) returns (i: nat)
    requires AllAccepted(ms) && Occurs(ms, k, p)
    ensures i < |Group(ms, p)| && Group(ms, p)[i].source == k && Group(ms, p)[i].link.position == 0
  {
    OccursWithin(ms, k, p);
    WithinFacts(ms, k, p);
    var f := Within(ms, k, p)[0];
    WithinGroup(ms, |ms|, p, f);
    hide Within, PaidIn, Facts;
    assert Map(Position(), Within(ms, k, p))[0] == 0;
    assert f in Group(ms, p);
    i :| 0 <= i < |Group(ms, p)| && Group(ms, p)[i] == f;
  }

  // ---------------------------------------------------------------- the amount check

  /** All events of the payment carry one amount and one currency. */
  predicate OneValue(group: seq<Fact>)
  {
    forall f, g :: f in group && g in group
        ==> f.record.amount == g.record.amount && f.record.currency == g.record.currency
  }

  /** Link i of manifest k opens the payment with this amount and currency. */
  ghost predicate OpensWith(ms: seq<Ledger.Manifest>, k: nat, i: nat, p: string, amount: real, currency: string)
  {
    && k < |ms| && i < |ms[k].lineage|
    && ms[k].lineage[i].payment == p && Ledger.Opens(ms[k].lineage[i].command)
    && ms[k].lineage[i].payload.amount == amount && ms[k].lineage[i].payload.currency == currency
  }

  ghost predicate OpenedAlike(ms: seq<Ledger.Manifest>, p: string)
  {
    forall k: nat, i: nat, l: nat, j: nat, a, b, c, d ::
      OpensWith(ms, k, i, p, a, c) && OpensWith(ms, l, j, p, b, d) ==> a == b && c == d
  }

  /** A payment's events are those of the manifests that name it. */
  lemma FactAt(ms: seq<Ledger.Manifest>, p: string, f: Fact) returns (i: nat)
    requires AllAccepted(ms) && f in Group(ms, p)
    ensures f.source < |ms| && i < |ms[f.source].lineage| == |ms[f.source].records|
    ensures f == Fact(f.source, ms[f.source].lineage[i], ms[f.source].records[i]) && f.link.payment == p
  {
    WithinGroup(ms, |ms|, p, f);
    var k :| 0 <= k < |ms| && f in Within(ms, k, p);
    AcceptedAligned(ms, k);
    WithinFacts(ms, k, p);
    hide Ledger.Accepted;
    var all := FactsOf(ms[k], k, Count(ms[k]));
    assert f in all;
    i :| 0 <= i < |all| && all[i] == f;
  }

  lemma ListedAt(ms: seq<Ledger.Manifest>, k: nat, i: nat)
    requires k < |ms| && i < Count(ms[k])
    ensures Fact(k, ms[k].lineage[i], ms[k].records[i]) in Group(ms, ms[k].lineage[i].payment)
  {
    var p := ms[k].lineage[i].payment;
    WithinGroup(ms, |ms|, p, Fact(k, ms[k].lineage[i], ms[k].records[i]));
    hide Ledger.Accepted;
    assert FactsOf(ms[k], k, Count(ms[k]))[i] in Within(ms, k, p);
  }

  /** The opening in force is the payload of an earlier opening link of the same payment. */
  lemma {:induction false} OpeningAt(links: seq<Ledger.Link>, n: nat, p: string) returns (j: nat)
    requires n <= |links| && Ledger.LastOpening(links, n, p).Some?
    ensures j < n && links[j].payment == p && Ledger.Opens(links[j].command)
    ensures Ledger.LastOpening(links, n, p) == Some(links[j].payload)
  {
    if links[n - 1].payment == p && Ledger.Opens(links[n - 1].command) {
      j := n - 1;
    } else {
      j := OpeningAt(links, n - 1, p);
    }
  }

  /** Each event carries the amount and currency of some opening of its payment. */
  lemma ValueFromOpening(ms: seq<Ledger.Manifest>, p: string, f: Fact) returns (j: nat)
    requires AllAccepted(ms) && f in Group(ms, p)
    ensures OpensWith(ms, f.source, j, p, f.record.amount, f.record.currency)
  {
    var i := FactAt(ms, p, f);
    AcceptedAligned(ms, f.source);
    assert Ledger.EventOk(ms[f.source], i);
    hide Ledger.Accepted, AllAccepted;
    j := OpeningAt(ms[f.source].lineage, i + 1, p);
  }

  lemma ValueOfOpening(ms: seq<Ledger.Manifest>, k: nat, i: nat, p: string, amount: real, currency: string)
      returns (f: Fact)
    requires AllAccepted(ms) && OpensWith(ms, k, i, p, amount, currency)
    ensures f in Group(ms, p) && f.record.amount == amount && f.record.currency == currency
  {
    AcceptedAligned(ms, k);
    assert Ledger.EventOk(ms[k], i);
    ListedAt(ms, k, i);
    f := Fact(k, ms[k].lineage[i], ms[k].records[i]);
  }

  /** Over accepted manifests the amount check on a payment passes exactly when all its openings
      agree on amount and currency. */
  lemma OneValueIff(ms: seq<Ledger.Manifest>, p: string)
    requires AllAccepted(ms)
    ensures OneValue(Group(ms, p)) <==> OpenedAlike(ms, p)
  {
    hide OpensWith, Group, AllAccepted;
    if OpenedAlike(ms, p) {
      forall f, g | f in Group(ms, p) && g in Group(ms, p)
        ensures f.record.amount == g.record.amount && f.record.currency == g.record.currency
      {
        var i := ValueFromOpening(ms, p, f);
        var j := ValueFromOpening(ms, p, g);
      }
    }
    if OneValue(Group(ms, p)) {
      forall k: nat, i: nat, l: nat, j: nat, a, b, c, d | OpensWith(ms, k, i, p, a, c) && OpensWith(ms, l, j, p, b, d)
        ensures a == b && c == d
      {
        var f := ValueOfOpening(ms, k, i, p, a, c);
        var g := ValueOfOpening(ms, l, j, p, b, d);
      }
    }
  }

  // ---------------------------------------------------------------- the payments

  function StampOf(r: Readings): Fact -> Economics.Stamp
  {
    (f: Fact) => Economics.Stamp(f.link.eventId, f.record.kind, r.decidedAt(f.link.eventId))
  }

  function PaymentOf(r: Readings, ms: seq<Ledger.Manifest>, p: string, group: seq<Fact>): Economics.Payment
    requires group != [] && group[0].source < |ms|
  {
    var first := group[0];
    Economics.Payment(p, ms[first.source].rail, first.record.currency, first.record.amount,
                      r.isFraud(first.link.eventId), Map(StampOf(r), group))
  }

  lemma GroupSources(ms: seq<Ledger.Manifest>, p: string)
    requires AllAccepted(ms)
    ensures forall f :: f in Group(ms, p) ==> f.source < |ms|
  {
    hide Group, AllAccepted;
    forall f | f in Group(ms, p) ensures f.source < |ms| { var i := FactAt(ms, p, f); }
  }

  /** What the accounting may rely on: the payments named, once each in ascending order of id, and each
      made of its events in lineage order. */
  ghost predicate IsAccount(r: Readings, ms: seq<Ledger.Manifest>, payments: seq<Economics.Payment>)
  {
    && (forall p :: Group(ms, p) != [] <==> exists i :: 0 <= i < |payments| && payments[i].id == p)
    && (forall i, j :: 0 <= i < j < |payments| ==>
          StringLe(payments[i].id, payments[j].id) && payments[i].id != payments[j].id)
    && (forall i :: 0 <= i < |payments| ==> IsPayment(r, ms, payments[i]))
  }

  ghost predicate IsPayment(r: Readings, ms: seq<Ledger.Manifest>, payment: Economics.Payment)
  {
    var group := Group(ms, payment.id);
    group != [] && group[0].source < |ms| && payment == PaymentOf(r, ms, payment.id, group)
  }

  datatype Outcome = Payments(payments: seq<Economics.Payment>) | DuplicateEvent | PositionsIncomplete | ValueChanges

  function Le(): (string, string) -> bool { (a: string, b: string) => StringLe(a, b) }

  lemma LeTotal()
    ensures TotalPreorder(Le())
  {
    forall a, b ensures Le()(a, b) || Le()(b, a) { StringTotal(a, b); }
    forall a, b, c | Le()(a, b) && Le()(b, c) ensures Le()(a, c) { StringTransitive(a, b, c); }
  }

  lemma SortedKeys(keys: seq<string>, ids: set<string>)
    requires ListsOnce(keys, ids)
    ensures ListsOnce(SortBy(Le(), keys), ids) && SortedBy(Le(), SortBy(Le(), keys))
  {
    var sorted := SortBy(Le(), keys);
    LeTotal();
    SortBySorted(Le(), keys);
    forall p ensures p in sorted <==> p in ids {
      assert p in sorted <==> p in multiset(sorted);
      assert p in keys <==> p in multiset(keys);
    }
    forall i, j | 0 <= i < j < |sorted| ensures sorted[i] != sorted[j] {
      if sorted[i] == sorted[j] {
        CountTwice(sorted, i, j);
        CountOnce(keys, sorted[i]);
      }
    }
  }

  lemma Unnamed(ms: seq<Ledger.Manifest>, p: string)
    requires AllAccepted(ms) && Group(ms, p) == []
    ensures InOneManifest(ms, p) && OpenedAlike(ms, p)
  {
    CompleteIff(ms, p);
    OneValueIff(ms, p);
    assert Complete([]) && OneValue([]);
  }

  /** The checks on one payment; `ordered` is what the accounting goes on with. */
  method CheckPayment(ms: seq<Ledger.Manifest>, p: string, group: seq<Fact>)
      returns (o: Option<Outcome>, ordered: seq<Fact>)
    requires AllAccepted(ms) && group == Group(ms, p) != []
    ensures o.None? <==> InOneManifest(ms, p) && OpenedAlike(ms, p)
    ensures o.Some? ==> o.value == PositionsIncomplete || o.value == ValueChanges
    ensures o.None? ==> ordered == group && group[0].source < |ms|
  {
    CompleteIff(ms, p);
    OneValueIff(ms, p);
    GroupSources(ms, p);
    hide Group, AllAccepted, InOneManifest, OpenedAlike, Complete, Ordered, OneValue;
    ordered := Ordered(group);
    if !Complete(group) {
      return Some(PositionsIncomplete), ordered;
    }
    if !OneValue(group) {
      return Some(ValueChanges), ordered;
    }
    assert group[0] in group;
    return None, ordered;
  }

  ghost predicate Coherent(ms: seq<Ledger.Manifest>, p: string)
  {
    InOneManifest(ms, p) && OpenedAlike(ms, p)
  }

  /** The first payments, one for each key and in the order of the keys. */
  ghost predicate Built(r: Readings, ms: seq<Ledger.Manifest>, keys: seq<string>, payments: seq<Economics.Payment>)
  {
    && |payments| <= |keys|
    && forall i :: 0 <= i < |payments|
        ==> payments[i].id == keys[i] && IsPayment(r, ms, payments[i]) && Coherent(ms, keys[i])
  }

  lemma GroupsAre(ms: seq<Ledger.Manifest>, groups: map<string, seq<Fact>>)
    requires GroupsBy(groups, Facts(ms, |ms|))
    ensures forall p :: Group(ms, p) == if p in groups then groups[p] else []
    ensures forall p :: p in groups <==> Group(ms, p) != []
  {
    hide Facts, PaidIn;
  }

  lemma Assembled(r: Readings, ms: seq<Ledger.Manifest>, keys: seq<string>, payments: seq<Economics.Payment>)
    requires AllAccepted(ms) && Built(r, ms, keys, payments) && |payments| == |keys|
    requires SortedBy(Le(), keys) && forall i, j :: 0 <= i < j < |keys| ==> keys[i] != keys[j]
    requires forall p :: p in keys <==> Group(ms, p) != []
    ensures IsAccount(r, ms, payments) && forall p :: Coherent(ms, p)
  {
    hide Group, IsPayment, AllAccepted, Coherent, StringLe;
    forall p ensures Coherent(ms, p) {
      if p in keys {
        var i :| 0 <= i < |keys| && keys[i] == p;
      } else {
        Unnamed(ms, p);
        Incoherent(ms, p);
      }
    }
    forall i, j | 0 <= i < j < |payments|
      ensures StringLe(payments[i].id, payments[j].id) && payments[i].id != payments[j].id
    {
      assert Le()(keys[i], keys[j]);
    }
    forall p ensures Group(ms, p) != [] <==> exists i :: 0 <= i < |payments| && payments[i].id == p {
      if p in keys {
        var i :| 0 <= i < |keys| && keys[i] == p;
        assert payments[i].id == p;
      }
    }
  }

  lemma Incoherent(ms: seq<Ledger.Manifest>, p: string)
    ensures Coherent(ms, p) <==> InOneManifest(ms, p) && OpenedAlike(ms, p)
  {
  }

  /** The loop over the payments, which stops at the first one that fails a check. */
  method BuildPayments(r: Readings, ms: seq<Ledger.Manifest>, groups: map<string, seq<Fact>>, keys: seq<string>)
    returns (failure: Option<Outcome>, payments: seq<Economics.Payment>)
    requires AllAccepted(ms) && forall p :: p in keys ==> p in groups && groups[p] == Group(ms, p) != []
    ensures failure.None? ==> |payments| == |keys| && Built(r, ms, keys, payments)
    ensures failure.Some? ==> (failure.value == PositionsIncomplete || failure.value == ValueChanges)
                              && exists p :: !Coherent(ms, p)
  {
    hide AllAccepted, Group, Coherent, InOneManifest, OpenedAlike;
    payments := [];
    for i := 0 to |keys|
      invariant |payments| == i && Built(r, ms, keys, payments)
    {
      var p := keys[i];
      var ordered;
      failure, ordered := CheckPayment(ms, p, groups[p]);
      Incoherent(ms, p);
      if failure.Some? {
        return;
      }
      payments := payments + [PaymentOf(r, ms, p, ordered)];
    }
    failure := None;
  }

  /** The per-payment part of `_verify_economics`. It succeeds exactly when no event id repeats and
      every payment lies in one manifest and has openings that agree on amount and currency. */
  method AccountPayments(r: Readings, ms: seq<Ledger.Manifest>) returns (o: Outcome)
    requires AllAccepted(ms)
    ensures o.Payments? <==> Distinct(Facts(ms, |ms|)) && forall p :: Coherent(ms, p)
    ensures o == DuplicateEvent <==> !Distinct(Facts(ms, |ms|))
    ensures o.Payments? ==> IsAccount(r, ms, o.payments)
  {
    hide AllAccepted, Facts, Distinct, Coherent, SortBy, IsAccount, SortedBy, Built;
    var index := GroupAll(ms);
    if index.None? {
      return DuplicateEvent;
    }
    var x := index.value;
    SortedKeys(x.keys, x.groups.Keys);
    GroupsAre(ms, x.groups);
    hide GroupsBy, PaidIn, EventIds, Group;
    var keys := SortBy(Le(), x.keys);
    var failure, payments := BuildPayments(r, ms, x.groups, keys);
    if failure.Some? {
      return failure.value;
    }
    Assembled(r, ms, keys, payments);
    return Payments(payments);
  }

  // ---------------------------------------------------------------- every event is accounted for once

  lemma StampsOf(r: Readings, ms: seq<Ledger.Manifest>, payment: Economics.Payment)
    requires IsPayment(r, ms, payment)
    ensures |payment.events| == |Group(ms, payment.id)|
    ensures forall e :: 0 <= e < |payment.events| ==> payment.events[e] == StampOf(r)(Group(ms, payment.id)[e])
  {
    hide Group;
  }

  /** Every event of every payment accounted for is a stored event: the one at its lifecycle position, in a
      manifest of the payment's rail, with the payment's amount and currency; the first one's flag decides fraud. */
  lemma AccountShows(r: Readings, ms: seq<Ledger.Manifest>, payments: seq<Economics.Payment>, i: nat, d: nat)
    returns (k: nat, j: nat)
    requires AllAccepted(ms) && IsAccount(r, ms, payments) && i < |payments| && d < |payments[i].events|
    requires Coherent(ms, payments[i].id)
    ensures k < |ms| && j < |ms[k].lineage| == |ms[k].records|
    ensures var p, link, record := payments[i], ms[k].lineage[j], ms[k].records[j];
      && link.payment == p.id && link.position == d
      && p.events[d] == Economics.Stamp(link.eventId, record.kind, r.decidedAt(link.eventId))
      && p.rail == ms[k].rail && p.amount == record.amount && p.currency == record.currency
      && p.isFraud == r.isFraud(p.events[0].eventId)
  {
    var p, group := payments[i], Group(ms, payments[i].id);
    assert IsPayment(r, ms, p);
    StampsOf(r, ms, p);
    CompleteIff(ms, p.id);
    OneValueIff(ms, p.id);
    assert Map(Position(), group)[d] == Ledger.Ascending(|group|)[d] == d;
    assert group[0] in group && group[d] in group;
    j := FactAt(ms, p.id, group[d]);
    var j0 := FactAt(ms, p.id, group[0]);
    k := group[d].source;
    assert Occurs(ms, k, p.id) && Occurs(ms, group[0].source, p.id);
    hide AllAccepted, IsAccount, Group, Complete, Occurs, Ordered;
  }

  /** With distinct event ids an event of the account belongs to the payment its link names. No
      automatic induction: an induction hypothesis over the manifests would add nothing. */
  lemma {:induction false} StampedBy(r: Readings, ms: seq<Ledger.Manifest>, payment: Economics.Payment, e: nat, f: Fact)
    requires Distinct(Facts(ms, |ms|)) && IsPayment(r, ms, payment)
    requires f in Facts(ms, |ms|) && e < |payment.events| && payment.events[e].eventId == f.link.eventId
    ensures payment.id == f.link.payment && Group(ms, payment.id)[e] == f
  {
    StampsOf(r, ms, payment);
    var facts := Facts(ms, |ms|);
    var g := Group(ms, payment.id)[e];
    hide Facts, IsPayment;
    assert g in Group(ms, payment.id);
    var i :| 0 <= i < |facts| && facts[i] == f;
    var j :| 0 <= j < |facts| && facts[j] == g;
    assert i == j;
  }

  /** The account is a partition: every event of every manifest is in exactly one payment, once. */
  lemma EveryEventOnce(r: Readings, ms: seq<Ledger.Manifest>, payments: seq<Economics.Payment>, f: Fact)
    returns (j: nat, e: nat)
    requires Distinct(Facts(ms, |ms|)) && IsAccount(r, ms, payments) && f in Facts(ms, |ms|)
    ensures j < |payments| && e < |payments[j].events| && payments[j].events[e].eventId == f.link.eventId
    ensures forall i, d ::
              0 <= i < |payments| && 0 <= d < |payments[i].events| && payments[i].events[d].eventId == f.link.eventId
              ==> i == j && d == e
  {
    hide Facts, IsPayment, StringLe;
    var group := Group(ms, f.link.payment);
    assert f in group;
    e :| 0 <= e < |group| && group[e] == f;
    j :| 0 <= j < |payments| && payments[j].id == f.link.payment;
    StampsOf(r, ms, payments[j]);
    forall i, d | 0 <= i < |payments| && 0 <= d < |payments[i].events|
        && payments[i].events[d].eventId == f.link.eventId
      ensures i == j && d == e
    {
      StampedBy(r, ms, payments[i], d, f);
      OnceInGroup(ms, f.link.payment, d, e);
    }
  }

  lemma OnceInGroup(ms: seq<Ledger.Manifest>, p: string, d: nat, e: nat)
    requires Distinct(Facts(ms, |ms|))
    requires d < |Group(ms, p)| && e < |Group(ms, p)| && Group(ms, p)[d] == Group(ms, p)[e]
    ensures d == e
  {
    var facts, f := Facts(ms, |ms|), Group(ms, p)[d];
    hide Facts;
    assert PaidIn(p, facts) == Filter(PaidBy(p), facts);
    FilterCount(PaidBy(p), facts, f);
    CountOnce(facts, f);
    if d < e { CountTwice(Group(ms, p), d, e); }
    if e < d { CountTwice(Group(ms, p), e, d); }
  }
}
