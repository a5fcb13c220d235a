/** The streaming causal features of the validation spike.

    One pass over the time-ordered events keeps six pruned deques and two first-seen
    dictionaries. The specification, SpecRow, is the quadratic definition the pass speeds up:
    every aggregate is taken over all events that share the key and lie in [t - span, t). */
module CausalFeatures {
  import opened Aggregates

  const HOUR: real := 60.0
  const DAY: real := 1440.0

  datatype Event = Event(id: string, time: real, account: string, device: string, merchant: string,
                         beneficiary: string, amount: real, channelA2a: real, decline: int)

  /** A feature row. Counts and sums are the arguments of log1p, `hour` the argument of the
      hour-of-day sine and cosine; no maxSource stands for minus infinity. */
  datatype Row = Row(id: string, time: real, amount: real, channelA2a: real, hour: real,
                     accountCount60m: nat, accountAmount24h: real, newDevice: bool, newBeneficiary: bool,
                     deviceAccounts24h: nat, beneficiaryAccounts24h: nat, deviceDeclines60m: real,
                     merchantDeclines60m: real, maxSource: Option<real>)

  datatype Column = Account | Device | Merchant | Beneficiary

  function Key(c: Column, e: Event): string
  {
    match c
    case Account => e.account
    case Device => e.device
    case Merchant => e.merchant
    case Beneficiary => e.beneficiary
  }

  /** Blank merchants and beneficiaries have no history; blank accounts and devices do. */
  predicate Tracked(c: Column, k: string)
  {
    k != "" || c == Account || c == Device
  }

  // ---------------------------------------------------------------- specification

  function InWindow(c: Column, k: string, span: real, t: real): Event -> bool
  {
    (x: Event) => Tracked(c, k) && Key(c, x) == k && t - span <= x.time < t
  }

  function Prior(events: seq<Event>, c: Column, e: Event, span: real): seq<Event>
  {
    Filter(InWindow(c, Key(c, e), span, e.time), events)
  }

  function Amount(): Event -> real { (x: Event) => x.amount }
  function Decline(): Event -> real { (x: Event) => x.decline as real }
  function Accounts(s: seq<Event>): set<string> { set x | x in s :: x.account }

  function Latest(s: seq<Event>): (m: Option<real>)
    ensures m == None <==> s == []
    ensures m.Some? ==> (exists x :: x in s && x.time == m.value) && forall x :: x in s ==> x.time <= m.value
  {
    if s == [] then None
    else
      var rest := Latest(s[1..]);
      assert s[0] in s;
      if rest.None? || rest.value < s[0].time then Some(s[0].time) else rest
  }

  predicate NewDevice(events: seq<Event>, e: Event)
  {
    forall x :: x in events && x.account == e.account && x.device == e.device ==> x.time >= e.time
  }

  predicate NewBeneficiary(events: seq<Event>, e: Event)
  {
    e.beneficiary != "" &&
    forall x :: x in events && x.account == e.account && x.beneficiary == e.beneficiary ==> x.time >= e.time
  }

  /** Every historical event that any of the six windows shows to e. */
  function Sources(events: seq<Event>, e: Event): seq<Event>
  {
    Prior(events, Account, e, HOUR) + Prior(events, Account, e, DAY) + Prior(events, Device, e, DAY)
    + Prior(events, Device, e, HOUR) + Prior(events, Beneficiary, e, DAY) + Prior(events, Merchant, e, HOUR)
  }

  /** The hour of day: Python's `(t % DAY) / 60`, whose remainder is never negative. */
  function HourOf(t: real): real
  {
    (t - 1440.0 * (t / 1440.0).Floor as real) / 60.0
  }

  function SpecRow(events: seq<Event>, e: Event): Row
  {
    Row(e.id, e.time, if e.amount > 0.0 then e.amount else 0.0, e.channelA2a, HourOf(e.time),
        |Prior(events, Account, e, HOUR)|,
        Sum(Amount(), Prior(events, Account, e, DAY)),
        NewDevice(events, e),
        NewBeneficiary(events, e),
        |Accounts(Prior(events, Device, e, DAY)) + {e.account}|,
        |Accounts(Prior(events, Beneficiary, e, DAY)) + (if e.beneficiary == "" then {} else {e.account})|,
        Sum(Decline(), Prior(events, Device, e, HOUR)),
        Sum(Decline(), Prior(events, Merchant, e, HOUR)),
        Latest(Sources(events, e)))
  }

  /** math.log1p raises unless its argument exceeds -1. */
  predicate InDomain(r: Row)
  {
    r.accountAmount24h > -1.0 && r.deviceDeclines60m > -1.0 && r.merchantDeclines60m > -1.0
  }

  ghost predicate TimeOrdered(s: seq<Event>)
  {
    forall i, j :: 0 <= i <= j < |s| ==> s[i].time <= s[j].time
  }

  // ---------------------------------------------------------------- locality

  function Earlier(t: real): Event -> bool { (x: Event) => x.time < t }

  function Past(events: seq<Event>, t: real): seq<Event> { Filter(Earlier(t), events) }

  lemma PriorLocal(xs: seq<Event>, ys: seq<Event>, c: Column, e: Event, span: real)
    requires multiset(Past(xs, e.time)) == multiset(Past(ys, e.time))
    ensures multiset(Prior(xs, c, e, span)) == multiset(Prior(ys, c, e, span))
    ensures |Prior(xs, c, e, span)| == |Prior(ys, c, e, span)|
    ensures forall x :: x in Prior(xs, c, e, span) <==> x in Prior(ys, c, e, span)
  {
    var p := InWindow(c, Key(c, e), span, e.time);
    forall x ensures multiset(Filter(p, xs))[x] == multiset(Filter(p, ys))[x] {
      FilterCount(p, xs, x);
      FilterCount(p, ys, x);
      FilterCount(Earlier(e.time), xs, x);
      FilterCount(Earlier(e.time), ys, x);
    }
    SameSize(Filter(p, xs), Filter(p, ys));
    forall x ensures x in Filter(p, xs) <==> x in Filter(p, ys) {
      assert x in Filter(p, xs) <==> x in multiset(Filter(p, xs));
      assert x in Filter(p, ys) <==> x in multiset(Filter(p, ys));
    }
  }

  lemma LatestLocal(s: seq<Event>, t: seq<Event>)
    requires forall x :: x in s <==> x in t
    ensures Latest(s) == Latest(t)
  {
    assert s != [] ==> s[0] in s;
    assert t != [] ==> t[0] in t;
    if s != [] {
      var x :| x in s && x.time == Latest(s).value;
      var y :| y in t && y.time == Latest(t).value;
      assert x in t && y in s;
    }
  }

  /** A feature row depends only on its own event and on the strictly earlier events, and
      not on the order in which those are listed. */
  lemma RowIsCausal(xs: seq<Event>, ys: seq<Event>, e: Event)
    requires multiset(Past(xs, e.time)) == multiset(Past(ys, e.time))
    ensures SpecRow(xs, e) == SpecRow(ys, e)
  {
    PriorLocal(xs, ys, Account, e, HOUR);
    PriorLocal(xs, ys, Account, e, DAY);
    PriorLocal(xs, ys, Device, e, DAY);
    PriorLocal(xs, ys, Device, e, HOUR);
    PriorLocal(xs, ys, Beneficiary, e, DAY);
    PriorLocal(xs, ys, Merchant, e, HOUR);
    SumPermutation(Amount(), Prior(xs, Account, e, DAY), Prior(ys, Account, e, DAY));
    SumPermutation(Decline(), Prior(xs, Device, e, HOUR), Prior(ys, Device, e, HOUR));
    SumPermutation(Decline(), Prior(xs, Merchant, e, HOUR), Prior(ys, Merchant, e, HOUR));
    assert Accounts(Prior(xs, Device, e, DAY)) == Accounts(Prior(ys, Device, e, DAY));
    assert Accounts(Prior(xs, Beneficiary, e, DAY)) == Accounts(Prior(ys, Beneficiary, e, DAY));
    LatestLocal(Sources(xs, e), Sources(ys, e));
    FirstSeenLocal(xs, ys, e);
  }

  lemma FirstSeenLocal(xs: seq<Event>, ys: seq<Event>, e: Event)
    requires multiset(Past(xs, e.time)) == multiset(Past(ys, e.time))
    ensures NewDevice(xs, e) == NewDevice(ys, e) && NewBeneficiary(xs, e) == NewBeneficiary(ys, e)
  {
    forall x: Event | x.time < e.time ensures x in xs <==> x in ys {
      assert x in Past(xs, e.time) <==> x in multiset(Past(xs, e.time));
      assert x in Past(ys, e.time) <==> x in multiset(Past(ys, e.time));
    }
  }

  /** Appending events that are not earlier, or reordering the whole list, changes no row. */
  lemma LaterEventsUnseen(events: seq<Event>, later: seq<Event>, e: Event)
    requires forall x :: x in later ==> x.time >= e.time
    ensures SpecRow(events + later, e) == SpecRow(events, e)
  {
    FilterAppend(Earlier(e.time), events, later);
    FilterNone(Earlier(e.time), later);
    RowIsCausal(events + later, events, e);
  }

  lemma OrderUnseen(xs: seq<Event>, ys: seq<Event>, e: Event)
    requires multiset(xs) == multiset(ys)
    ensures SpecRow(xs, e) == SpecRow(ys, e)
  {
    FilterPermutation(Earlier(e.time), xs, ys);
    RowIsCausal(xs, ys, e);
  }

  // ---------------------------------------------------------------- one event at a time

  /** The row of an event with nothing before it. */
  lemma FirstRow(e: Event)
    ensures var r := SpecRow([], e);
      && r.id == e.id && r.time == e.time && r.channelA2a == e.channelA2a
      && r.amount == (if e.amount > 0.0 then e.amount else 0.0)
      && 0.0 <= r.hour < 24.0 && (var days := (e.time - 60.0 * r.hour) / 1440.0; days == days.Floor as real)
      && r.accountCount60m == 0 && r.accountAmount24h == r.deviceDeclines60m == r.merchantDeclines60m == 0.0
      && r.newDevice && (r.newBeneficiary <==> e.beneficiary != "")
      && r.deviceAccounts24h == 1 && r.beneficiaryAccounts24h == (if e.beneficiary == "" then 0 else 1)
      && r.maxSource == None
  {
    var day := (e.time / 1440.0).Floor;
    assert (e.time - 60.0 * HourOf(e.time)) / 1440.0 == day as real;
    var none: seq<Event> := [];
    assert forall p: Event -> bool :: Filter(p, none) == [];
    assert Accounts(none) + {e.account} == {e.account} && Accounts(none) + {} == {};
    hide Filter;
  }

  /** What one more strictly earlier event adds to every count and sum of a row. */
  lemma OneMoreCounts(x: Event, events: seq<Event>, e: Event)
    requires x.time < e.time
    ensures var r, s := SpecRow(events, e), SpecRow([x] + events, e);
      var hour, day := e.time - 60.0 <= x.time, e.time - 1440.0 <= x.time;
      && s.accountCount60m == r.accountCount60m + (if x.account == e.account && hour then 1 else 0)
      && s.accountAmount24h == r.accountAmount24h + (if x.account == e.account && day then x.amount else 0.0)
      && s.deviceDeclines60m == r.deviceDeclines60m + (if x.device == e.device && hour then x.decline as real else 0.0)
      && s.merchantDeclines60m == r.merchantDeclines60m
           + (if e.merchant != "" && x.merchant == e.merchant && hour then x.decline as real else 0.0)
  {
    hide Filter, Sum, Latest, Prior, Accounts, Sources, NewDevice, NewBeneficiary;
    OneMoreInWindow(x, events, Account, e, HOUR, Amount());
    OneMoreInWindow(x, events, Account, e, DAY, Amount());
    OneMoreInWindow(x, events, Device, e, HOUR, Decline());
    OneMoreInWindow(x, events, Merchant, e, HOUR, Decline());
  }

  lemma OneMoreInWindow(x: Event, events: seq<Event>, c: Column, e: Event, span: real, f: Event -> real)
    requires x.time < e.time
    ensures var p, q := Prior(events, c, e, span), Prior([x] + events, c, e, span);
      if Tracked(c, Key(c, e)) && Key(c, x) == Key(c, e) && e.time - span <= x.time
      then q == [x] + p && |q| == |p| + 1 && Sum(f, q) == Sum(f, p) + f(x)
      else q == p
  {
    assert ([x] + events)[1..] == events;
    hide Key, Tracked;
    SumFirst(f, x, Prior(events, c, e, span));
  }

  lemma SumFirst(f: Event -> real, x: Event, s: seq<Event>)
    ensures Sum(f, [x] + s) == Sum(f, s) + f(x)
  {
    assert ([x] + s)[1..] == s;
  }

  /** Some event of the list is of the account and within a day before e, on its device or to its beneficiary. */
  predicate SeenToday(events: seq<Event>, account: string, e: Event, device: bool)
  {
    exists y :: y in events && y.account == account && e.time - 1440.0 <= y.time < e.time
                && if device then y.device == e.device else y.beneficiary == e.beneficiary
  }

  /** What it adds to the two numbers of distinct accounts: one, if its account is another than that of the
      event and no event before it in reach has it. */
  lemma OneMoreAccounts(x: Event, events: seq<Event>, e: Event)
    requires x.time < e.time
    ensures var r, s := SpecRow(events, e), SpecRow([x] + events, e);
      var other := x.account != e.account && e.time - 1440.0 <= x.time;
      && s.deviceAccounts24h == r.deviceAccounts24h
           + (if other && x.device == e.device && !SeenToday(events, x.account, e, true) then 1 else 0)
      && s.beneficiaryAccounts24h == r.beneficiaryAccounts24h
           + (if other && e.beneficiary != "" && x.beneficiary == e.beneficiary
                 && !SeenToday(events, x.account, e, false) then 1 else 0)
  {
    hide Filter, Sum, Latest, Prior, Sources, NewDevice, NewBeneficiary, SeenToday, Accounts;
    OneMoreInWindow(x, events, Device, e, DAY, Amount());
    OneMoreInWindow(x, events, Beneficiary, e, DAY, Amount());
    OneMoreAccount(x, Prior(events, Device, e, DAY), e.account);
    OneMoreAccount(x, Prior(events, Beneficiary, e, DAY), e.account);
    ListedToday(events, x.account, e);
  }

  lemma OneMoreAccount(x: Event, s: seq<Event>, own: string)
    ensures |Accounts([x] + s) + {own}|
         == |Accounts(s) + {own}| + if x.account != own && x.account !in Accounts(s) then 1 else 0
  {
    assert Accounts([x] + s) + {own} == {x.account} + (Accounts(s) + {own});
  }

  lemma ListedToday(events: seq<Event>, account: string, e: Event)
    ensures account in Accounts(Prior(events, Device, e, DAY)) <==> SeenToday(events, account, e, true)
    ensures e.beneficiary != "" ==>
        (account in Accounts(Prior(events, Beneficiary, e, DAY)) <==> SeenToday(events, account, e, false))
  {
    assert forall y :: y in Prior(events, Device, e, DAY) <==>
        y in events && y.device == e.device && e.time - 1440.0 <= y.time < e.time;
    assert e.beneficiary != "" ==> forall y :: y in Prior(events, Beneficiary, e, DAY) <==>
        y in events && y.beneficiary == e.beneficiary && e.time - 1440.0 <= y.time < e.time;
    hide Prior;
  }

  /** What it does to the two first-seen flags and to the latest source time. */
  lemma OneMoreFlags(x: Event, events: seq<Event>, e: Event)
    requires x.time < e.time
    ensures var r, s := SpecRow(events, e), SpecRow([x] + events, e);
      var hour, day := e.time - 60.0 <= x.time, e.time - 1440.0 <= x.time;
      && s.newDevice == (r.newDevice && !(x.account == e.account && x.device == e.device))
      && s.newBeneficiary == (r.newBeneficiary && !(x.account == e.account && x.beneficiary == e.beneficiary))
      && s.maxSource ==
           if && (r.maxSource == None || r.maxSource.value < x.time)
              && ((day && (x.account == e.account || x.device == e.device
                           || (e.beneficiary != "" && x.beneficiary == e.beneficiary)))
                  || (hour && e.merchant != "" && x.merchant == e.merchant))
           then Some(x.time) else r.maxSource
  {
    assert forall y :: y in [x] + events <==> y == x || y in events;
    OneMoreSource(x, events, e);
    hide Sum, Filter, Accounts, Sources;
  }

  lemma OneMoreSource(x: Event, events: seq<Event>, e: Event)
    requires x.time < e.time
    ensures var hour, day := e.time - 60.0 <= x.time, e.time - 1440.0 <= x.time;
      var seen := (day && (x.account == e.account || x.device == e.device
                           || (e.beneficiary != "" && x.beneficiary == e.beneficiary)))
                  || (hour && e.merchant != "" && x.merchant == e.merchant);
      var a, b := Latest(Sources(events, e)), Latest(Sources([x] + events, e));
      b == if seen && (a == None || a.value < x.time) then Some(x.time) else a
  {
    var all, more := Sources(events, e), Sources([x] + events, e);
    forall y ensures y in more <==> y in all || (y == x && x in more) {
      SourceOf(y, events, e);
      SourceOf(y, [x] + events, e);
    }
    SourceOf(x, [x] + events, e);
    SourceOf(x, events, e);
    LatestWith(x, all, more);
    hide Sources, Latest;
  }

  /** The events a row draws on, window by window. */
  lemma SourceOf(y: Event, events: seq<Event>, e: Event)
    ensures y in Sources(events, e) <==>
      && y in events && y.time < e.time
      && ((e.time - 1440.0 <= y.time && (y.account == e.account || y.device == e.device
                                         || (e.beneficiary != "" && y.beneficiary == e.beneficiary)))
          || (e.time - 60.0 <= y.time && e.merchant != "" && y.merchant == e.merchant))
  {
    hide Filter;
  }

  lemma LatestWith(x: Event, all: seq<Event>, more: seq<Event>)
    requires forall y :: y in more <==> y in all || (y == x && x in more)
    ensures var a, b := Latest(all), Latest(more);
      b == if x in more && (a == None || a.value < x.time) then Some(x.time) else a
  {
    hide Latest;
    var a, b := Latest(all), Latest(more);
    if all != [] {
      assert all[0] in more;
      var v :| v in all && v.time == a.value;
      assert v in more;
    }
    if more != [] {
      assert more[0] in more;
      var w :| w in more && w.time == b.value;
      assert w in all || w == x;
    }
  }

  // ---------------------------------------------------------------- the deques

  type Deques = map<string, seq<Event>>

  /** A defaultdict(deque) lookup. */
  function Get(dq: Deques, k: string): seq<Event>
  {
    if k in dq then dq[k] else []
  }

  function OfKey(c: Column, k: string): Event -> bool { (x: Event) => Key(c, x) == k }

  /** d is what is left of `full` after dropping, from the front, only entries below the cutoff. */
  ghost predicate RecentSuffix(d: seq<Event>, full: seq<Event>, cutoff: real)
  {
    |d| <= |full| && d == full[|full| - |d|..] &&
    forall i :: 0 <= i < |full| - |d| ==> full[i].time < cutoff
  }

  ghost predicate Tracks(dq: Deques, hist: seq<Event>, c: Column, span: real, t: real)
  {
    forall k :: Tracked(c, k) ==> RecentSuffix(Get(dq, k), Filter(OfKey(c, k), hist), t - span)
  }

  /** The number of entries held over all keys. */
  ghost function Size(dq: Deques): nat
  {
    if dq == map[] then 0 else var k :| k in dq; |dq[k]| + Size(dq - {k})
  }

  lemma {:induction false} SizeSplit(dq: Deques, k: string)
    requires k in dq
    ensures Size(dq) == |dq[k]| + Size(dq - {k})
    decreases |dq|
  {
    var j :| j in dq && Size(dq) == |dq[j]| + Size(dq - {j});
    if j != k {
      SizeSplit(dq - {j}, k);
      SizeSplit(dq - {k}, j);
      assert (dq - {j}) - {k} == (dq - {k}) - {j};
    }
  }

  lemma SizeUpdate(dq: Deques, k: string, d: seq<Event>)
    ensures Size(dq[k := d]) == Size(dq) - |Get(dq, k)| + |d|
  {
    SizeSplit(dq[k := d], k);
    assert dq[k := d] - {k} == dq - {k};
    if k in dq {
      SizeSplit(dq, k);
    } else {
      assert dq - {k} == dq;
    }
  }

  method Prune(dq: seq<Event>, cutoff: real) returns (r: seq<Event>)
    ensures RecentSuffix(r, dq, cutoff)
    ensures r == [] || r[0].time >= cutoff
  {
    r := dq;
    while r != [] && r[0].time < cutoff
      invariant RecentSuffix(r, dq, cutoff)
    {
      r := r[1..];
    }
  }

  lemma {:induction false} FilterOrdered(p: Event -> bool, s: seq<Event>)
    requires TimeOrdered(s)
    ensures TimeOrdered(Filter(p, s))
  {
    if s != [] {
      FilterOrdered(p, s[1..]);
      assert forall x :: x in s[1..] ==> s[0].time <= x.time;
    }
  }

  lemma TracksLater(dq: Deques, hist: seq<Event>, c: Column, span: real, t0: real, t: real)
    requires Tracks(dq, hist, c, span, t0) && t0 <= t
    ensures Tracks(dq, hist, c, span, t)
  {
    forall k | Tracked(c, k) ensures RecentSuffix(Get(dq, k), Filter(OfKey(c, k), hist), t - span) {
      assert RecentSuffix(Get(dq, k), Filter(OfKey(c, k), hist), t0 - span);
    }
  }

  /** A pruned deque, read strictly before t, is exactly the window [t - span, t). */
  lemma PrunedIsWindow(d: seq<Event>, hist: seq<Event>, c: Column, e: Event, span: real)
    requires Tracked(c, Key(c, e)) && TimeOrdered(hist)
    requires RecentSuffix(d, Filter(OfKey(c, Key(c, e)), hist), e.time - span)
    requires d == [] || d[0].time >= e.time - span
    ensures Filter(Earlier(e.time), d) == Prior(hist, c, e, span)
  {
    hide Filter;
    var k := Key(c, e);
    var full := Filter(OfKey(c, k), hist);
    var n := |full| - |d|;
    var p := InWindow(c, k, span, e.time);
    FilterOrdered(OfKey(c, k), hist);
    assert full == full[..n] + d;
    forall x | x in d ensures p(x) == Earlier(e.time)(x) {
      assert x in full;
      var i :| 0 <= i < |d| && d[i] == x;
      assert full[n].time <= full[n + i].time;
    }
    FilterAppend(p, full[..n], d);
    FilterNone(p, full[..n]);
    FilterCongruent(p, Earlier(e.time), d);
    FilterFilter(p, OfKey(c, k), p, hist);
  }

  method PruneKey(dq: Deques, c: Column, span: real, e: Event, ghost hist: seq<Event>)
    returns (r: Deques, prior: seq<Event>, ghost pops: nat)
    requires Tracks(dq, hist, c, span, e.time) && TimeOrdered(hist)
    ensures Tracks(r, hist, c, span, e.time)
    ensures Size(r) + pops == Size(dq)
    ensures prior == Prior(hist, c, e, span)
  {
    var k := Key(c, e);
    if !Tracked(c, k) {
      FilterNone(InWindow(c, k, span, e.time), hist);
      return dq, [], 0;
    }
    assert RecentSuffix(Get(dq, k), Filter(OfKey(c, k), hist), e.time - span);
    var d := Prune(Get(dq, k), e.time - span);
    r, prior := dq[k := d], Filter(Earlier(e.time), d);
    pops := |Get(dq, k)| - |d|;
    SizeUpdate(dq, k, d);
    SuffixOfSuffix(d, Get(dq, k), Filter(OfKey(c, k), hist), e.time - span);
    PrunedIsWindow(d, hist, c, e, span);
    forall j | Tracked(c, j) ensures RecentSuffix(Get(r, j), Filter(OfKey(c, j), hist), e.time - span) {
      assert RecentSuffix(Get(dq, j), Filter(OfKey(c, j), hist), e.time - span);
    }
  }

  lemma SuffixOfSuffix(d: seq<Event>, mid: seq<Event>, full: seq<Event>, cutoff: real)
    requires RecentSuffix(d, mid, cutoff) && RecentSuffix(mid, full, cutoff)
    ensures RecentSuffix(d, full, cutoff)
  {
    var n := |full| - |mid|;
    forall i | 0 <= i < |full| - |d| ensures full[i].time < cutoff {
      if i >= n { assert full[i] == mid[i - n]; }
    }
  }

  method Push(dq: Deques, c: Column, span: real, e: Event, ghost hist: seq<Event>)
    returns (r: Deques, ghost pushes: nat)
    requires Tracks(dq, hist, c, span, e.time)
    ensures Tracks(r, hist + [e], c, span, e.time)
    ensures Size(r) == Size(dq) + pushes && pushes <= 1
  {
    var k := Key(c, e);
    if Tracked(c, k) {
      r, pushes := dq[k := Get(dq, k) + [e]], 1;
      SizeUpdate(dq, k, Get(dq, k) + [e]);
    } else {
      r, pushes := dq, 0;
    }
    forall j | Tracked(c, j) ensures RecentSuffix(Get(r, j), Filter(OfKey(c, j), hist + [e]), e.time - span) {
      PushedSuffix(Get(dq, j), Get(r, j), hist, c, j, e, e.time - span);
    }
  }

  lemma PushedSuffix(d: seq<Event>, d': seq<Event>, hist: seq<Event>, c: Column, j: string, e: Event, cutoff: real)
    requires RecentSuffix(d, Filter(OfKey(c, j), hist), cutoff)
    requires d' == if j == Key(c, e) then d + [e] else d
    ensures RecentSuffix(d', Filter(OfKey(c, j), hist + [e]), cutoff)
  {
    hide Filter;
    FilterSnoc(OfKey(c, j), hist, e);
    if j == Key(c, e) {
      SuffixPush(d, Filter(OfKey(c, j), hist), e, cutoff);
    }
  }

  lemma SuffixPush(d: seq<Event>, full: seq<Event>, e: Event, cutoff: real)
    requires RecentSuffix(d, full, cutoff)
    ensures RecentSuffix(d + [e], full + [e], cutoff)
  {
    var n := |full| - |d|;
    assert (full + [e])[n..] == full[n..] + [e];
  }

  // ---------------------------------------------------------------- first-seen dictionaries

  type FirstSeen = map<(string, string), real>

  ghost predicate IsFirstSeen(m: FirstSeen, hist: seq<Event>, c: Column)
  {
    && (forall x :: x in hist && Tracked(c, Key(c, x)) ==>
          (x.account, Key(c, x)) in m && m[(x.account, Key(c, x))] <= x.time)
    && (forall p :: p in m ==> exists x :: x in hist && (x.account, Key(c, x)) == p && x.time == m[p])
  }

  /** `dict.get(pair, inf) >= t`. */
  predicate NotSeenBefore(m: FirstSeen, p: (string, string), t: real)
  {
    p in m ==> m[p] >= t
  }

  method Note(m: FirstSeen, c: Column, e: Event, ghost hist: seq<Event>) returns (r: FirstSeen)
    requires IsFirstSeen(m, hist, c)
    ensures IsFirstSeen(r, hist + [e], c)
  {
    var p := (e.account, Key(c, e));
    if !Tracked(c, Key(c, e)) {
      r := m;
    } else {
      r := m[p := if p in m && m[p] < e.time then m[p] else e.time];
    }
    forall q | q in r ensures exists x :: x in hist + [e] && (x.account, Key(c, x)) == q && x.time == r[q] {
      if q == p && r[q] == e.time && (q !in m || m[q] != r[q]) {
        assert e in hist + [e];
      } else {
        var x :| x in hist && (x.account, Key(c, x)) == q && x.time == m[q];
        assert x in hist + [e];
      }
    }
  }

  // ---------------------------------------------------------------- the pass

  /** The row the pass builds from the six pruned lists. Only five of them feed the latest
      source time: the 60-minute device list is not among them. */
  function BuildRow(e: Event, accountHour: seq<Event>, accountDay: seq<Event>, deviceDay: seq<Event>,
                    beneficiaryDay: seq<Event>, deviceHour: seq<Event>, merchantHour: seq<Event>,
                    newDevice: bool, newBeneficiary: bool): Row
  {
    var deviceAccounts := Accounts(deviceDay) + {e.account};
    var beneficiaryAccounts := if e.beneficiary == "" then {} else Accounts(beneficiaryDay) + {e.account};
    var sources := accountHour + accountDay + deviceDay + beneficiaryDay + merchantHour;
    Row(e.id, e.time, if e.amount > 0.0 then e.amount else 0.0, e.channelA2a, HourOf(e.time),
        |accountHour|, Sum(Amount(), accountDay), newDevice, newBeneficiary,
        |deviceAccounts|, |beneficiaryAccounts|, Sum(Decline(), deviceHour), Sum(Decline(), merchantHour),
        Latest(sources))
  }

  lemma BuiltRowIsSpecified(hist: seq<Event>, e: Event)
    ensures BuildRow(e, Prior(hist, Account, e, HOUR), Prior(hist, Account, e, DAY), Prior(hist, Device, e, DAY),
                     Prior(hist, Beneficiary, e, DAY), Prior(hist, Device, e, HOUR), Prior(hist, Merchant, e, HOUR),
                     NewDevice(hist, e), NewBeneficiary(hist, e))
         == SpecRow(hist, e)
  {
    forall x | x in Prior(hist, Device, e, HOUR) ensures x in Prior(hist, Device, e, DAY) {}
    LatestLocal(Sources(hist, e),
                Prior(hist, Account, e, HOUR) + Prior(hist, Account, e, DAY) + Prior(hist, Device, e, DAY)
                + Prior(hist, Beneficiary, e, DAY) + Prior(hist, Merchant, e, HOUR));
    if e.beneficiary == "" {
      FilterNone(InWindow(Beneficiary, "", DAY, e.time), hist);
    }
  }

  lemma FlagsAreSpecified(ad: FirstSeen, ab: FirstSeen, hist: seq<Event>, e: Event)
    requires IsFirstSeen(ad, hist, Device) && IsFirstSeen(ab, hist, Beneficiary)
    ensures NotSeenBefore(ad, (e.account, e.device), e.time) == NewDevice(hist, e)
    ensures (e.beneficiary != "" && NotSeenBefore(ab, (e.account, e.beneficiary), e.time)) == NewBeneficiary(hist, e)
  {
    assert forall x: Event :: Key(Device, x) == x.device && Key(Beneficiary, x) == x.beneficiary;
  }

  datatype Windows = Windows(accountHour: Deques, accountDay: Deques, deviceDay: Deques,
                             beneficiaryDay: Deques, deviceHour: Deques, merchantHour: Deques)
  {
    ghost predicate Track(hist: seq<Event>, t: real)
    {
      && Tracks(accountHour, hist, Account, HOUR, t)
      && Tracks(accountDay, hist, Account, DAY, t)
      && Tracks(deviceDay, hist, Device, DAY, t)
      && Tracks(beneficiaryDay, hist, Beneficiary, DAY, t)
      && Tracks(deviceHour, hist, Device, HOUR, t)
      && Tracks(merchantHour, hist, Merchant, HOUR, t)
    }

    ghost function Held(): nat
    {
      Size(accountHour) + Size(accountDay) + Size(deviceDay) + Size(beneficiaryDay)
      + Size(deviceHour) + Size(merchantHour)
    }

    lemma TrackLater(hist: seq<Event>, t0: real, t: real)
      requires Track(hist, t0) && t0 <= t
      ensures Track(hist, t)
    {
      TracksLater(accountHour, hist, Account, HOUR, t0, t);
      TracksLater(accountDay, hist, Account, DAY, t0, t);
      TracksLater(deviceDay, hist, Device, DAY, t0, t);
      TracksLater(beneficiaryDay, hist, Beneficiary, DAY, t0, t);
      TracksLater(deviceHour, hist, Device, HOUR, t0, t);
      TracksLater(merchantHour, hist, Merchant, HOUR, t0, t);
    }
  }

  /** The pruning and the row-building half of one iteration. */
  method ReadRow(w: Windows, accountDevice: FirstSeen, accountBeneficiary: FirstSeen, e: Event, ghost hist: seq<Event>)
    returns (r: Windows, row: Row, ghost pops: nat)
    requires w.Track(hist, e.time) && TimeOrdered(hist)
    requires IsFirstSeen(accountDevice, hist, Device) && IsFirstSeen(accountBeneficiary, hist, Beneficiary)
    ensures r.Track(hist, e.time) && r.Held() + pops == w.Held()
    ensures row == SpecRow(hist, e)
  {
    var accountHour, priorAccountHour, n1 := PruneKey(w.accountHour, Account, HOUR, e, hist);
    var accountDay, priorAccountDay, n2 := PruneKey(w.accountDay, Account, DAY, e, hist);
    var deviceDay, priorDeviceDay, n3 := PruneKey(w.deviceDay, Device, DAY, e, hist);
    var beneficiaryDay, priorBeneficiaryDay, n4 := PruneKey(w.beneficiaryDay, Beneficiary, DAY, e, hist);
    var deviceHour, priorDeviceHour, n5 := PruneKey(w.deviceHour, Device, HOUR, e, hist);
    var merchantHour, priorMerchantHour, n6 := PruneKey(w.merchantHour, Merchant, HOUR, e, hist);
    r := Windows(accountHour, accountDay, deviceDay, beneficiaryDay, deviceHour, merchantHour);
    pops := n1 + n2 + n3 + n4 + n5 + n6;
    row := BuildRow(e, priorAccountHour, priorAccountDay, priorDeviceDay, priorBeneficiaryDay,
                    priorDeviceHour, priorMerchantHour,
                    NotSeenBefore(accountDevice, (e.account, e.device), e.time),
                    e.beneficiary != "" && NotSeenBefore(accountBeneficiary, (e.account, e.beneficiary), e.time));
    FlagsAreSpecified(accountDevice, accountBeneficiary, hist, e);
    BuiltRowIsSpecified(hist, e);
  }

  /** The appending half of one iteration. */
  method Append(w: Windows, e: Event, ghost hist: seq<Event>) returns (r: Windows, ghost pushes: nat)
    requires w.Track(hist, e.time)
    ensures r.Track(hist + [e], e.time) && r.Held() == w.Held() + pushes && pushes <= 6
  {
    var accountHour, n1 := Push(w.accountHour, Account, HOUR, e, hist);
    var accountDay, n2 := Push(w.accountDay, Account, DAY, e, hist);
    var deviceDay, n3 := Push(w.deviceDay, Device, DAY, e, hist);
    var beneficiaryDay, n4 := Push(w.beneficiaryDay, Beneficiary, DAY, e, hist);
    var deviceHour, n5 := Push(w.deviceHour, Device, HOUR, e, hist);
    var merchantHour, n6 := Push(w.merchantHour, Merchant, HOUR, e, hist);
    r := Windows(accountHour, accountDay, deviceDay, beneficiaryDay, deviceHour, merchantHour);
    pushes := n1 + n2 + n3 + n4 + n5 + n6;
  }

  /** The local variables of the pass: six deque dictionaries and two first-seen dictionaries. */
  datatype State = State(windows: Windows, accountDevice: FirstSeen, accountBeneficiary: FirstSeen)
  {
    ghost predicate Summarises(hist: seq<Event>, t: real)
    {
      && windows.Track(hist, t)
      && IsFirstSeen(accountDevice, hist, Device)
      && IsFirstSeen(accountBeneficiary, hist, Beneficiary)
    }
  }

  const START := State(Windows(map[], map[], map[], map[], map[], map[]), map[], map[])

  lemma StartSummarises(t: real)
    ensures START.Summarises([], t) && START.windows.Held() == 0
  {
  }

  /** The state after recording e also serves the next, not earlier, event. */
  lemma SummarisesNext(s: State, ordered: seq<Event>, i: nat)
    requires TimeOrdered(ordered) && i + 1 < |ordered|
    requires s.Summarises(ordered[..i] + [ordered[i]], ordered[i].time)
    ensures s.Summarises(ordered[..i + 1], ordered[i + 1].time)
  {
    hide Windows.Track, IsFirstSeen;
    assert ordered[..i + 1] == ordered[..i] + [ordered[i]];
    s.windows.TrackLater(ordered[..i + 1], ordered[i].time, ordered[i + 1].time);
  }

  lemma PrefixRow(ordered: seq<Event>, i: nat)
    requires TimeOrdered(ordered) && i < |ordered|
    ensures SpecRow(ordered[..i], ordered[i]) == SpecRow(ordered, ordered[i])
  {
    assert ordered == ordered[..i] + ordered[i..];
    LaterEventsUnseen(ordered[..i], ordered[i..], ordered[i]);
  }

  /** One iteration: build the row of e, then record e. */
  method Step(s: State, e: Event, ghost hist: seq<Event>)
    returns (r: State, row: Row, ghost pushes: nat, ghost pops: nat)
    requires s.Summarises(hist, e.time) && TimeOrdered(hist)
    ensures r.Summarises(hist + [e], e.time)
    ensures row == SpecRow(hist, e)
    ensures r.windows.Held() + pops == s.windows.Held() + pushes && pushes <= 6
  {
    var w, read, dropped := ReadRow(s.windows, s.accountDevice, s.accountBeneficiary, e, hist);
    row, pops := read, dropped;
    w, pushes := Append(w, e, hist);
    var accountDevice := Note(s.accountDevice, Device, e, hist);
    var accountBeneficiary := Note(s.accountBeneficiary, Beneficiary, e, hist);
    r := State(w, accountDevice, accountBeneficiary);
  }

  /** The whole pass. It stops at the first log1p argument outside the domain, and no deque
      entry is popped twice: pops never exceed pushes. */
  method StreamRows(ordered: seq<Event>) returns (r: Option<seq<Row>>, ghost pushes: nat, ghost pops: nat)
    requires TimeOrdered(ordered)
    ensures r.Some? <==> forall e :: e in ordered ==> InDomain(SpecRow(ordered, e))
    ensures r.Some? ==> |r.value| == |ordered|
    ensures r.Some? ==> forall i :: 0 <= i < |ordered| ==> r.value[i] == SpecRow(ordered, ordered[i])
    ensures pops <= pushes <= 6 * |ordered|
  {
    hide SpecRow, State.Summarises, Windows.Held;
    var state := START;
    var rows: seq<Row> := [];
    pushes, pops := 0, 0;
    StartSummarises(if ordered != [] then ordered[0].time else 0.0);
    for i := 0 to |ordered|
      invariant |rows| == i
      invariant forall j :: 0 <= j < i ==> rows[j] == SpecRow(ordered, ordered[j]) && InDomain(rows[j])
      invariant i < |ordered| ==> state.Summarises(ordered[..i], ordered[i].time)
      invariant pops + state.windows.Held() == pushes <= 6 * i
    {
      var after, row, n, m := Step(state, ordered[i], ordered[..i]);
      state, pushes, pops := after, pushes + n, pops + m;
      PrefixRow(ordered, i);
      if !InDomain(row) {
        assert ordered[i] in ordered;
        return None, pushes, pops;
      }
      rows := rows + [row];
      if i + 1 < |ordered| { SummarisesNext(state, ordered, i); }
    }
    return Some(rows), pushes, pops;
  }

  // ---------------------------------------------------------------- the feature table

  /** Sorting by timestamp, then by event id. */
  function EventOrder(): (Event, Event) -> bool
  {
    (a: Event, b: Event) => a.time < b.time || (a.time == b.time && StringLe(a.id, b.id))
  }

  lemma EventOrderTotal()
    ensures TotalPreorder(EventOrder())
  {
    forall a: Event, b: Event ensures EventOrder()(a, b) || EventOrder()(b, a) {
      StringTotal(a.id, b.id);
    }
    forall a: Event, b: Event, c: Event | EventOrder()(a, b) && EventOrder()(b, c) ensures EventOrder()(a, c) {
      if a.time == b.time == c.time { StringTransitive(a.id, b.id, c.id); }
    }
  }

  ghost predicate UniqueIds(events: seq<Event>)
  {
    forall i, j :: 0 <= i < j < |events| ==> events[i].id != events[j].id
  }

  lemma UniqueIdsPermutation(xs: seq<Event>, ys: seq<Event>)
    requires multiset(xs) == multiset(ys) && UniqueIds(xs)
    ensures UniqueIds(ys)
  {
    forall i, j | 0 <= i < j < |ys| ensures ys[i].id != ys[j].id {
      if ys[i].id == ys[j].id {
        assert ys[i] in multiset(xs) && ys[j] in multiset(xs);
        CountTwice(ys, i, j);
        CountOnce(xs, ys[i]);
      }
    }
  }

  datatype Outcome = Features(rows: seq<Row>) | MathDomainError | DuplicateEventId | MissingColumn

  /** `make_features`: sort, stream, and join the rows back in the caller's order, refusing
      repeated event ids only at that join. Without events the table of rows has no column to join on. */
  method MakeFeatures(events: seq<Event>) returns (o: Outcome)
    ensures o == MissingColumn <==> events == []
    ensures o == MathDomainError <==> exists e :: e in events && !InDomain(SpecRow(events, e))
    ensures o.Features? ==> UniqueIds(events) && |o.rows| == |events|
    ensures o.Features? ==> forall i :: 0 <= i < |events| ==> o.rows[i] == SpecRow(events, events[i])
    ensures o == DuplicateEventId ==> !UniqueIds(events)
  {
    hide SpecRow, InDomain;
    if events == [] {
      return MissingColumn;
    }
    var ordered := SortBy(EventOrder(), events);
    EventOrderTotal();
    SortBySorted(EventOrder(), events);
    assert TimeOrdered(ordered) by {
      forall i, j | 0 <= i < j < |ordered| ensures ordered[i].time <= ordered[j].time {
        assert EventOrder()(ordered[i], ordered[j]);
      }
    }
    forall e: Event ensures SpecRow(ordered, e) == SpecRow(events, e) {
      OrderUnseen(ordered, events, e);
    }
    assert forall e :: e in events <==> e in multiset(ordered);
    var streamed, _, _ := StreamRows(ordered);
    if streamed.None? {
      return MathDomainError;
    }
    o := Join(events, ordered, streamed.value);
  }

  /** The domain error does occur: for two events, exactly when the earlier one has an amount or a decline of
      -1 or less that the later one sums. */
  lemma DomainErrorIff(x: Event, y: Event)
    requires x.time < y.time
    ensures (exists e :: e in [x, y] && !InDomain(SpecRow([x, y], e)))
       <==> || (x.amount <= -1.0 && x.account == y.account && y.time - 1440.0 <= x.time)
            || (x.decline <= -1 && y.time - 60.0 <= x.time
                && (x.device == y.device || (y.merchant != "" && x.merchant == y.merchant)))
  {
    hide SpecRow;
    assert [x, y] == [] + [x, y] == [x] + [y] && [x] == [x] + [];
    LaterEventsUnseen([], [x, y], x);
    LaterEventsUnseen([x], [y], y);
    FirstRow(x);
    FirstRow(y);
    OneMoreCounts(x, [], y);
    assert x in [x, y] && y in [x, y] && forall e :: e in [x, y] ==> e == x || e == y;
  }

  method Join(events: seq<Event>, ordered: seq<Event>, rows: seq<Row>) returns (o: Outcome)
    requires multiset(events) == multiset(ordered) && |rows| == |ordered|
    requires forall i :: 0 <= i < |rows| ==> rows[i] == SpecRow(events, ordered[i])
    ensures o != MathDomainError && o != MissingColumn
    ensures o.Features? ==> UniqueIds(events) && |o.rows| == |events|
    ensures o.Features? ==> forall i :: 0 <= i < |events| ==> o.rows[i] == SpecRow(events, events[i])
    ensures o == DuplicateEventId ==> !UniqueIds(events)
  {
    hide SpecRow;
    var byId: map<string, nat> := map[];
    for i := 0 to |ordered|
      invariant forall j :: 0 <= j < i ==> ordered[j].id in byId && byId[ordered[j].id] == j
      invariant forall k :: k in byId ==> byId[k] < i && ordered[byId[k]].id == k
      invariant UniqueIds(ordered[..i])
    {
      if ordered[i].id in byId {
        if UniqueIds(events) {
          UniqueIdsPermutation(events, ordered);
          assert false;
        }
        return DuplicateEventId;
      }
      byId := byId[ordered[i].id := i];
    }
    assert ordered[..|ordered|] == ordered;
    UniqueIdsPermutation(ordered, events);
    var joined: seq<Row> := [];
    for i := 0 to |events|
      invariant |joined| == i
      invariant forall j :: 0 <= j < i ==> joined[j] == SpecRow(events, events[j])
    {
      assert events[i] in multiset(ordered);
      joined := joined + [rows[byId[events[i].id]]];
    }
    return Features(joined);
  }

  /** `assert_event_time`: every joined row draws only on strictly earlier sources. */
  predicate AssertEventTime(events: seq<Event>, rows: seq<Row>)
  {
    forall e, r :: e in events && r in rows && e.id == r.id ==> r.maxSource.Some? ==> r.maxSource.value < e.time
  }

  lemma SourceIsEarlier(events: seq<Event>, e: Event)
    ensures var r := SpecRow(events, e); r.id == e.id && (r.maxSource.Some? ==> r.maxSource.value < e.time)
  {
    hide Filter, Sum, Latest;
    assert forall x :: x in Sources(events, e) ==> x.time < e.time;
  }

  lemma EventTimeHolds(events: seq<Event>, rows: seq<Row>)
    requires UniqueIds(events) && |rows| == |events|
    requires forall i :: 0 <= i < |events| ==> rows[i] == SpecRow(events, events[i])
    ensures AssertEventTime(events, rows)
    ensures forall i :: 0 <= i < |rows| && rows[i].maxSource.Some? ==> rows[i].maxSource.value < events[i].time
  {
    hide SpecRow;
    forall i | 0 <= i < |rows| ensures rows[i].maxSource.Some? ==> rows[i].maxSource.value < events[i].time {
      SourceIsEarlier(events, events[i]);
    }
    forall e, r | e in events && r in rows && e.id == r.id && r.maxSource.Some?
      ensures r.maxSource.value < e.time
    {
      var i :| 0 <= i < |events| && events[i] == e;
      var j :| 0 <= j < |rows| && rows[j] == r;
      SourceIsEarlier(events, events[j]);
      assert i == j;
    }
  }

  // ---------------------------------------------------------------- renaming identifiers

  datatype Renaming = Renaming(account: string -> string, device: string -> string,
                               merchant: string -> string, beneficiary: string -> string)
  {
    function Apply(): Event -> Event
    {
      (e: Event) => e.(account := account(e.account), device := device(e.device),
                       merchant := merchant(e.merchant), beneficiary := beneficiary(e.beneficiary))
    }

    /** Injective on the values each column holds, with blanks kept apart from the rest. */
    ghost predicate Faithful(events: seq<Event>)
    {
      && (forall x, y :: x in events && y in events && account(x.account) == account(y.account) ==>
            x.account == y.account)
      && (forall x, y :: x in events && y in events && device(x.device) == device(y.device) ==> x.device == y.device)
      && (forall x, y :: x in events && y in events && merchant(x.merchant) == merchant(y.merchant) ==>
            x.merchant == y.merchant)
      && (forall x, y :: x in events && y in events && beneficiary(x.beneficiary) == beneficiary(y.beneficiary) ==>
            x.beneficiary == y.beneficiary)
      && (forall x :: x in events ==> (merchant(x.merchant) == "" <==> x.merchant == ""))
      && (forall x :: x in events ==> (beneficiary(x.beneficiary) == "" <==> x.beneficiary == ""))
    }
  }

  lemma PriorRenamed(events: seq<Event>, e: Event, r: Renaming, c: Column, span: real)
    requires r.Faithful(events) && e in events
    ensures Prior(Map(r.Apply(), events), c, r.Apply()(e), span) == Map(r.Apply(), Prior(events, c, e, span))
  {
    var e' := r.Apply()(e);
    FilterMap(r.Apply(), InWindow(c, Key(c, e), span, e.time), InWindow(c, Key(c, e'), span, e'.time), events);
  }

  lemma {:induction false} LatestRenamed(s: seq<Event>, r: Renaming)
    ensures Latest(Map(r.Apply(), s)) == Latest(s)
  {
    if s != [] {
      LatestRenamed(s[1..], r);
      assert Map(r.Apply(), s)[1..] == Map(r.Apply(), s[1..]);
    }
  }

  lemma AccountsImage(s: seq<Event>, r: Renaming)
    ensures Accounts(Map(r.Apply(), s)) == Image(r.account, Accounts(s))
  {
    hide Map;
    var t := Map(r.Apply(), s);
    forall a | a in Accounts(t) ensures exists b :: b in Accounts(s) && r.account(b) == a {
      var i :| 0 <= i < |t| && t[i].account == a;
      assert s[i] in s;
      assert s[i].account in Accounts(s);
    }
    forall a | a in Accounts(s) ensures r.account(a) in Accounts(t) {
      var i :| 0 <= i < |s| && s[i].account == a;
      assert t[i] in t;
    }
  }

  lemma AccountsRenamed(s: seq<Event>, events: seq<Event>, extra: set<string>, r: Renaming)
    requires forall x, y :: x in events && y in events && r.account(x.account) == r.account(y.account) ==>
        x.account == y.account
    requires forall x :: x in s ==> x in events
    requires extra <= Accounts(events)
    ensures |Accounts(Map(r.Apply(), s)) + Image(r.account, extra)| == |Accounts(s) + extra|
  {
    hide Map;
    var all := Accounts(s) + extra;
    AccountsImage(s, r);
    ImageUnion(r.account, Accounts(s), extra);
    forall a, b | a in all && b in all && r.account(a) == r.account(b) ensures a == b {
      assert a in Accounts(events) && b in Accounts(events);
    }
    ImageSize(r.account, all);
  }

  lemma CountsRenamed(events: seq<Event>, e: Event, r: Renaming)
    requires r.Faithful(events) && e in events
    ensures var x, y := SpecRow(Map(r.Apply(), events), r.Apply()(e)), SpecRow(events, e);
      && x.accountCount60m == y.accountCount60m && x.accountAmount24h == y.accountAmount24h
      && x.deviceDeclines60m == y.deviceDeclines60m && x.merchantDeclines60m == y.merchantDeclines60m
  {
    hide Map, Filter, Sum, Latest, Renaming.Faithful;
    var f := r.Apply();
    PriorRenamed(events, e, r, Account, HOUR);
    PriorRenamed(events, e, r, Account, DAY);
    PriorRenamed(events, e, r, Device, HOUR);
    PriorRenamed(events, e, r, Merchant, HOUR);
    SumMap(f, Amount(), Amount(), Prior(events, Account, e, DAY));
    SumMap(f, Decline(), Decline(), Prior(events, Device, e, HOUR));
    SumMap(f, Decline(), Decline(), Prior(events, Merchant, e, HOUR));
  }

  lemma SourcesRenamed(events: seq<Event>, e: Event, r: Renaming)
    requires r.Faithful(events) && e in events
    ensures SpecRow(Map(r.Apply(), events), r.Apply()(e)).maxSource == SpecRow(events, e).maxSource
  {
    hide Map, Filter, Sum, Latest, Renaming.Faithful;
    var f := r.Apply();
    PriorRenamed(events, e, r, Account, HOUR);
    PriorRenamed(events, e, r, Account, DAY);
    PriorRenamed(events, e, r, Device, DAY);
    PriorRenamed(events, e, r, Device, HOUR);
    PriorRenamed(events, e, r, Beneficiary, DAY);
    PriorRenamed(events, e, r, Merchant, HOUR);
    SixRenamed(f, Prior(events, Account, e, HOUR), Prior(events, Account, e, DAY), Prior(events, Device, e, DAY),
               Prior(events, Device, e, HOUR), Prior(events, Beneficiary, e, DAY), Prior(events, Merchant, e, HOUR));
    LatestRenamed(Sources(events, e), r);
    hide Prior;
  }

  lemma SixRenamed(f: Event -> Event, a: seq<Event>, b: seq<Event>, c: seq<Event>, d: seq<Event>, g: seq<Event>,
                   h: seq<Event>)
    ensures Map(f, a + b + c + d + g + h) == Map(f, a) + Map(f, b) + Map(f, c) + Map(f, d) + Map(f, g) + Map(f, h)
  {
    hide Map;
    MapAppend(f, a, b);
    MapAppend(f, a + b, c);
    MapAppend(f, a + b + c, d);
    MapAppend(f, a + b + c + d, g);
    MapAppend(f, a + b + c + d + g, h);
  }

  lemma DeviceAccountsRenamed(events: seq<Event>, e: Event, r: Renaming)
    requires r.Faithful(events) && e in events
    ensures SpecRow(Map(r.Apply(), events), r.Apply()(e)).deviceAccounts24h == SpecRow(events, e).deviceAccounts24h
  {
    hide Map, Filter, Sum, Latest, Accounts;
    PriorRenamed(events, e, r, Device, DAY);
    OwnAccount(events, e, r);
    AccountsRenamed(Prior(events, Device, e, DAY), events, {e.account}, r);
  }

  lemma BeneficiaryAccountsRenamed(events: seq<Event>, e: Event, r: Renaming)
    requires r.Faithful(events) && e in events
    ensures SpecRow(Map(r.Apply(), events), r.Apply()(e)).beneficiaryAccounts24h
        == SpecRow(events, e).beneficiaryAccounts24h
  {
    hide Map, Filter, Sum, Latest, Accounts;
    PriorRenamed(events, e, r, Beneficiary, DAY);
    OwnAccount(events, e, r);
    AccountsRenamed(Prior(events, Beneficiary, e, DAY), events, if e.beneficiary == "" then {} else {e.account}, r);
  }

  lemma OwnAccount(events: seq<Event>, e: Event, r: Renaming)
    requires e in events
    ensures Image(r.account, {}) == {} && Image(r.account, {e.account}) == {r.Apply()(e).account}
    ensures {e.account} <= Accounts(events)
  {
  }

  lemma FlagsRenamed(events: seq<Event>, e: Event, r: Renaming)
    requires r.Faithful(events) && e in events
    ensures var f := r.Apply(); NewDevice(Map(f, events), f(e)) == NewDevice(events, e)
    ensures var f := r.Apply(); NewBeneficiary(Map(f, events), f(e)) == NewBeneficiary(events, e)
  {
    hide Map;
    var f := r.Apply();
    var es := Map(f, events);
    forall x | x in events ensures f(x) in es {
      var i :| 0 <= i < |events| && events[i] == x;
      assert es[i] == f(x);
    }
    forall y | y in es ensures exists x :: x in events && y == f(x) {
      var i :| 0 <= i < |es| && es[i] == y;
      assert events[i] in events;
    }
  }

  lemma RemainderRenamed(events: seq<Event>, e: Event, r: Renaming)
    ensures var x, y := SpecRow(Map(r.Apply(), events), r.Apply()(e)), SpecRow(events, e);
      && x.id == y.id && x.time == y.time && x.amount == y.amount && x.channelA2a == y.channelA2a && x.hour == y.hour
      && x.newDevice == NewDevice(Map(r.Apply(), events), r.Apply()(e)) && y.newDevice == NewDevice(events, e)
      && x.newBeneficiary == NewBeneficiary(Map(r.Apply(), events), r.Apply()(e))
      && y.newBeneficiary == NewBeneficiary(events, e)
  {
    hide Map, Filter, Sum, Latest;
  }

  /** Renaming each identifier column injectively, blanks staying blank, leaves every row unchanged. */
  lemma RenamingUnseen(events: seq<Event>, e: Event, r: Renaming)
    requires r.Faithful(events) && e in events
    ensures SpecRow(Map(r.Apply(), events), r.Apply()(e)) == SpecRow(events, e)
  {
    hide SpecRow, Map, Renaming.Faithful, Renaming.Apply, NewDevice, NewBeneficiary;
    CountsRenamed(events, e, r);
    SourcesRenamed(events, e, r);
    DeviceAccountsRenamed(events, e, r);
    BeneficiaryAccountsRenamed(events, e, r);
    FlagsRenamed(events, e, r);
    RemainderRenamed(events, e, r);
  }
}
