/** The in-memory half of the query log as values: the ring, the eviction-synchronised
    counters and the sliding window. */
module QueryLogSpec {
  import opened Sequences
  import opened Text

  datatype LogEntry = LogEntry(id: int, time: int, clientIP: string, downstreamECS: string, domain: string,
                               qtype: string, upstream: string, answer: string, durationMs: int, status: string)

  /** Times are nanoseconds; an entry built without a time carries ZERO_TIME. */
  const ZERO_TIME := 0
  const QPS_WINDOW := 10_000_000_000

  predicate Matches(e: LogEntry, searchLower: string) {
    searchLower == "" ||
    Contains(ToLower(e.clientIP), searchLower) || Contains(ToLower(e.downstreamECS), searchLower) ||
    Contains(ToLower(e.domain), searchLower) || Contains(ToLower(e.qtype), searchLower) ||
    Contains(ToLower(e.upstream), searchLower) || Contains(ToLower(e.answer), searchLower) ||
    Contains(ToLower(e.status), searchLower)
  }

  /** Which total an entry counts towards. */
  datatype Region = CN | Overseas | Neither

  function RegionOf(e: LogEntry): Region {
    if Contains(e.upstream, "CN") then CN else if Contains(e.upstream, "Overseas") then Overseas else Neither
  }

  function CountRegion(r: Region, es: seq<LogEntry>): nat
    decreases |es|
  {
    if es == [] then 0 else CountRegion(r, es[..|es| - 1]) + (if RegionOf(es[|es| - 1]) == r then 1 else 0)
  }

  /** The fields entries are tallied by. */
  datatype Field = Client | Domain

  function KeyOf(f: Field, e: LogEntry): string {
    if f == Client then e.clientIP else e.domain
  }

  /** The fields a search looks at. */
  function Searched(e: LogEntry): seq<string> {
    [e.clientIP, e.downstreamECS, e.domain, e.qtype, e.upstream, e.answer, e.status]
  }

  /** Some searched field holds the text, whatever the case. */
  ghost predicate Shows(e: LogEntry, search: string) {
    exists f :: f in Searched(e) && HasPart(ToLower(f), ToLower(search))
  }

  lemma MatchesIff(e: LogEntry, search: string)
    ensures Matches(e, ToLower(search)) <==> Shows(e, search)
  {
    var t := ToLower(search);
    forall f | f in Searched(e)
      ensures Contains(ToLower(f), t) <==> HasPart(ToLower(f), t)
    {
      ContainsIff(ToLower(f), t);
    }
    assert forall i :: 0 <= i < 7 ==> Searched(e)[i] in Searched(e);
    hide Contains, ToLower, HasPart;
    if t == "" {
      assert HasPart(ToLower(e.clientIP), t) by { EmptyPart(ToLower(e.clientIP)); }
      assert e.clientIP in Searched(e);
    }
  }

  lemma EmptyPart(s: string)
    ensures HasPart(s, "")
  {
    assert s == "" + "" + s;
  }

  /** An upstream tag that names CN counts as CN whatever else it names, so
      GeoIP(CN/Fallback-Overseas) does. */
  lemma RegionIs(e: LogEntry)
    ensures RegionOf(e) == CN <==> HasPart(e.upstream, "CN")
    ensures RegionOf(e) == Overseas <==> HasPart(e.upstream, "Overseas") && !HasPart(e.upstream, "CN")
    ensures e.upstream == "GeoIP(CN/Fallback-Overseas)" ==> RegionOf(e) == CN
  {
    ContainsIff(e.upstream, "CN");
    ContainsIff(e.upstream, "Overseas");
    if e.upstream == "GeoIP(CN/Fallback-Overseas)" {
      assert e.upstream == "GeoIP(" + "CN" + "/Fallback-Overseas)";
    }
  }

  // ---------------------------------------------------------------- ring

  /** Oldest to newest reading of a ring whose oldest element sits at `start`. */
  function Unroll<T>(ring: seq<T>, start: nat): seq<T>
    requires start <= |ring|
  {
    ring[start..] + ring[..start]
  }

  /** Overwriting the oldest slot and advancing drops the front and appends at the back. */
  lemma RingOverwrite<T>(ring: seq<T>, start: nat, x: T)
    requires start < |ring|
    ensures (start + 1) % |ring| < |ring|
    ensures Unroll(ring[start := x], (start + 1) % |ring|) == Unroll(ring, start)[1..] + [x]
  {
    var next := ring[start := x];
    if start + 1 == |ring| {
      assert (start + 1) % |ring| == 0;
      assert Unroll(next, 0) == next;
      assert next == ring[..start] + [x];
    } else {
      assert (start + 1) % |ring| == start + 1;
      assert next[start + 1..] == ring[start + 1..];
      assert next[..start + 1] == ring[..start] + [x];
    }
  }

  lemma WrapsOnce(x: nat, n: nat)
    requires x < 2 * n
    ensures x % n == if x < n then x else x - n
  {
    if x < n {
      assert x % n == x;
    } else {
      assert x % n == x - n;
    }
  }

  lemma RingIndex<T>(ring: seq<T>, start: nat, i: nat)
    requires start < |ring| && i < |ring|
    ensures (start + i) % |ring| < |ring|
    ensures ring[(start + i) % |ring|] == Unroll(ring, start)[i]
  {
    WrapsOnce(start + i, |ring|);
  }

  lemma LastNSnoc<T>(s: seq<T>, x: T, n: nat)
    requires n > 0
    ensures LastN(s + [x], n) == (if |s| < n then LastN(s, n) else LastN(s, n)[1..]) + [x]
  {
  }

  /** The ring of capacity `cap` holds exactly the last `cap` elements of `history`. */
  ghost predicate RingHolds<T>(ring: seq<T>, start: nat, history: seq<T>, cap: nat) {
    && cap > 0 && |ring| <= cap
    && (if ring == [] then start == 0 else start < |ring|)
    && (|ring| < cap ==> start == 0)
    && Unroll(ring, start) == LastN(history, cap)
  }

  lemma RingAppend<T>(ring: seq<T>, start: nat, history: seq<T>, cap: nat, x: T)
    requires RingHolds(ring, start, history, cap) && |ring| < cap
    ensures RingHolds(ring + [x], start, history + [x], cap)
    ensures LastN(history + [x], cap) == LastN(history, cap) + [x]
  {
    LastNSnoc(history, x, cap);
    assert Unroll(ring, start) == ring && Unroll(ring + [x], 0) == ring + [x];
  }

  lemma RingEvict<T>(ring: seq<T>, start: nat, history: seq<T>, cap: nat, x: T)
    requires RingHolds(ring, start, history, cap) && |ring| == cap
    ensures RingHolds(ring[start := x], (start + 1) % |ring|, history + [x], cap)
    ensures LastN(history, cap) != [] && ring[start] == LastN(history, cap)[0]
    ensures LastN(history + [x], cap) == LastN(history, cap)[1..] + [x]
  {
    LastNSnoc(history, x, cap);
    RingOverwrite(ring, start, x);
    assert Unroll(ring, start)[0] == ring[start];
  }

  // ---------------------------------------------------------------- counters

  function Keys(f: Field, es: seq<LogEntry>): multiset<string> {
    if es == [] then multiset{} else multiset{KeyOf(f, es[0])} + Keys(f, es[1..])
  }

  lemma {:induction false} KeysSnoc(f: Field, es: seq<LogEntry>, e: LogEntry)
    ensures Keys(f, es + [e]) == Keys(f, es) + multiset{KeyOf(f, e)}
  {
    if es == [] {
      assert [e][1..] == [];
      assert [] + [e] == [e];
    } else {
      assert (es + [e])[1..] == es[1..] + [e];
      KeysSnoc(f, es[1..], e);
    }
  }

  /** The tallies count the entries of each client address, and of each domain. */
  lemma {:induction false} KeysCount(es: seq<LogEntry>, key: string)
    ensures Keys(Client, es)[key] == |Places((e: LogEntry) => e.clientIP == key, es)|
    ensures Keys(Domain, es)[key] == |Places((e: LogEntry) => e.domain == key, es)|
    decreases |es|
  {
    var ofClient, ofDomain := (e: LogEntry) => e.clientIP == key, (e: LogEntry) => e.domain == key;
    if es == [] {
      PlacesNone(ofClient);
      PlacesNone(ofDomain);
    } else {
      var init, e := es[..|es| - 1], es[|es| - 1];
      KeysCount(init, key);
      assert es == init + [e];
      KeysSnoc(Client, init, e);
      KeysSnoc(Domain, init, e);
      hide Places, Keys;
      PlacesSnoc(ofClient, init, e);
      PlacesSnoc(ofDomain, init, e);
    }
  }

  /** The counter map of a multiset: a key is present exactly when its count is positive. */
  function Counts(keys: multiset<string>): map<string, int> {
    map k | k in keys :: keys[k]
  }

  function Incremented(m: map<string, int>, k: string): map<string, int> {
    m[k := (if k in m then m[k] else 0) + 1]
  }

  /** The branch of decrementTopCounters for one counter map. */
  function Decremented(m: map<string, int>, k: string): map<string, int> {
    var count := (if k in m then m[k] else 0) - 1;
    if count > 0 then m[k := count] else m - {k}
  }

  lemma IncrementAddsOne(keys: multiset<string>, k: string)
    ensures Incremented(Counts(keys), k) == Counts(keys + multiset{k})
  {
  }

  lemma DecrementRemovesOne(keys: multiset<string>, k: string)
    requires k in keys
    ensures Decremented(Counts(keys), k) == Counts(keys - multiset{k})
  {
  }

  /** Counting a new entry in and the evicted front out keeps the counters on the shifted window. */
  lemma CountsAfterShift(f: Field, es: seq<LogEntry>, e: LogEntry)
    requires es != []
    ensures Decremented(Incremented(Counts(Keys(f, es)), KeyOf(f, e)), KeyOf(f, es[0])) ==
            Counts(Keys(f, es[1..] + [e]))
  {
    KeysSnoc(f, es[1..], e);
    IncrementAddsOne(Keys(f, es), KeyOf(f, e));
    var ks := Keys(f, es) + multiset{KeyOf(f, e)};
    DecrementRemovesOne(ks, KeyOf(f, es[0]));
    assert ks - multiset{KeyOf(f, es[0])} == Keys(f, es[1..]) + multiset{KeyOf(f, e)};
  }

  /** The counter is exact for the window of `history`. */
  ghost predicate CounterHolds(m: map<string, int>, f: Field, window: seq<LogEntry>) {
    m == Counts(Keys(f, window))
  }

  lemma CounterAppend(m: map<string, int>, f: Field, window: seq<LogEntry>, e: LogEntry)
    requires CounterHolds(m, f, window)
    ensures CounterHolds(Incremented(m, KeyOf(f, e)), f, window + [e])
  {
    KeysSnoc(f, window, e);
    IncrementAddsOne(Keys(f, window), KeyOf(f, e));
  }

  lemma CounterShift(m: map<string, int>, f: Field, window: seq<LogEntry>, e: LogEntry)
    requires CounterHolds(m, f, window) && window != []
    ensures CounterHolds(Decremented(Incremented(m, KeyOf(f, e)), KeyOf(f, window[0])), f, window[1..] + [e])
  {
    CountsAfterShift(f, window, e);
  }

  // ---------------------------------------------------------------- window

  /** Length of the longest suffix without a timestamp before `cutoff`. */
  function FreshSuffix(ts: seq<int>, cutoff: int): (n: nat)
    ensures n <= |ts|
    decreases |ts|
  {
    if ts == [] || ts[|ts| - 1] < cutoff then 0 else 1 + FreshSuffix(ts[..|ts| - 1], cutoff)
  }

  lemma FreshStep(ts: seq<int>, start: nat, i: nat, cutoff: int)
    requires start < i <= |ts|
    ensures FreshSuffix(ts[start..i], cutoff) ==
            if ts[i - 1] < cutoff then 0 else 1 + FreshSuffix(ts[start..i - 1], cutoff)
  {
    assert ts[start..i][..i - start - 1] == ts[start..i - 1];
  }

  /** Number of timestamps not before `cutoff`. */
  function CountSince(ts: seq<int>, cutoff: int): (n: nat)
    ensures n <= |ts|
    decreases |ts|
  {
    if ts == [] then 0 else CountSince(ts[..|ts| - 1], cutoff) + (if ts[|ts| - 1] < cutoff then 0 else 1)
  }

  lemma {:induction false} CountSinceIs(ts: seq<int>, cutoff: int)
    ensures CountSince(ts, cutoff) == |Places((t: int) => t >= cutoff, ts)|
    decreases |ts|
  {
    var since := (t: int) => t >= cutoff;
    if ts == [] {
      PlacesNone(since);
    } else {
      var init, t := ts[..|ts| - 1], ts[|ts| - 1];
      CountSinceIs(init, cutoff);
      assert ts == init + [t];
      hide Places;
      PlacesSnoc(since, init, t);
    }
  }

  ghost predicate NonDecreasing(ts: seq<int>) {
    forall i, j :: 0 <= i < j < |ts| ==> ts[i] <= ts[j]
  }

  lemma {:induction false} NoneSince(ts: seq<int>, cutoff: int)
    ensures CountSince(ts, cutoff) == 0 <==> forall i :: 0 <= i < |ts| ==> ts[i] < cutoff
    decreases |ts|
  {
    if ts != [] {
      var init := ts[..|ts| - 1];
      NoneSince(init, cutoff);
      assert forall i :: 0 <= i < |init| ==> init[i] == ts[i];
    }
  }

  /** No stale timestamp was recorded after a fresh one. */
  ghost predicate FreshStaysFresh(ts: seq<int>, cutoff: int) {
    forall i, j :: 0 <= i < j < |ts| && ts[i] >= cutoff ==> ts[j] >= cutoff
  }

  /** The backward scan counts every fresh timestamp exactly when no stale one was recorded after
      a fresh one; so it does whenever the timestamps are non-decreasing. */
  lemma {:induction false} ScanCountsAllIff(ts: seq<int>, cutoff: int)
    ensures FreshSuffix(ts, cutoff) <= CountSince(ts, cutoff)
    ensures FreshSuffix(ts, cutoff) == CountSince(ts, cutoff) <==> FreshStaysFresh(ts, cutoff)
    ensures NonDecreasing(ts) ==> FreshStaysFresh(ts, cutoff)
    decreases |ts|
  {
    if ts != [] {
      var init, last := ts[..|ts| - 1], ts[|ts| - 1];
      assert forall i :: 0 <= i < |init| ==> init[i] == ts[i];
      if last < cutoff {
        NoneSince(init, cutoff);
        if CountSince(init, cutoff) == 0 {
          assert FreshStaysFresh(ts, cutoff);
        } else {
          var i :| 0 <= i < |init| && init[i] >= cutoff;
          assert ts[i] >= cutoff && ts[|ts| - 1] < cutoff;
        }
      } else {
        ScanCountsAllIff(init, cutoff);
        assert FreshStaysFresh(ts, cutoff) <==> FreshStaysFresh(init, cutoff);
      }
    }
  }

  lemma CountSnoc(ts: seq<int>, t: int, cutoff: int)
    ensures CountSince(ts + [t], cutoff) == CountSince(ts, cutoff) + (if t < cutoff then 0 else 1)
    ensures FreshSuffix(ts + [t], cutoff) == if t < cutoff then 0 else 1 + FreshSuffix(ts, cutoff)
  {
    assert (ts + [t])[..|ts|] == ts;
  }

  lemma CountTwo(t: int, u: int, cutoff: int)
    ensures CountSince([t, u], cutoff) == (if t < cutoff then 0 else 1) + (if u < cutoff then 0 else 1)
    ensures u < cutoff ==> FreshSuffix([t, u], cutoff) == 0
    ensures u >= cutoff ==> FreshSuffix([u], cutoff) == 1
  {
    CountSnoc([t], u, cutoff);
    CountSnoc([], t, cutoff);
    CountSnoc([], u, cutoff);
    hide CountSince, FreshSuffix;
    assert [t] + [u] == [t, u] && [] + [t] == [t] && [] + [u] == [u];
    CountNone(cutoff);
  }

  lemma CountNone(cutoff: int)
    ensures CountSince([], cutoff) == 0 && FreshSuffix([], cutoff) == 0
  {
  }

  /** A stale element in front stops the scan before everything further left. */
  lemma {:induction false} ScanStopsAt(ts: seq<int>, d: nat, cutoff: int)
    requires d <= |ts|
    requires d > 0 ==> ts[d - 1] < cutoff
    ensures FreshSuffix(ts[d..], cutoff) == FreshSuffix(ts, cutoff)
    decreases |ts|
  {
    if d < |ts| && ts[|ts| - 1] >= cutoff {
      ScanStopsAt(ts[..|ts| - 1], d, cutoff);
      assert ts[d..][..|ts| - d - 1] == ts[..|ts| - 1][d..];
    }
  }

  /** The greatest time recorded. */
  function Latest(ts: seq<int>): (m: int)
    requires ts != []
    decreases |ts|
  {
    if |ts| == 1 then ts[0]
    else
      var m := Latest(ts[..|ts| - 1]);
      if ts[|ts| - 1] > m then ts[|ts| - 1] else m
  }

  lemma {:induction false} LatestBounds(ts: seq<int>)
    requires ts != []
    ensures Latest(ts) in ts
    ensures forall i :: 0 <= i < |ts| ==> ts[i] <= Latest(ts)
    decreases |ts|
  {
    if |ts| > 1 {
      var init := ts[..|ts| - 1];
      LatestBounds(init);
      assert forall i :: 0 <= i < |init| ==> init[i] == ts[i];
    }
  }

  /** `recent` is the end of everything recorded, and what lies before its live part ends in a
      time that is stale for the latest one. */
  ghost predicate WindowHolds(recent: seq<int>, start: nat, ts: seq<int>) {
    && start <= |recent| <= |ts|
    && recent == ts[|ts| - |recent|..]
    && (var d := |ts| - |recent| + start; d > 0 ==> ts[d - 1] < Latest(ts) - QPS_WINDOW)
  }

  lemma WindowPush(recent: seq<int>, start: nat, ts: seq<int>, t: int)
    requires WindowHolds(recent, start, ts)
    ensures WindowHolds(recent + [t], start, ts + [t])
  {
    assert (ts + [t])[..|ts|] == ts;
  }

  lemma WindowAdvance(recent: seq<int>, start: nat, ts: seq<int>)
    requires WindowHolds(recent, start, ts) && start < |recent|
    requires recent[start] < recent[|recent| - 1] - QPS_WINDOW
    ensures WindowHolds(recent, start + 1, ts)
  {
    LatestBounds(ts);
    assert recent[|recent| - 1] == ts[|ts| - 1];
    assert recent[start] == ts[|ts| - |recent| + start];
  }

  lemma WindowCompact(recent: seq<int>, start: nat, ts: seq<int>)
    requires WindowHolds(recent, start, ts)
    ensures WindowHolds(recent[start..], 0, ts)
  {
  }

  /** The live window answers for everything recorded, given a clock not behind the records. */
  lemma WindowScan(recent: seq<int>, start: nat, ts: seq<int>, now: int)
    requires WindowHolds(recent, start, ts)
    requires forall i :: 0 <= i < |ts| ==> ts[i] <= now
    ensures FreshSuffix(recent[start..], now - QPS_WINDOW) == FreshSuffix(ts, now - QPS_WINDOW)
  {
    var d := |ts| - |recent| + start;
    assert recent[start..] == ts[d..];
    if d > 0 {
      LatestBounds(ts);
    }
    ScanStopsAt(ts, d, now - QPS_WINDOW);
  }

  /** First index from `from` on whose time is not before `cutoff`, or the end. */
  function FirstSince(ts: seq<int>, from: nat, cutoff: int): (i: nat)
    requires from <= |ts|
    ensures from <= i <= |ts|
    ensures forall k :: from <= k < i ==> ts[k] < cutoff
    ensures i < |ts| ==> ts[i] >= cutoff
    decreases |ts| - from
  {
    if from == |ts| || ts[from] >= cutoff then from else FirstSince(ts, from + 1, cutoff)
  }

  /** How many of the recorded times the window has dropped: each new time drops the front that is
      stale for it, up to the first time that is not. */
  function Dropped(ts: seq<int>): (n: nat)
    ensures n <= |ts|
    ensures ts != [] ==> n < |ts|
    decreases |ts|
  {
    if ts == [] then 0
    else
      var last := |ts| - 1;
      FirstSince(ts, Dropped(ts[..last]), ts[last] - QPS_WINDOW)
  }

  /** What the window has let go of is exactly what had to be dropped. */
  ghost predicate DropsExact(recent: seq<int>, start: nat, ts: seq<int>) {
    start <= |recent| <= |ts| && |ts| - |recent| + start == Dropped(ts)
  }

  ghost predicate AllBefore(ts: seq<int>, from: nat, to: nat, cutoff: int)
    requires to <= |ts|
  {
    forall k :: from <= k < to ==> ts[k] < cutoff
  }

  lemma DroppedIs(ts: seq<int>, d: nat)
    requires ts != [] && Dropped(ts[..|ts| - 1]) <= d < |ts| && ts[d] >= ts[|ts| - 1] - QPS_WINDOW
    requires AllBefore(ts, Dropped(ts[..|ts| - 1]), d, ts[|ts| - 1] - QPS_WINDOW)
    ensures Dropped(ts) == d
  {
    var i := FirstSince(ts, Dropped(ts[..|ts| - 1]), ts[|ts| - 1] - QPS_WINDOW);
    assert !(i < d) && !(d < i);
  }

  /** A time was added, and the start not yet moved. */
  ghost predicate DropsDue(recent: seq<int>, start: nat, ts: seq<int>) {
    && start < |recent| <= |ts|
    && |ts| - |recent| + start == Dropped(ts[..|ts| - 1])
  }

  lemma DropsPush(recent: seq<int>, start: nat, ts: seq<int>, t: int)
    requires DropsExact(recent, start, ts)
    ensures DropsDue(recent + [t], start, ts + [t])
  {
    assert (ts + [t])[..|ts|] == ts;
  }

  lemma TimePushed(recent: seq<int>, start: nat, ts: seq<int>, t: int)
    requires WindowHolds(recent, start, ts) && DropsExact(recent, start, ts)
    ensures WindowHolds(recent + [t], start, ts + [t]) && DropsDue(recent + [t], start, ts + [t])
  {
    WindowPush(recent, start, ts, t);
    DropsPush(recent, start, ts, t);
  }

  /** Moving the start to the first time that is not stale drops exactly what is due. */
  lemma DropsAdvance(recent: seq<int>, start: nat, next: nat, ts: seq<int>)
    requires WindowHolds(recent, next, ts) && DropsDue(recent, start, ts)
    requires start <= next < |recent| && recent[next] >= recent[|recent| - 1] - QPS_WINDOW
    requires AllBefore(recent, start, next, recent[|recent| - 1] - QPS_WINDOW)
    ensures DropsExact(recent, next, ts)
  {
    hide Dropped, Latest;
    var shift := |ts| - |recent|;
    EndOf(ts, recent);
    assert ts[|ts| - 1] == recent[|recent| - 1];
    forall k | shift + start <= k < shift + next
      ensures ts[k] < ts[|ts| - 1] - QPS_WINDOW
    {
      assert ts[k] == recent[k - shift];
    }
    DroppedIs(ts, shift + next);
  }

  lemma EndOf(ts: seq<int>, recent: seq<int>)
    requires |recent| <= |ts| && recent == ts[|ts| - |recent|..]
    ensures forall k :: |ts| - |recent| <= k < |ts| ==> ts[k] == recent[k - (|ts| - |recent|)]
  {
  }

  lemma DropsCompact(recent: seq<int>, start: nat, ts: seq<int>)
    requires DropsExact(recent, start, ts)
    ensures DropsExact(recent[start..], 0, ts)
  {
  }

  /** Every time dropped is stale for some recorded one, so for the greatest. */
  lemma {:induction false} DroppedStale(ts: seq<int>, i: nat)
    requires i < Dropped(ts)
    ensures ts != [] && ts[i] < Latest(ts) - QPS_WINDOW
    decreases |ts|
  {
    var last := |ts| - 1;
    LatestBounds(ts);
    if i < Dropped(ts[..last]) {
      DroppedStale(ts[..last], i);
      LatestBounds(ts[..last]);
      assert ts[..last][i] == ts[i];
      var m := Latest(ts[..last]);
      var j :| 0 <= j < last && ts[..last][j] == m;
      assert ts[j] == m;
    }
  }

  lemma {:induction false} CountSplit(ts: seq<int>, d: nat, cutoff: int)
    requires d <= |ts|
    ensures CountSince(ts, cutoff) == CountSince(ts[..d], cutoff) + CountSince(ts[d..], cutoff)
    decreases |ts|
  {
    if d == |ts| {
      assert ts[..d] == ts && ts[d..] == [];
    } else {
      var init := ts[..|ts| - 1];
      CountSplit(init, d, cutoff);
      assert init[..d] == ts[..d] && ts[d..][..|ts| - d - 1] == init[d..];
    }
  }

  /** For every clock: the scan of what is left after dropping counts every query of the window
      exactly when no stale time was recorded after a fresh one and nothing dropped is fresh. */
  lemma DroppedCountsAllIff(ts: seq<int>, d: nat, cutoff: int)
    requires d <= |ts|
    ensures FreshSuffix(ts[d..], cutoff) == CountSince(ts, cutoff) <==>
            FreshStaysFresh(ts, cutoff) && forall i :: 0 <= i < d ==> ts[i] < cutoff
  {
    CountSplit(ts, d, cutoff);
    ScanCountsAllIff(ts[d..], cutoff);
    NoneSince(ts[..d], cutoff);
    hide FreshSuffix, CountSince;
    assert (forall i :: 0 <= i < d ==> ts[..d][i] < cutoff) <==> forall i :: 0 <= i < d ==> ts[i] < cutoff;
    if forall i :: 0 <= i < d ==> ts[i] < cutoff {
      FreshTail(ts, d, cutoff);
    }
  }

  lemma FreshTail(ts: seq<int>, d: nat, cutoff: int)
    requires d <= |ts| && forall i :: 0 <= i < d ==> ts[i] < cutoff
    ensures FreshStaysFresh(ts[d..], cutoff) <==> FreshStaysFresh(ts, cutoff)
  {
    if FreshStaysFresh(ts[d..], cutoff) {
      forall i, j | 0 <= i < j < |ts| && ts[i] >= cutoff
        ensures ts[j] >= cutoff
      {
        assert ts[d..][i - d] == ts[i] && ts[d..][j - d] == ts[j];
      }
    }
  }

  /** The live scan, for every clock: it sees what was not dropped, and counts every query of the
      window exactly when no stale time was recorded after a fresh one and nothing dropped is
      fresh. A clock not behind any recorded time leaves only the first condition. */
  lemma WindowCountsAllIff(recent: seq<int>, start: nat, ts: seq<int>, now: int)
    requires WindowHolds(recent, start, ts) && DropsExact(recent, start, ts)
    ensures recent[start..] == ts[Dropped(ts)..]
    ensures FreshSuffix(recent[start..], now - QPS_WINDOW) == CountSince(ts, now - QPS_WINDOW) <==>
            FreshStaysFresh(ts, now - QPS_WINDOW) && forall i :: 0 <= i < Dropped(ts) ==> ts[i] < now - QPS_WINDOW
    ensures (forall i :: 0 <= i < |ts| ==> ts[i] <= now) ==>
              forall i :: 0 <= i < Dropped(ts) ==> ts[i] < now - QPS_WINDOW
    ensures NonDecreasing(ts) ==> FreshStaysFresh(ts, now - QPS_WINDOW)
  {
    hide Dropped, FreshSuffix, CountSince;
    assert recent[start..] == ts[Dropped(ts)..];
    DroppedCountsAllIff(ts, Dropped(ts), now - QPS_WINDOW);
    ScanCountsAllIff(ts, now - QPS_WINDOW);
    if forall i :: 0 <= i < |ts| ==> ts[i] <= now {
      forall i | 0 <= i < Dropped(ts)
        ensures ts[i] < now - QPS_WINDOW
      {
        DroppedStale(ts, i);
        LatestBounds(ts);
      }
    }
  }

  /** The live part starts with a time that is not stale for the newest one. */
  ghost predicate HeadFresh(recent: seq<int>, start: nat) {
    recent != [] ==> start < |recent| && recent[start] >= recent[|recent| - 1] - QPS_WINDOW
  }

  /** Copies are paid for by dropped elements and advances by calls; after a call at least
      half of the buffer is live. */
  ghost predicate CostHolds(len: nat, start: nat, calls: nat, moved: nat, advanced: nat) {
    && (len > 0 ==> len < 2 * (len - start))
    && moved + len <= calls
    && advanced + len <= calls + start
  }

  lemma CostUncompacted(len: nat, start: nat, calls: nat, moved: nat, advanced: nat)
    requires start < len && (start == 0 || start * 2 < len)
    requires moved + len <= calls && advanced + len <= calls + start
    ensures CostHolds(len, start, calls, moved, advanced)
  {
  }

  lemma CostCompacted(len: nat, start: nat, calls: nat, moved: nat, advanced: nat)
    requires start < len <= start * 2
    requires moved + len <= calls && advanced + len <= calls + start
    ensures CostHolds(len - start, 0, calls, moved + len - start, advanced)
  {
  }

  lemma CostBefore(recent: seq<int>, start: nat, ts: seq<int>, calls: nat, moved: nat, advanced: nat)
    requires WindowHolds(recent, start, ts) && CostHolds(|recent|, start, calls, moved, advanced)
    ensures start <= |recent| && moved + |recent| <= calls && advanced + |recent| <= calls + start
    ensures moved <= calls && advanced <= calls
  {
  }

  lemma HeadFreshCompacted(recent: seq<int>, start: nat)
    requires start < |recent| && recent[start] >= recent[|recent| - 1] - QPS_WINDOW
    ensures HeadFresh(recent, start) && HeadFresh(recent[start..], 0)
  {
  }

  // ---------------------------------------------------------------- totals and IDs

  ghost predicate TotalsHold(lifetime: seq<LogEntry>, queries: int, cn: int, overseas: int) {
    && queries == |lifetime|
    && cn == CountRegion(CN, lifetime)
    && overseas == CountRegion(Overseas, lifetime)
  }

  ghost predicate NamesCN(e: LogEntry) {
    HasPart(e.upstream, "CN")
  }

  ghost predicate NamesOnlyOverseas(e: LogEntry) {
    HasPart(e.upstream, "Overseas") && !HasPart(e.upstream, "CN")
  }

  /** The totals count the entries whose tag names CN, and the others that name Overseas. */
  lemma {:induction false} TotalsCount(es: seq<LogEntry>)
    ensures CountRegion(CN, es) == |Places(e => NamesCN(e), es)|
    ensures CountRegion(Overseas, es) == |Places(e => NamesOnlyOverseas(e), es)|
    decreases |es|
  {
    var cn, overseas := e => NamesCN(e), e => NamesOnlyOverseas(e);
    if es == [] {
      PlacesNone(cn);
      PlacesNone(overseas);
    } else {
      var init, e := es[..|es| - 1], es[|es| - 1];
      TotalsCount(init);
      RegionIs(e);
      assert es == init + [e];
      hide Places, RegionOf, HasPart;
      PlacesSnoc(cn, init, e);
      PlacesSnoc(overseas, init, e);
    }
  }

  lemma TotalsAdd(lifetime: seq<LogEntry>, queries: int, cn: int, overseas: int, e: LogEntry)
    requires TotalsHold(lifetime, queries, cn, overseas)
    ensures TotalsHold(lifetime + [e], queries + 1, if RegionOf(e) == CN then cn + 1 else cn,
                       if RegionOf(e) == Overseas then overseas + 1 else overseas)
  {
    assert (lifetime + [e])[..|lifetime|] == lifetime;
  }

  /** The entry as AddLog stores it. */
  function Stamped(entry: LogEntry, id: int, now: int): LogEntry {
    entry.(id := id, time := if entry.time == ZERO_TIME then now else entry.time)
  }

  ghost predicate IncreasingIds(es: seq<LogEntry>) {
    forall i, j :: 0 <= i < j < |es| ==> es[i].id < es[j].id
  }

  ghost predicate IdsHold(history: seq<LogEntry>, lifetime: seq<LogEntry>, nextID: int) {
    && |history| <= |lifetime| && history == lifetime[|lifetime| - |history|..]
    && (forall i :: 0 <= i < |lifetime| ==> lifetime[i].id < nextID)
    && IncreasingIds(history)
  }

  lemma IdsAdd(history: seq<LogEntry>, lifetime: seq<LogEntry>, nextID: int, e: LogEntry)
    requires IdsHold(history, lifetime, nextID) && e.id == nextID
    ensures IdsHold(history + [e], lifetime + [e], nextID + 1)
  {
    forall i | 0 <= i < |history|
      ensures history[i].id < nextID
    {
      assert history[i] == lifetime[|lifetime| - |history| + i];
    }
  }

  function Times(es: seq<LogEntry>): seq<int>
    decreases |es|
  {
    if es == [] then [] else Times(es[..|es| - 1]) + [es[|es| - 1].time]
  }

  lemma {:induction false} TimesAt(es: seq<LogEntry>)
    ensures |Times(es)| == |es|
    ensures forall i :: 0 <= i < |es| ==> Times(es)[i] == es[i].time
    decreases |es|
  {
    if es != [] {
      TimesAt(es[..|es| - 1]);
    }
  }

  lemma TimesSnoc(es: seq<LogEntry>, e: LogEntry)
    ensures Times(es + [e]) == Times(es) + [e.time]
  {
    assert (es + [e])[..|es|] == es;
  }

  lemma MatchingNone(es: seq<LogEntry>, searchLower: string, offset: int, limit: int)
    ensures Matching(es[..0], searchLower) == [] && Page<LogEntry>([], offset, limit) == []
  {
  }

  /** What an empty history satisfies. */
  lemma EmptyHolds(cap: nat)
    requires cap > 0
    ensures RingHolds<LogEntry>([], 0, [], cap) && WindowHolds([], 0, Times([])) && DropsExact([], 0, Times([]))
    ensures CounterHolds(map[], Client, LastN([], cap)) && CounterHolds(map[], Domain, LastN([], cap))
  {
  }

  lemma IdsOfNothing()
    ensures IdsHold([], [], 1) && TotalsHold([], 0, 0, 0)
  {
  }

  lemma IdsForget(history: seq<LogEntry>, lifetime: seq<LogEntry>, nextID: int)
    requires IdsHold(history, lifetime, nextID)
    ensures IdsHold([], lifetime, nextID)
  {
  }

  /** A restored entry keeps every ID below the next one. */
  lemma IdsRestore(lifetime: seq<LogEntry>, nextID: int, e: LogEntry)
    requires IdsHold([], lifetime, nextID)
    ensures IdsHold([], lifetime + [e], if e.id >= nextID then e.id + 1 else nextID)
  {
  }

  /** An ID that is `base`, or one above that of some entry. */
  predicate OneAbove(es: seq<LogEntry>, base: int, id: int) {
    id == base || exists i :: 0 <= i < |es| && id == es[i].id + 1
  }

  lemma OneAboveBase(es: seq<LogEntry>, base: int)
    ensures OneAbove(es, base, base)
  {
  }

  lemma OneAboveSnoc(es: seq<LogEntry>, base: int, id: int, e: LogEntry)
    requires OneAbove(es, base, id)
    ensures OneAbove(es + [e], base, id) && OneAbove(es + [e], base, e.id + 1)
  {
    var more := es + [e];
    assert more[|es|] == e;
    if id != base {
      var i :| 0 <= i < |es| && id == es[i].id + 1;
      assert more[i] == es[i];
    }
  }

  lemma RingCap(ring: seq<LogEntry>, start: nat, history: seq<LogEntry>, cap: nat)
    requires RingHolds(ring, start, history, cap)
    ensures cap > 0 && |ring| <= cap && |LastN(history, cap)| == |ring|
    ensures if ring == [] then start == 0 else start < |ring|
  {
  }

  lemma FreshNone(ts: seq<int>, start: nat, cutoff: int)
    requires start <= |ts|
    ensures ts[start..|ts|] == ts[start..] && FreshSuffix(ts[start..start], cutoff) == 0
  {
  }

  /** The entries a search shows; an empty search shows all. */
  function Matching(es: seq<LogEntry>, searchLower: string): seq<LogEntry>
    decreases |es|
  {
    if es == [] then []
    else Matching(es[..|es| - 1], searchLower) + (if Matches(es[|es| - 1], searchLower) then [es[|es| - 1]] else [])
  }

  lemma MatchingSnoc(es: seq<LogEntry>, i: nat, searchLower: string)
    requires i < |es|
    ensures Matching(es[..i + 1], searchLower) ==
            Matching(es[..i], searchLower) + (if Matches(es[i], searchLower) then [es[i]] else [])
  {
    assert es[..i + 1][..i] == es[..i];
  }
}
