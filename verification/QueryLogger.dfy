/** The query logger as one object. `mu` guards the ring, the counters and the window,
    `fileMu` the file; every method here is one critical section or a sequence of them
    without interference. Interleavings of the writer goroutine are in WriterQueue. */
module QueryLog {
  import opened LogFile
  import opened LogReader
  import opened Options
  import opened QueryLogSpec
  import opened Sequences
  import opened Text

  /** json.Marshal and json.Unmarshal of one entry. */
  datatype Codec = Codec(marshal: LogEntry -> Record, unmarshal: seq<byte> -> Option<LogEntry>)

  const CARRIAGE_RETURN: byte := 13
  const READ_CHUNK := 4096

  /** The tokens a line scanner yields: lines without their end of line, no empty last one. */
  function Tokens(content: seq<byte>): seq<seq<byte>> {
    TokensOf(Split(content, NEWLINE))
  }

  function TokensOf(parts: seq<seq<byte>>): seq<seq<byte>>
    requires parts != []
  {
    var tokens := if parts[|parts| - 1] == [] then parts[..|parts| - 1] else parts;
    seq(|tokens|, i requires 0 <= i < |tokens| => DropCR(tokens[i]))
  }

  function DropCR(l: seq<byte>): seq<byte> {
    if l != [] && l[|l| - 1] == CARRIAGE_RETURN then l[..|l| - 1] else l
  }

  lemma {:induction false} NewlinesAreCuts(content: seq<byte>)
    ensures |Split(content, NEWLINE)| == Newlines(content) + 1
  {
    if content != [] {
      NewlinesAreCuts(content[1..]);
    }
  }

  /** A line scanner counts the newlines of a file exactly when the file is terminated; else it
      counts one more, the open last line. */
  lemma TokensIff(content: seq<byte>)
    ensures |Tokens(content)| == Newlines(content) + (if Terminated(content) then 0 else 1)
  {
    NewlinesAreCuts(content);
    LastPart(content);
  }

  lemma {:induction false} LastPart(content: seq<byte>)
    ensures var parts := Split(content, NEWLINE); parts[|parts| - 1] == [] <==> Terminated(content)
  {
    if |content| > 1 {
      LastPart(content[1..]);
      assert content[1..][|content| - 2] == content[|content| - 1];
    } else if |content| == 1 {
      assert Split(content[1..], NEWLINE) == [[]];
    }
  }

  function DecodedTokens(unmarshal: seq<byte> -> Option<LogEntry>, tokens: seq<seq<byte>>): seq<LogEntry> {
    if tokens == [] then []
    else
      var e := unmarshal(tokens[|tokens| - 1]);
      DecodedTokens(unmarshal, tokens[..|tokens| - 1]) + (if e.Some? then [e.value] else [])
  }

  lemma AppendedBytes(s: seq<byte>, r: Record)
    ensures s + (r + [NEWLINE]) == s + r + [NEWLINE]
    ensures [] + r + [NEWLINE] == r + [NEWLINE]
  {
  }

  lemma DecodedNone(unmarshal: seq<byte> -> Option<LogEntry>, tokens: seq<seq<byte>>)
    ensures DecodedTokens(unmarshal, tokens[..0]) == []
  {
  }

  lemma DecodedSnoc(unmarshal: seq<byte> -> Option<LogEntry>, tokens: seq<seq<byte>>, i: nat)
    requires i < |tokens|
    ensures DecodedTokens(unmarshal, tokens[..i + 1]) ==
            DecodedTokens(unmarshal, tokens[..i])
                + (if unmarshal(tokens[i]).Some? then [unmarshal(tokens[i]).value] else [])
  {
    assert tokens[..i + 1][..i] == tokens[..i];
  }

  class QueryLogger {
    const enabled: bool
    const maxHistory: nat
    const maxSizeMB: nat
    /** saveToFile with a file path: the file exists as a sink and the writer runs. */
    const persist: bool
    const codec: Codec

    var logs: seq<LogEntry>
    var logsStart: nat
    var nextID: int
    var recentLogs: seq<int>
    var recentStart: nat
    var totalQueries: int
    var totalCN: int
    var totalOverseas: int
    var topClients: map<string, int>
    var topDomains: map<string, int>

    var content: Option<seq<byte>>
    var persistedLogCount: int
    var fileQueue: seq<LogEntry>
    var closed: bool

    /** Entries added since the last Clear, and all entries ever counted, restored ones first. */
    ghost var history: seq<LogEntry>
    ghost var lifetime: seq<LogEntry>
    /** Cost of recordRecentLog over the whole life: calls, elements copied, start advances. */
    ghost var calls: nat
    ghost var moved: nat
    ghost var advanced: nat

    ghost predicate RingValid()
      reads `logs, `logsStart, `history
    {
      RingHolds(logs, logsStart, history, maxHistory)
    }

    ghost predicate CountersValid()
      reads `history, `topClients, `topDomains
    {
      && CounterHolds(topClients, Client, LastN(history, maxHistory))
      && CounterHolds(topDomains, Domain, LastN(history, maxHistory))
    }

    ghost predicate WindowValid()
      reads `recentLogs, `recentStart, `history, `calls, `moved, `advanced
    {
      && WindowHolds(recentLogs, recentStart, Times(history))
      && DropsExact(recentLogs, recentStart, Times(history))
      && CostHolds(|recentLogs|, recentStart, calls, moved, advanced)
      && HeadFresh(recentLogs, recentStart)
    }

    ghost predicate TotalsValid()
      reads `lifetime, `totalQueries, `totalCN, `totalOverseas
    {
      TotalsHold(lifetime, totalQueries, totalCN, totalOverseas)
    }

    ghost predicate IdsValid()
      reads `history, `lifetime, `nextID
    {
      IdsHold(history, lifetime, nextID)
    }

    ghost predicate Valid()
      reads this
    {
      RingValid() && CountersValid() && WindowValid() && TotalsValid() && IdsValid()
    }

    function File(): FileState
      reads `content, `persistedLogCount
    {
      FileState(content, persistedLogCount)
    }

    constructor Empty(enabled: bool, maxHistory: int, maxSizeMB: int, persist: bool, codec: Codec,
        content: Option<seq<byte>>)
      ensures Valid() && IsEmpty() && fileQueue == [] && !closed && this.content == content
      ensures this.enabled == enabled && this.codec == codec && this.persist == (enabled && persist)
      ensures this.maxHistory == (if maxHistory <= 0 then 5000 else maxHistory)
      ensures this.maxSizeMB == (if maxSizeMB <= 0 then 1 else maxSizeMB)
    {
      this.enabled := enabled;
      this.maxHistory := if maxHistory <= 0 then 5000 else maxHistory;
      this.maxSizeMB := if maxSizeMB <= 0 then 1 else maxSizeMB;
      this.persist := enabled && persist;
      this.codec := codec;
      logs, logsStart, nextID := [], 0, 1;
      recentLogs, recentStart := [], 0;
      totalQueries, totalCN, totalOverseas := 0, 0, 0;
      topClients, topDomains := map[], map[];
      this.content, persistedLogCount, fileQueue, closed := content, 0, [], false;
      history, lifetime, calls, moved, advanced := [], [], 0, 0, 0;
      new;
      hide RingHolds, CounterHolds, WindowHolds, DropsExact, TotalsHold, IdsHold, LastN, Times, CostHolds, HeadFresh;
      IdsOfNothing();
      EmptyRingIsValid();
    }

    /** Nothing was ever logged or restored. */
    ghost predicate IsEmpty()
      reads `history, `lifetime, `nextID, `persistedLogCount, `calls
    {
      history == [] && lifetime == [] && nextID == 1 && persistedLogCount == 0 && calls == 0
    }

    lemma EmptyRingIsValid()
      requires maxHistory > 0 && logs == [] && logsStart == 0 && history == []
      requires recentLogs == [] && recentStart == 0 && moved <= calls && advanced <= calls
      requires topClients == map[] && topDomains == map[]
      ensures RingValid() && CountersValid() && WindowValid()
    {
      EmptyHolds(maxHistory);
    }

    /** A logger on an existing or missing file. */
    static method NewQueryLogger(enabled: bool, maxHistory: int, maxSizeMB: int, persist: bool, codec: Codec,
        content: Option<seq<byte>>)
      returns (l: QueryLogger)
      ensures fresh(l) && l.Valid() && l.history == [] && l.fileQueue == [] && !l.closed && l.content == content
      ensures l.enabled == enabled && l.codec == codec && l.persist == (enabled && persist)
      ensures l.maxHistory == (if maxHistory <= 0 then 5000 else maxHistory)
      ensures l.maxSizeMB == (if maxSizeMB <= 0 then 1 else maxSizeMB)
      ensures l.lifetime ==
              if l.persist && content.Some? then DecodedTokens(codec.unmarshal, Tokens(content.value)) else []
      ensures l.persist && content.Some? ==>
                l.persistedLogCount == Newlines(content.value) + (if Terminated(content.value) then 0 else 1)
      ensures OneAbove(l.lifetime, 1, l.nextID)
      ensures l.persist ==> (CountExact(l.File()) <==> content == None || Terminated(content.value))
    {
      l := new QueryLogger.Empty(enabled, maxHistory, maxSizeMB, persist, codec, content);
      hide RingHolds, CounterHolds, WindowHolds, DropsExact, TotalsHold, IdsHold, LastN, Times, CostHolds, HeadFresh;
      hide Tokens, DecodedTokens, Terminated, Newlines;
      if l.persist && content.Some? {
        l.RestoreStatsFromFile();
        TokensIff(content.value);
      }
    }

    /** Counts the scanner lines of the existing file and replays its decodable entries into
        the totals; the next ID exceeds every restored one. */
    method RestoreStatsFromFile()
      requires TotalsValid() && IdsValid() && content.Some? && history == []
      modifies `persistedLogCount, `lifetime, `nextID, `totalQueries, `totalCN, `totalOverseas
      ensures TotalsValid() && IdsValid()
      ensures persistedLogCount == old(persistedLogCount) + |Tokens(content.value)|
      ensures lifetime == old(lifetime) + DecodedTokens(codec.unmarshal, Tokens(content.value))
      ensures OneAbove(lifetime, old(nextID), nextID)
    {
      hide RingHolds, CounterHolds, WindowHolds, DropsExact, TotalsHold, IdsHold, LastN, Times;
      hide Tokens, DecodedTokens, OneAbove;
      var tokens := Tokens(content.value);
      DecodedNone(codec.unmarshal, tokens);
      assert OneAbove(lifetime, nextID, nextID) by { OneAboveBase(lifetime, nextID); }
      var i := 0;
      while i < |tokens|
        invariant 0 <= i <= |tokens|
        invariant TotalsValid() && IdsValid()
        invariant persistedLogCount == old(persistedLogCount) + i
        invariant lifetime == old(lifetime) + DecodedTokens(codec.unmarshal, tokens[..i])
        invariant OneAbove(lifetime, old(nextID), nextID)
      {
        persistedLogCount := persistedLogCount + 1;
        DecodedSnoc(codec.unmarshal, tokens, i);
        var entry := codec.unmarshal(tokens[i]);
        if entry.Some? {
          IdsRestore(lifetime, nextID, entry.value);
          OneAboveSnoc(lifetime, old(nextID), nextID, entry.value);
          UpdateTotals(entry.value);
          if entry.value.id >= nextID {
            nextID := entry.value.id + 1;
          }
        }
        i := i + 1;
      }
      assert tokens[..|tokens|] == tokens;
    }

    function Totals(): (int, int, int)
      reads `totalQueries, `totalCN, `totalOverseas
    {
      (totalQueries, totalCN, totalOverseas)
    }

    /** One more query; the tag says which of the other totals it counts towards. */
    ghost predicate TotalsMoved(before: (int, int, int), entry: LogEntry)
      reads `totalQueries, `totalCN, `totalOverseas
    {
      && totalQueries == before.0 + 1
      && totalCN == before.1 + (if HasPart(entry.upstream, "CN") then 1 else 0)
      && totalOverseas ==
         before.2 + (if HasPart(entry.upstream, "Overseas") && !HasPart(entry.upstream, "CN") then 1 else 0)
    }

    method UpdateTotals(entry: LogEntry)
      requires TotalsValid()
      modifies `totalQueries, `totalCN, `totalOverseas, `lifetime
      ensures TotalsValid() && lifetime == old(lifetime) + [entry] && TotalsMoved(old(Totals()), entry)
    {
      hide RingHolds, CounterHolds, WindowHolds, DropsExact, TotalsHold, IdsHold, LastN, Times;
      TotalsAdd(lifetime, totalQueries, totalCN, totalOverseas, entry);
      ContainsIff(entry.upstream, "CN");
      ContainsIff(entry.upstream, "Overseas");
      lifetime := lifetime + [entry];
      totalQueries := totalQueries + 1;
      if Contains(entry.upstream, "CN") {
        totalCN := totalCN + 1;
      } else if Contains(entry.upstream, "Overseas") {
        totalOverseas := totalOverseas + 1;
      }
    }

    /** One log call: a numbered, timed copy of the entry joins history, and is queued or
        appended when the log is persisted. */
    method AddLog(entry: LogEntry, now: int)
      requires Valid()
      modifies this
      ensures Valid() && closed == old(closed)
      ensures !enabled || closed ==> unchanged(this)
      ensures enabled && !closed ==>
                var e := entry.(id := old(nextID), time := if entry.time == ZERO_TIME then now else entry.time);
                && history == old(history) + [e] && lifetime == old(lifetime) + [e]
                && nextID == old(nextID) + 1 && calls == old(calls) + 1 && TotalsMoved(old(Totals()), e)
                && Sink() == if persist then Enqueued(old(Sink()), e) else old(Sink())
    {
      hide RingHolds, CounterHolds, WindowHolds, DropsExact, TotalsHold, IdsHold, LastN, Times, CostHolds, HeadFresh,
        Enqueued;
      if !enabled || closed {
        return;
      }
      var e := Record(entry, now);
      if persist {
        EnqueueFileWrite(e);
      }
    }

    /** The part of AddLog under the lock. */
    method Record(entry: LogEntry, now: int) returns (e: LogEntry)
      requires Valid()
      modifies `nextID, `recentLogs, `recentStart, `calls, `moved, `advanced
      modifies `totalQueries, `totalCN, `totalOverseas, `lifetime, `logs, `logsStart, `topClients, `topDomains, `history
      ensures Valid() && e == Stamped(entry, old(nextID), now)
      ensures history == old(history) + [e] && lifetime == old(lifetime) + [e]
      ensures nextID == old(nextID) + 1 && calls == old(calls) + 1 && TotalsMoved(old(Totals()), e)
    {
      hide RingHolds, CounterHolds, WindowHolds, DropsExact, TotalsHold, IdsHold, LastN, Times, CostHolds, HeadFresh;
      e := entry.(id := nextID);
      nextID := nextID + 1;
      if e.time == ZERO_TIME {
        e := e.(time := now);
      }
      IdsAdd(history, lifetime, nextID - 1, e);
      RecordRecentLog(e.time, e);
      UpdateTotals(e);
      AddToMemory(e);
      Commit(e);
    }

    /** The entry every structure already accounts for joins history. */
    ghost method Commit(e: LogEntry)
      requires RingHolds(logs, logsStart, history + [e], maxHistory)
      requires CounterHolds(topClients, Client, LastN(history + [e], maxHistory))
      requires CounterHolds(topDomains, Domain, LastN(history + [e], maxHistory))
      requires WindowHolds(recentLogs, recentStart, Times(history + [e]))
      requires DropsExact(recentLogs, recentStart, Times(history + [e]))
      requires CostHolds(|recentLogs|, recentStart, calls, moved, advanced) && HeadFresh(recentLogs, recentStart)
      requires TotalsValid() && IdsHold(history + [e], lifetime, nextID)
      modifies `history
      ensures Valid() && history == old(history) + [e]
    {
      hide RingHolds, CounterHolds, WindowHolds, DropsExact, TotalsHold, IdsHold, LastN, Times, CostHolds, HeadFresh;
      history := history + [e];
    }

    /** Entry at logical index `i`, oldest first. */
    function LogAt(i: nat): (e: LogEntry)
      requires RingValid() && i < |logs|
      reads `logs, `logsStart, `history
      ensures e == LastN(history, maxHistory)[i]
    {
      RingIndex(logs, logsStart, i);
      logs[(logsStart + i) % |logs|]
    }

    /** Adds to the ring, overwriting the oldest entry when full, and keeps both counters on
        exactly the entries in the ring. */
    method AddToMemory(entry: LogEntry)
      requires RingValid() && CountersValid()
      modifies `logs, `logsStart, `topClients, `topDomains
      ensures RingHolds(logs, logsStart, history + [entry], maxHistory)
      ensures CounterHolds(topClients, Client, LastN(history + [entry], maxHistory))
      ensures CounterHolds(topDomains, Domain, LastN(history + [entry], maxHistory))
    {
      hide RingHolds, CounterHolds, WindowHolds, DropsExact, TotalsHold, IdsHold, LastN, Times;
      RingCap(logs, logsStart, history, maxHistory);
      ghost var window := LastN(history, maxHistory);
      ghost var clients, domains := topClients, topDomains;
      topClients := Incremented(topClients, entry.clientIP);
      topDomains := Incremented(topDomains, entry.domain);
      if |logs| < maxHistory || |logs| == 0 {
        RingAppend(logs, logsStart, history, maxHistory, entry);
        CounterAppend(clients, Client, window, entry);
        CounterAppend(domains, Domain, window, entry);
        logs := logs + [entry];
        return;
      }
      RingEvict(logs, logsStart, history, maxHistory, entry);
      CounterShift(clients, Client, window, entry);
      CounterShift(domains, Domain, window, entry);
      var evicted := logs[logsStart];
      logs := logs[logsStart := entry];
      logsStart := (logsStart + 1) % |logs|;
      DecrementTopCounters(evicted);
    }

    method DecrementTopCounters(entry: LogEntry)
      modifies `topClients, `topDomains
      ensures topClients == Decremented(old(topClients), entry.clientIP)
      ensures topDomains == Decremented(old(topDomains), entry.domain)
    {
      var count := (if entry.clientIP in topClients then topClients[entry.clientIP] else 0) - 1;
      if count > 0 {
        topClients := topClients[entry.clientIP := count];
      } else {
        topClients := topClients - {entry.clientIP};
      }
      count := (if entry.domain in topDomains then topDomains[entry.domain] else 0) - 1;
      if count > 0 {
        topDomains := topDomains[entry.domain := count];
      } else {
        topDomains := topDomains - {entry.domain};
      }
    }

    /** Appends the time, advances the start past stale times and compacts once the dropped
        front is at least half. Any timestamps; `entry` is the entry being added. */
    method RecordRecentLog(ts: int, ghost entry: LogEntry)
      requires WindowValid() && entry.time == ts
      modifies `recentLogs, `recentStart, `calls, `moved, `advanced
      ensures WindowHolds(recentLogs, recentStart, Times(history + [entry]))
      ensures DropsExact(recentLogs, recentStart, Times(history + [entry]))
      ensures CostHolds(|recentLogs|, recentStart, calls, moved, advanced)
      ensures HeadFresh(recentLogs, recentStart)
      ensures calls == old(calls) + 1
    {
      hide WindowHolds, DropsExact, DropsDue, Times, CostHolds, HeadFresh, AllBefore;
      ghost var all := Times(history + [entry]);
      CostBefore(recentLogs, recentStart, Times(history), calls, moved, advanced);
      TimesSnoc(history, entry);
      TimePushed(recentLogs, recentStart, Times(history), ts);
      calls := calls + 1;
      recentLogs := recentLogs + [ts];
      AdvanceStart(ts - QPS_WINDOW, all);
      Compact(all);
    }

    /** Drops the stale front from the buffer once it is at least half of it. */
    method Compact(ghost all: seq<int>)
      requires recentStart < |recentLogs| && recentLogs[recentStart] >= recentLogs[|recentLogs| - 1] - QPS_WINDOW
      requires WindowHolds(recentLogs, recentStart, all) && DropsExact(recentLogs, recentStart, all)
      requires moved + |recentLogs| <= calls && advanced + |recentLogs| <= calls + recentStart
      modifies `recentLogs, `recentStart, `moved
      ensures WindowHolds(recentLogs, recentStart, all) && DropsExact(recentLogs, recentStart, all)
      ensures CostHolds(|recentLogs|, recentStart, calls, moved, advanced) && HeadFresh(recentLogs, recentStart)
      ensures recentLogs[recentStart..] == old(recentLogs[recentStart..])
    {
      hide WindowHolds, DropsExact, CostHolds, HeadFresh;
      HeadFreshCompacted(recentLogs, recentStart);
      if recentStart > 0 && recentStart * 2 >= |recentLogs| {
        CostCompacted(|recentLogs|, recentStart, calls, moved, advanced);
        WindowCompact(recentLogs, recentStart, all);
        DropsCompact(recentLogs, recentStart, all);
        moved := moved + |recentLogs| - recentStart;
        recentLogs := recentLogs[recentStart..];
        recentStart := 0;
      } else {
        CostUncompacted(|recentLogs|, recentStart, calls, moved, advanced);
      }
    }

    /** The start index moves to the first time that is not stale. */
    method AdvanceStart(cutoff: int, ghost all: seq<int>)
      requires recentStart < |recentLogs| && recentLogs[|recentLogs| - 1] == cutoff + QPS_WINDOW
      requires WindowHolds(recentLogs, recentStart, all) && DropsDue(recentLogs, recentStart, all)
      modifies `recentStart, `advanced
      ensures WindowHolds(recentLogs, recentStart, all) && DropsExact(recentLogs, recentStart, all)
      ensures recentStart < |recentLogs| && recentLogs[recentStart] >= cutoff
      ensures AllBefore(recentLogs, old(recentStart), recentStart, cutoff)
      ensures advanced - old(advanced) == recentStart - old(recentStart) >= 0
    {
      hide WindowHolds, DropsDue, DropsExact;
      ghost var start := recentStart;
      while recentStart < |recentLogs| && recentLogs[recentStart] < cutoff
        invariant recentStart < |recentLogs|
        invariant WindowHolds(recentLogs, recentStart, all)
        invariant AllBefore(recentLogs, old(recentStart), recentStart, cutoff)
        invariant advanced - old(advanced) == recentStart - old(recentStart) >= 0
      {
        WindowAdvance(recentLogs, recentStart, all);
        recentStart := recentStart + 1;
        advanced := advanced + 1;
      }
      DropsAdvance(recentLogs, start, recentStart, all);
    }

    /** Queries per second over the window of ten seconds, for every clock: the scan sees the times that were not
        dropped, and it is exact, a tenth of the queries of the window, exactly when no stale time
        was recorded after a fresh one and nothing dropped is fresh. With `now` not before any
        recorded time nothing dropped is fresh, and for times in order none is stale after a fresh
        one. */
    method CurrentQPS(now: int) returns (qps: real)
      requires WindowValid()
      ensures var ts, cutoff := Times(history), now - 10_000_000_000;
              qps == FreshSuffix(ts[Dropped(ts)..], cutoff) as real / 10.0
      ensures var ts, cutoff := Times(history), now - 10_000_000_000;
              qps == CountSince(ts, cutoff) as real / 10.0 <==>
              FreshStaysFresh(ts, cutoff) && forall i :: 0 <= i < Dropped(ts) ==> ts[i] < cutoff
      ensures var ts, cutoff := Times(history), now - 10_000_000_000;
              (forall i :: 0 <= i < |ts| ==> ts[i] <= now) ==>
              && (qps == CountSince(ts, cutoff) as real / 10.0 <==> FreshStaysFresh(ts, cutoff))
              && (NonDecreasing(ts) ==> FreshStaysFresh(ts, cutoff))
    {
      hide FreshSuffix, CountSince, Dropped, WindowHolds, DropsExact, Times, CostHolds, HeadFresh, FreshStaysFresh,
        NonDecreasing;
      var recentCount := CountRecent(now - QPS_WINDOW);
      qps := recentCount as real / 10.0;
      WindowCountsAllIff(recentLogs, recentStart, Times(history), now);
      Tenths(recentCount, CountSince(Times(history), now - QPS_WINDOW));
    }

    static lemma Tenths(a: nat, b: nat)
      ensures a as real / 10.0 == b as real / 10.0 <==> a == b
    {
    }

    /** The newest-to-oldest scan of the live part up to the first stale time. */
    method CountRecent(cutoff: int) returns (recentCount: nat)
      requires WindowValid()
      ensures recentStart <= |recentLogs| && recentCount == FreshSuffix(recentLogs[recentStart..], cutoff)
    {
      hide FreshSuffix, WindowHolds, DropsExact, Times, CostHolds, HeadFresh;
      CostBefore(recentLogs, recentStart, Times(history), calls, moved, advanced);
      FreshNone(recentLogs, recentStart, cutoff);
      if recentStart >= |recentLogs| {
        return 0;
      }
      ghost var live := recentLogs[recentStart..];
      recentCount := 0;
      var i := |recentLogs|;
      while i > recentStart
        invariant recentStart <= i <= |recentLogs|
        invariant FreshSuffix(live, cutoff) == recentCount + FreshSuffix(recentLogs[recentStart..i], cutoff)
      {
        FreshStep(recentLogs, recentStart, i, cutoff);
        if recentLogs[i - 1] < cutoff {
          break;
        }
        recentCount := recentCount + 1;
        i := i - 1;
      }
    }

    /** Forgets ring, counters and window; totals, IDs and file stay. */
    method Clear()
      requires Valid()
      modifies `logs, `logsStart, `recentLogs, `recentStart, `topClients, `topDomains, `history
      ensures Valid() && history == []
    {
      hide RingHolds, CounterHolds, WindowHolds, DropsExact, TotalsHold, IdsHold, LastN, Times, CostHolds, HeadFresh;
      RingCap(logs, logsStart, history, maxHistory);
      IdsForget(history, lifetime, nextID);
      CostBefore(recentLogs, recentStart, Times(history), calls, moved, advanced);
      logs, logsStart := [], 0;
      recentLogs, recentStart := [], 0;
      topClients, topDomains := map[], map[];
      history := [];
      EmptyRingIsValid();
    }

    // ------------------------------------------------------------- file

    function QueueSize(): (n: nat)
      ensures 64 <= n <= 1024
      ensures 64 <= maxHistory <= 1024 ==> n == maxHistory
      ensures maxHistory < 64 ==> n == 64
      ensures maxHistory > 1024 ==> n == 1024
    {
      var size := if maxHistory > 1024 then 1024 else maxHistory;
      if size < 64 then 64 else size
    }

    /** Keeps the end of an oversized file and returns the number of lines left. */
    method PruneLogFile(limit: nat) returns (lines: int)
      requires content.Some?
      modifies `content
      ensures content == Some(Pruned(old(content.value), TargetBytes(limit)))
      ensures lines == if |old(content.value)| <= TargetBytes(limit) then persistedLogCount else Newlines(content.value)
    {
      hide TargetBytes, ProbeEnd, Newlines;
      var target := TargetBytes(limit);
      var s := content.value;
      if |s| <= target {
        return persistedLogCount;
      }
      var start := |s| - target;
      var probe := s[start..ProbeEnd(s, target)];
      var copyStart := start;
      var newlineIdx := IndexByte(probe, NEWLINE);
      if newlineIdx != -1 {
        copyStart := start + newlineIdx + 1;
      }
      content := Some(s[copyStart..]);
      lines := Newlines(content.value);
    }

    method AppendToFile(entry: LogEntry)
      modifies `content, `persistedLogCount
      ensures File() == AppendRecord(old(File()), codec.marshal(entry), LimitBytes(maxSizeMB))
    {
      var data := codec.marshal(entry) + [NEWLINE];
      var limit := LimitBytes(maxSizeMB);
      if content.Some? {
        if |content.value| + |data| > limit {
          var remaining := PruneLogFile(limit);
          persistedLogCount := remaining;
        }
      }
      var s := if content.Some? then content.value else [];
      AppendedBytes(s, codec.marshal(entry));
      content := Some(s + data);
      persistedLogCount := persistedLogCount + 1;
    }

    /** The writer's side: what is queued and what is in the file. */
    function Sink(): (seq<LogEntry>, FileState)
      reads `fileQueue, `content, `persistedLogCount
    {
      (fileQueue, File())
    }

    /** An entry joins the queue, or the file when the queue is full. */
    function Enqueued(sink: (seq<LogEntry>, FileState), e: LogEntry): (seq<LogEntry>, FileState) {
      if |sink.0| < QueueSize() then (sink.0 + [e], sink.1)
      else (sink.0, AppendRecord(sink.1, codec.marshal(e), LimitBytes(maxSizeMB)))
    }

    method EnqueueFileWrite(entry: LogEntry)
      modifies `content, `persistedLogCount, `fileQueue
      ensures Sink() == if closed then old(Sink()) else Enqueued(old(Sink()), entry)
    {
      hide AppendRecord;
      if closed {
        return;
      }
      if |fileQueue| < QueueSize() {
        fileQueue := fileQueue + [entry];
      } else {
        AppendToFile(entry);
      }
    }

    /** Close with an otherwise idle writer: the whole queue is appended in order. */
    method Close()
      modifies `content, `persistedLogCount, `fileQueue, `closed
      ensures closed
      ensures old(closed) ==> fileQueue == old(fileQueue) && File() == old(File())
      ensures !old(closed) ==>
                && fileQueue == []
                && File() == AppendAll(old(File()), Marshalled(codec.marshal, old(fileQueue)), LimitBytes(maxSizeMB))
    {
      if closed {
        return;
      }
      closed := true;
      ghost var queued := fileQueue;
      ghost var i := 0;
      while fileQueue != []
        invariant closed
        invariant 0 <= i <= |queued| && fileQueue == queued[i..]
        invariant File() == AppendAll(old(File()), Marshalled(codec.marshal, queued[..i]), LimitBytes(maxSizeMB))
      {
        var entry := fileQueue[0];
        fileQueue := fileQueue[1..];
        AppendToFile(entry);
        i := i + 1;
        ghost var records := Marshalled(codec.marshal, queued[..i - 1]);
        assert Marshalled(codec.marshal, queued[..i]) == records + [codec.marshal(entry)];
        AppendAllSnoc(old(File()), records, codec.marshal(entry), LimitBytes(maxSizeMB));
      }
      assert queued[..i] == queued;
    }

    // ------------------------------------------------------------- reading

    /** The matching entries a log view pages through, newest first: those of the file when it is
        persisted and exists, else those of the ring. */
    ghost function View(search: string): seq<LogEntry>
      reads this
    {
      if persist && content.Some? then FileView(search)
      else if search == "" then Reverse(LastN(history, maxHistory))
      else Matching(Reverse(LastN(history, maxHistory)), ToLower(search))
    }

    ghost function FileView(search: string): seq<LogEntry>
      requires content.Some?
      reads `content
    {
      NewestFirst(codec.unmarshal, (e: LogEntry) => Matches(e, ToLower(search)), content.value)
    }

    /** The page of a log view. An unsearched file view stops its scan after offset plus limit
        entries; that shows the page of the full view exactly for offsets that are not negative, or
        when the scan left nothing unread. Only the unsearched ring path cannot take a negative
        limit. */
    method GetLogs(offset: int, limit: int, search: string) returns (result: seq<LogEntry>, total: int)
      requires RingValid()
      requires !(persist && content.Some?) && search == "" && 0 <= offset < |logs| ==> limit >= 0
      ensures !enabled ==> result == [] && total == 0
      ensures enabled && persist && content.Some? ==>
                && result == (if search == "" then
                                Page(Visited(View(search), offset + limit, persistedLogCount, true), offset, limit)
                              else Page(View(search), offset, limit))
                && total == (if search == "" && persistedLogCount >= 0 then persistedLogCount else |View(search)|)
      ensures enabled && persist && content.Some? ==>
                (result == Page(View(search), offset, limit) <==>
                 search != "" || persistedLogCount < 0 || offset >= 0
                 || offset + limit <= 0 || offset + limit >= |View(search)|)
      ensures enabled && !(persist && content.Some?) ==>
                && result == (if search == "" && offset < 0 then [] else Page(View(search), offset, limit))
                && total == |View(search)|
    {
      if !enabled {
        return [], 0;
      }
      if persist && content.Some? {
        var stopAfter, totalHint := 0, -1;
        if search == "" {
          totalHint := persistedLogCount;
          stopAfter := offset + limit;
        }
        result, total := ReadLogsFromFileBackwards(offset, limit, search, stopAfter, totalHint);
        if 0 < stopAfter <= |View(search)| {
          EarlyStopShowsFullPageIff(View(search), offset, limit);
        }
        hide Page, NewestFirst;
        return;
      }
      if search == "" {
        result, total := PageOfRing(offset, limit);
      } else {
        result, total := SearchRing(offset, limit, ToLower(search));
      }
    }

    method ReadLogsFromFileBackwards(offset: int, limit: int, search: string, stopAfter: int, totalHint: int)
      returns (result: seq<LogEntry>, total: int)
      requires content.Some?
      ensures
        && result == Page(Visited(FileView(search), stopAfter, totalHint, search == ""), offset, limit)
        && total == (if totalHint >= 0 && search == "" then totalHint else |FileView(search)|)
    {
      var searchLower := ToLower(search);
      result, total := ReadBackwards(content.value, READ_CHUNK, codec.unmarshal,
                                     (e: LogEntry) => Matches(e, ToLower(search)),
                                     offset, limit, stopAfter, totalHint, searchLower == "");
    }

    method PageOfRing(offset: int, limit: int) returns (result: seq<LogEntry>, total: int)
      requires RingValid()
      requires 0 <= offset < |logs| ==> limit >= 0
      ensures result == if offset < 0 then [] else Page(Reverse(LastN(history, maxHistory)), offset, limit)
      ensures total == |LastN(history, maxHistory)|
    {
      hide RingHolds, LastN, Page;
      RingCap(logs, logsStart, history, maxHistory);
      total := |logs|;
      result := [];
      ghost var newestFirst := Reverse(LastN(history, maxHistory));
      if total == 0 || offset >= total || offset < 0 {
        if offset >= 0 {
          PageBeyond(newestFirst, offset, limit);
        }
        return;
      }
      var i := total - 1 - offset;
      while i >= 0 && |result| < limit
        invariant -1 <= i <= total - 1 - offset
        invariant |result| == total - 1 - offset - i <= limit
        invariant result == newestFirst[offset..offset + |result|]
      {
        assert LogAt(i) == newestFirst[offset + |result|];
        result := result + [LogAt(i)];
        i := i - 1;
      }
      PageIs(newestFirst, offset, limit, |result|);
    }

    method SearchRing(offset: int, limit: int, searchLower: string) returns (result: seq<LogEntry>, count: int)
      requires RingValid()
      ensures
        var all := Matching(Reverse(LastN(history, maxHistory)), searchLower);
        result == Page(all, offset, limit) && count == |all|
    {
      hide RingHolds, CounterHolds, WindowHolds, DropsExact, TotalsHold, IdsHold, LastN, Times;
      hide Matching, Matches, Page;
      RingCap(logs, logsStart, history, maxHistory);
      result, count := [], 0;
      ghost var newestFirst := Reverse(LastN(history, maxHistory));
      ghost var seen: seq<LogEntry> := [];
      MatchingNone(newestFirst, searchLower, offset, limit);
      var i := |logs|;
      while i > 0
        invariant 0 <= i <= |logs|
        invariant seen == Matching(newestFirst[..|logs| - i], searchLower)
        invariant count == |seen| && result == Page(seen, offset, limit)
      {
        i := i - 1;
        var entry := LogAt(i);
        MatchingSnoc(newestFirst, |logs| - i - 1, searchLower);
        if !Matches(entry, searchLower) {
          continue;
        }
        PageSnoc(seen, entry, offset, limit);
        if count >= offset && |result| < limit {
          result := result + [entry];
        }
        count := count + 1;
        seen := seen + [entry];
      }
      assert newestFirst[..|logs|] == newestFirst;
    }
  }

  // ---------------------------------------------------------------- whole runs

  datatype Event = Logged(entry: LogEntry, now: int) | Cleared

  function LoggedCount(events: seq<Event>): nat
    decreases |events|
  {
    if events == [] then 0
    else LoggedCount(events[..|events| - 1]) + (if events[|events| - 1].Logged? then 1 else 0)
  }

  /** The entries logged since the last Clear; IDs number all logged entries from 1. */
  function SinceClear(events: seq<Event>): seq<LogEntry>
    decreases |events|
  {
    if events == [] then []
    else
      var before := events[..|events| - 1];
      match events[|events| - 1]
      case Cleared => []
      case Logged(entry, now) => SinceClear(before) + [Stamped(entry, LoggedCount(before) + 1, now)]
  }

  lemma EventSnoc(events: seq<Event>, i: nat)
    requires i < |events|
    ensures LoggedCount(events[..i + 1]) == LoggedCount(events[..i]) + (if events[i].Logged? then 1 else 0)
    ensures SinceClear(events[..i + 1]) ==
            if events[i].Cleared? then []
            else SinceClear(events[..i]) + [Stamped(events[i].entry, LoggedCount(events[..i]) + 1, events[i].now)]
  {
    assert events[..i + 1][..i] == events[..i];
  }

  /** Any run of AddLog and Clear on an in-memory logger: the view is the last `maxHistory`
      entries since the last Clear, newest first; the counters are their exact tallies; the
      total counts the whole run; and window upkeep cost at most one copy and one advance a call. */
  method Replay(maxHistory: int, codec: Codec, events: seq<Event>)
    returns (newestFirst: seq<LogEntry>, clients: map<string, int>, domains: map<string, int>, total: int,
             ghost moved: nat, ghost advanced: nat)
    ensures
      var window := LastN(SinceClear(events), if maxHistory <= 0 then 5000 else maxHistory);
      && newestFirst == Reverse(window)
      && clients == Counts(Keys(Client, window))
      && domains == Counts(Keys(Domain, window))
    ensures total == LoggedCount(events)
    ensures moved <= LoggedCount(events) && advanced <= LoggedCount(events)
  {
    var l := new QueryLogger.Empty(true, maxHistory, 1, false, codec, None);
    hide RingHolds, WindowHolds, DropsExact, IdsHold, LastN, Times, CostHolds, HeadFresh, SinceClear, LoggedCount;
    StartOfRun(events);
    for i := 0 to |events|
      invariant fresh(l) && l.Valid() && l.enabled && !l.persist && !l.closed
      invariant l.history == SinceClear(events[..i])
      invariant |l.lifetime| == l.calls == LoggedCount(events[..i]) == l.nextID - 1
    {
      EventSnoc(events, i);
      match events[i] {
        case Cleared => l.Clear();
        case Logged(entry, now) => l.AddLog(entry, now);
      }
    }
    assert events[..|events|] == events;
    RingCap(l.logs, l.logsStart, l.history, l.maxHistory);
    var all;
    newestFirst, all := l.GetLogs(0, |l.logs|, "");
    WholePage(Reverse(LastN(l.history, l.maxHistory)));
    clients, domains, total := l.topClients, l.topDomains, l.totalQueries;
    CostBefore(l.recentLogs, l.recentStart, Times(l.history), l.calls, l.moved, l.advanced);
    moved, advanced := l.moved, l.advanced;
  }

  lemma StartOfRun(events: seq<Event>)
    ensures SinceClear(events[..0]) == [] && LoggedCount(events[..0]) == 0
  {
  }

  lemma WholePage<T>(s: seq<T>)
    ensures Page(s, 0, |s|) == s
  {
  }

  /** Asking for one page after another, up to the total, gives the whole view: no entry of the
      ring or of the file is lost or repeated, also across the wrap point. For an unsearched file
      view the cached count has to be exact for the total to end the walk. */
  method WalkPages(l: QueryLogger, limit: nat, search: string) returns (glued: seq<LogEntry>)
    requires l.RingValid() && l.enabled && limit > 0
    requires l.persist && l.content.Some? && search == "" ==> l.persistedLogCount == |l.View(search)|
    ensures glued == l.View(search)
  {
    hide Page, Pages, Visited, RingHolds, LastN, NewestFirst, Matching, Matches;
    ghost var all := l.View(search);
    var page, total := l.GetLogs(0, limit, search);
    glued := [];
    var offset := 0;
    PagesCover(all, 0, limit);
    assert all[0..] == all;
    ConcatHead([], Pages(all, 0, limit));
    while offset < total
      invariant 0 <= offset && total == |all|
      invariant Pages(all, 0, limit) == glued + Pages(all, offset, limit)
      decreases total - offset
    {
      page, total := l.GetLogs(offset, limit, search);
      assert page == Page(all, offset, limit);
      PagesStep(all, offset, limit);
      ConcatAssociative(glued, page, Pages(all, offset + limit, limit));
      glued := glued + page;
      offset := offset + limit;
    }
    PagesStep(all, offset, limit);
    assert glued + [] == glued;
  }

  /** A searched view is the entries of the unsearched view that show the text in some field, in
      their order. */
  lemma SearchedView(l: QueryLogger, search: string)
    ensures l.View(search) == Filter(e => Shows(e, search), l.View(""))
  {
    var shows := e => Shows(e, search);
    forall e
      ensures Matches(e, ToLower(search)) <==> Shows(e, search)
      ensures Matches(e, ToLower(""))
    {
      MatchesIff(e, search);
    }
    hide Matches, Shows, ToLower, HasPart;
    if l.persist && l.content.Some? {
      var lines := Reverse(NonEmptyLines(l.content.value));
      PickFilter(l.codec.unmarshal, (e: LogEntry) => Matches(e, ToLower(search)), lines);
      PickFilter(l.codec.unmarshal, (e: LogEntry) => Matches(e, ToLower("")), lines);
      var found := Pick(l.codec.unmarshal, Anything, lines);
      FilterSame((e: LogEntry) => Matches(e, ToLower(search)), shows, found);
      KeepsAll((e: LogEntry) => Matches(e, ToLower("")), found);
    } else if search == "" {
      KeepsAll(shows, l.View(""));
    } else {
      MatchingIs(l.View(""), ToLower(search), shows);
    }
  }

  lemma {:induction false} FilterSame(p: LogEntry -> bool, q: LogEntry -> bool, es: seq<LogEntry>)
    requires forall e :: p(e) <==> q(e)
    ensures Filter(p, es) == Filter(q, es)
  {
    if es != [] {
      FilterSame(p, q, es[1..]);
    }
  }

  lemma {:induction false} MatchingIs(es: seq<LogEntry>, searchLower: string, shows: LogEntry -> bool)
    requires forall e :: Matches(e, searchLower) <==> shows(e)
    ensures Matching(es, searchLower) == Filter(shows, es)
    decreases |es|
  {
    if es != [] {
      var init, last := es[..|es| - 1], es[|es| - 1];
      MatchingIs(init, searchLower, shows);
      assert es == init + [last];
      FilterConcat(shows, init, [last]);
      assert [last][1..] == [];
      hide Matches;
    }
  }

  // ---------------------------------------------------------------- persisted runs

  /** No record ends in a carriage return, which the line scanner would take for a line end. */
  ghost predicate PlainEnds(marshal: LogEntry -> Record) {
    forall e :: DropCR(marshal(e)) == marshal(e)
  }

  lemma TokensOfEncode(rs: seq<Record>)
    requires forall i :: 0 <= i < |rs| ==> IsRecord(rs[i]) && DropCR(rs[i]) == rs[i]
    ensures Tokens(Encode(rs)) == rs
  {
    assert LinesClean(rs);
    SplitEncode(rs);
    hide Split, Encode, IsRecord;
    TokensOfClosed(rs);
  }

  /** Lines that end in a carriage return and a newline give the same tokens. */
  lemma TokensOfReturns(rs: seq<Record>)
    requires LinesClean(rs)
    ensures Tokens(Encode(Returned(rs))) == rs
  {
    SplitEncode(Returned(rs));
    hide Split, Encode;
    var parts := Returned(rs) + [[]];
    assert parts[|rs|] == [] && parts[..|rs|] == Returned(rs);
    forall i | 0 <= i < |rs|
      ensures DropCR(Returned(rs)[i]) == rs[i]
    {
      assert (rs[i] + [13])[..|rs[i]|] == rs[i];
    }
  }

  function Returned(rs: seq<Record>): (r: seq<Record>)
    ensures |r| == |rs| && forall i :: 0 <= i < |rs| ==> r[i] == rs[i] + [13]
  {
    seq(|rs|, i requires 0 <= i < |rs| => rs[i] + [13])
  }

  lemma TokensOfClosed(parts: seq<seq<byte>>)
    requires forall i :: 0 <= i < |parts| ==> DropCR(parts[i]) == parts[i]
    ensures TokensOf(parts + [[]]) == parts
  {
    hide DropCR;
    assert (parts + [[]])[|parts|] == [] && (parts + [[]])[..|parts|] == parts;
  }

  lemma {:induction false} DecodedMarshalled(codec: Codec, es: seq<LogEntry>)
    requires Faithful(codec.marshal, codec.unmarshal)
    ensures DecodedTokens(codec.unmarshal, Marshalled(codec.marshal, es)) == es
  {
    if es != [] {
      var init, last := es[..|es| - 1], es[|es| - 1];
      DecodedMarshalled(codec, init);
      assert Marshalled(codec.marshal, es)[..|es| - 1] == Marshalled(codec.marshal, init);
      assert es == init + [last];
    }
  }

  /** A file of these entries reads back as them, for the restoring scanner and for the viewer. */
  lemma FileOfEntries(codec: Codec, es: seq<LogEntry>)
    requires Faithful(codec.marshal, codec.unmarshal) && PlainEnds(codec.marshal)
    ensures var file := Encode(Marshalled(codec.marshal, es));
            && Terminated(file) && Newlines(file) == |es|
            && DecodedTokens(codec.unmarshal, Tokens(file)) == es
            && NewestFirst(codec.unmarshal, (x: LogEntry) => Matches(x, ToLower("")), file) == Reverse(es)
  {
    var rs := Marshalled(codec.marshal, es);
    assert forall i :: 0 <= i < |rs| ==> IsRecord(rs[i]);
    assert LinesClean(rs);
    LinesOfEncode(rs);
    TokensOfEncode(rs);
    DecodedMarshalled(codec, es);
    var keep := (x: LogEntry) => Matches(x, ToLower(""));
    NewestFirstOfEncoded(codec.marshal, codec.unmarshal, keep, es);
    KeepsAll(keep, Reverse(es));
  }

  lemma {:induction false} KeepsAll(keep: LogEntry -> bool, es: seq<LogEntry>)
    requires forall e :: keep(e)
    ensures Filter(keep, es) == es
  {
    if es != [] {
      KeepsAll(keep, es[1..]);
    }
  }

  /** A logger on a file of entries, any AddLog calls, then Close. `order` is the order in which the
      logged entries reached the file: those that found the queue full came first. */
  method LogAndClose(maxHistory: int, maxSizeMB: int, codec: Codec, earlier: seq<LogEntry>,
                     calls: seq<(LogEntry, int)>)
      returns (l: QueryLogger, ghost order: seq<LogEntry>)
    ensures fresh(l) && l.Valid() && l.enabled && l.persist && l.closed && l.codec == codec && l.fileQueue == []
    ensures |l.history| == |calls| && multiset(order) == multiset(l.history)
    ensures forall i :: 0 <= i < |calls| ==>
              l.history[i] == Stamped(calls[i].0, l.nextID - |calls| + i, calls[i].1)
    ensures PlainEnds(codec.marshal) && Faithful(codec.marshal, codec.unmarshal) ==>
              var start := FileState(Some(Encode(Marshalled(codec.marshal, earlier))), |earlier|);
              l.File() == AppendAll(start, Marshalled(codec.marshal, order), LimitBytes(l.maxSizeMB))
  {
    hide RingHolds, CounterHolds, WindowHolds, DropsExact, TotalsHold, IdsHold, LastN, Times, CostHolds, HeadFresh,
      AppendAll, AppendRecord, Tokens, DecodedTokens, Terminated, Newlines, Encode, Faithful, PlainEnds, SunkAs;
    l := QueryLogger.NewQueryLogger(true, maxHistory, maxSizeMB, true, codec,
                                    Some(Encode(Marshalled(codec.marshal, earlier))));
    ghost var start := l.File();
    if PlainEnds(codec.marshal) && Faithful(codec.marshal, codec.unmarshal) {
      FileOfEntries(codec, earlier);
    }
    assert SunkAs(l, start, []) by { NothingSunk(l); }
    ghost var direct := LogAll(l, calls, start);
    order := CloseAs(l, start, direct);
  }

  lemma NothingSunk(l: QueryLogger)
    requires l.fileQueue == [] && l.history == []
    ensures SunkAs(l, l.File(), [])
  {
    NothingAppended(l.codec.marshal, l.File(), LimitBytes(l.maxSizeMB));
  }

  method LogAll(l: QueryLogger, calls: seq<(LogEntry, int)>, ghost start: FileState)
      returns (ghost direct: seq<LogEntry>)
    requires l.Valid() && l.enabled && l.persist && !l.closed && l.history == [] && SunkAs(l, start, [])
    modifies l
    ensures l.Valid() && !l.closed && SunkAs(l, start, direct)
    ensures |l.history| == |calls| && l.nextID == old(l.nextID) + |calls|
    ensures forall i :: 0 <= i < |calls| ==> l.history[i] == Stamped(calls[i].0, old(l.nextID) + i, calls[i].1)
  {
    hide RingHolds, CounterHolds, WindowHolds, DropsExact, TotalsHold, IdsHold, LastN, Times, CostHolds, HeadFresh,
      SunkAs;
    direct := [];
    for i := 0 to |calls|
      invariant l.Valid() && !l.closed && SunkAs(l, start, direct)
      invariant |l.history| == i && l.nextID == old(l.nextID) + i
      invariant forall j :: 0 <= j < i ==> l.history[j] == Stamped(calls[j].0, old(l.nextID) + j, calls[j].1)
    {
      direct := LogOne(l, calls[i].0, calls[i].1, start, direct);
    }
  }

  method CloseAs(l: QueryLogger, ghost start: FileState, ghost direct: seq<LogEntry>)
      returns (ghost order: seq<LogEntry>)
    requires l.Valid() && !l.closed && SunkAs(l, start, direct)
    modifies l
    ensures l.Valid() && l.closed && l.fileQueue == [] && l.history == old(l.history) && l.nextID == old(l.nextID)
    ensures multiset(order) == multiset(l.history)
    ensures l.File() == AppendAll(start, Marshalled(l.codec.marshal, order), LimitBytes(l.maxSizeMB))
  {
    hide RingHolds, CounterHolds, WindowHolds, DropsExact, TotalsHold, IdsHold, LastN, Times, CostHolds, HeadFresh,
      AppendAll, AppendRecord;
    var marshal := l.codec.marshal;
    order := direct + l.fileQueue;
    assert Marshalled(marshal, order) == Marshalled(marshal, direct) + Marshalled(marshal, l.fileQueue);
    AppendAllConcat(start, Marshalled(marshal, direct), Marshalled(marshal, l.fileQueue), LimitBytes(l.maxSizeMB));
    l.Close();
  }

  /** What was logged is in the queue, or was appended directly. */
  ghost predicate SunkAs(l: QueryLogger, start: FileState, direct: seq<LogEntry>)
    reads l
  {
    && multiset(direct) + multiset(l.fileQueue) == multiset(l.history)
    && l.File() == AppendAll(start, Marshalled(l.codec.marshal, direct), LimitBytes(l.maxSizeMB))
  }

  method LogOne(l: QueryLogger, entry: LogEntry, now: int, ghost start: FileState, ghost direct: seq<LogEntry>)
      returns (ghost direct': seq<LogEntry>)
    requires l.Valid() && l.enabled && l.persist && !l.closed && SunkAs(l, start, direct)
    modifies l
    ensures l.Valid() && !l.closed && SunkAs(l, start, direct')
    ensures l.nextID == old(l.nextID) + 1 && l.history == old(l.history) + [Stamped(entry, old(l.nextID), now)]
  {
    hide RingHolds, CounterHolds, WindowHolds, DropsExact, TotalsHold, IdsHold, LastN, Times, CostHolds, HeadFresh,
      AppendAll, AppendRecord;
    direct' := direct;
    ghost var queue, e := l.fileQueue, Stamped(entry, l.nextID, now);
    l.AddLog(entry, now);
    if l.fileQueue == queue {
      OneMoreAppended(l.codec.marshal, start, direct, e, LimitBytes(l.maxSizeMB));
      direct' := direct + [e];
    }
  }

  lemma NothingAppended(marshal: LogEntry -> Record, f: FileState, limit: nat)
    ensures AppendAll(f, Marshalled(marshal, []), limit) == f
  {
  }

  lemma OneMoreAppended(marshal: LogEntry -> Record, f: FileState, es: seq<LogEntry>, e: LogEntry, limit: nat)
    ensures AppendAll(f, Marshalled(marshal, es + [e]), limit) ==
            AppendRecord(AppendAll(f, Marshalled(marshal, es), limit), marshal(e), limit)
  {
    assert Marshalled(marshal, es + [e]) == Marshalled(marshal, es) + [marshal(e)];
    AppendAllSnoc(f, Marshalled(marshal, es), marshal(e), limit);
  }

  /** After such a run, with records of at most 1024 bytes: the closed logger shows the newest of the
      earlier and the logged entries, newest in the file first, with an exact count; and a new logger
      on the file restores exactly those, as totals and with a next ID above all of theirs. */
  method RestartAfterRun(l: QueryLogger, maxHistory: int, maxSizeMB: int, ghost earlier: seq<LogEntry>,
                         ghost order: seq<LogEntry>)
      returns (view: seq<LogEntry>, again: QueryLogger, ghost k: nat)
    requires l.Valid() && l.enabled && l.persist
    requires Faithful(l.codec.marshal, l.codec.unmarshal) && PlainEnds(l.codec.marshal)
    requires forall i :: 0 <= i < |earlier + order| ==> |l.codec.marshal((earlier + order)[i])| <= PROBE_SIZE
    requires var start := FileState(Some(Encode(Marshalled(l.codec.marshal, earlier))), |earlier|);
             l.File() == AppendAll(start, Marshalled(l.codec.marshal, order), LimitBytes(l.maxSizeMB))
    ensures k <= |earlier + order|
    ensures EncodedSize(Marshalled(l.codec.marshal, earlier + order)) <= l.maxSizeMB * 1_048_576 ==> k == 0
    ensures view == Reverse((earlier + order)[k..]) && l.persistedLogCount == |view|
    ensures fresh(again) && again.Valid() && again.lifetime == (earlier + order)[k..]
    ensures again.persistedLogCount == again.totalQueries == |view|
    ensures forall i :: 0 <= i < |again.lifetime| ==> again.lifetime[i].id < again.nextID
  {
    hide RingHolds, CounterHolds, WindowHolds, DropsExact, LastN, Times, CostHolds, HeadFresh,
      AppendAll, AppendRecord, Tokens, DecodedTokens, Terminated, Newlines, Encode, NewestFirst, Matches, Page, Visited,
      Faithful, PlainEnds, CountRegion;
    k := FileAfterRun(l.codec, l.File(), earlier, order, LimitBytes(l.maxSizeMB));
    ghost var left := (earlier + order)[k..];
    FileOfEntries(l.codec, left);
    var total;
    view, total := l.GetLogs(0, l.persistedLogCount, "");
    WholePage(Reverse(left));
    again := QueryLogger.NewQueryLogger(true, maxHistory, maxSizeMB, true, l.codec, l.content);
  }

  lemma FileAfterRun(codec: Codec, f: FileState, earlier: seq<LogEntry>, order: seq<LogEntry>, limit: nat)
      returns (k: nat)
    requires Faithful(codec.marshal, codec.unmarshal)
    requires forall i :: 0 <= i < |earlier + order| ==> |codec.marshal((earlier + order)[i])| <= PROBE_SIZE
    requires var start := FileState(Some(Encode(Marshalled(codec.marshal, earlier))), |earlier|);
             f == AppendAll(start, Marshalled(codec.marshal, order), limit)
    ensures k <= |earlier + order|
    ensures var left := (earlier + order)[k..]; f == FileState(Some(Encode(Marshalled(codec.marshal, left))), |left|)
    ensures EncodedSize(Marshalled(codec.marshal, earlier + order)) <= limit ==> k == 0
  {
    hide AppendAll, Encode, Faithful;
    var marshal := codec.marshal;
    MarshalledJoin(marshal, earlier, order);
    if order == [] {
      NothingAppended(marshal, f, limit);
      NothingAppended(marshal, FileState(Some(Encode(Marshalled(marshal, earlier))), |earlier|), limit);
      assert earlier + order == earlier && earlier[0..] == earlier;
      k := 0;
    } else {
      MarshalledFit(codec, earlier + order);
      var start := FileState(Some(Encode(Marshalled(marshal, earlier))), |earlier|);
      k := RunKeepsNewestRecords(start, Marshalled(marshal, earlier), Marshalled(marshal, order), limit);
      assert Marshalled(marshal, earlier + order)[k..] == Marshalled(marshal, (earlier + order)[k..]);
    }
  }

  lemma MarshalledJoin(marshal: LogEntry -> Record, a: seq<LogEntry>, b: seq<LogEntry>)
    ensures Marshalled(marshal, a + b) == Marshalled(marshal, a) + Marshalled(marshal, b)
  {
  }

  lemma MarshalledFit(codec: Codec, es: seq<LogEntry>)
    requires Faithful(codec.marshal, codec.unmarshal)
    requires forall i :: 0 <= i < |es| ==> |codec.marshal(es[i])| <= PROBE_SIZE
    ensures LinesClean(Marshalled(codec.marshal, es)) && LinesFit(Marshalled(codec.marshal, es))
  {
    var rs := Marshalled(codec.marshal, es);
    assert forall i :: 0 <= i < |rs| ==> IsRecord(rs[i]);
  }

  // ---------------------------------------------------------------- inputs that show the limits

  /** A logger whose clock stepped back by ten seconds: one of its two queries is inside the
      window, and the rate is zero. */
  method ClockSteppedBack(entry: LogEntry, codec: Codec) returns (l: QueryLogger, qps: real)
    ensures fresh(l) && l.Valid() && Times(l.history) == [15_000_000_000, 5_000_000_000]
    ensures qps == 0.0 && CountSince(Times(l.history), 20_000_000_000 - QPS_WINDOW) == 1
  {
    hide RingHolds, CounterHolds, WindowHolds, DropsExact, TotalsHold, IdsHold, LastN, Times, CostHolds, HeadFresh;
    l := new QueryLogger.Empty(true, 100, 1, false, codec, None);
    l.AddLog(entry.(time := 15_000_000_000), 15_000_000_000);
    l.AddLog(entry.(time := 5_000_000_000), 5_000_000_000);
    ghost var first, second := l.history[0], l.history[1];
    assert l.history == [first] + [second];
    assert Times(l.history) == [15_000_000_000, 5_000_000_000] by { TimesOfTwo(first, second); }
    CountTwo(15_000_000_000, 5_000_000_000, 20_000_000_000 - QPS_WINDOW);
    NoneDropped(15_000_000_000, 5_000_000_000);
    qps := l.CurrentQPS(20_000_000_000);
  }

  lemma TimesOfTwo(e: LogEntry, f: LogEntry)
    ensures Times([e] + [f]) == [e.time, f.time]
  {
    assert Times([]) == [];
    hide Times;
    TimesSnoc([], e);
    assert [] + [e] == [e];
    TimesSnoc([e], f);
  }

  /** A logger asked with a clock behind its newest entry: its two queries, recorded in order, are
      both inside the window, but the first was dropped for the second, and the rate is that of one. */
  method ClockBehindRecords(entry: LogEntry, codec: Codec) returns (l: QueryLogger, qps: real)
    ensures fresh(l) && l.Valid() && Times(l.history) == [15_000_000_000, 30_000_000_000]
    ensures qps == 0.1 && CountSince(Times(l.history), 20_000_000_000 - QPS_WINDOW) == 2
  {
    hide RingHolds, CounterHolds, WindowHolds, DropsExact, TotalsHold, IdsHold, LastN, Times, CostHolds, HeadFresh,
      Dropped, FreshSuffix, CountSince;
    l := new QueryLogger.Empty(true, 100, 1, false, codec, None);
    l.AddLog(entry.(time := 15_000_000_000), 15_000_000_000);
    l.AddLog(entry.(time := 30_000_000_000), 30_000_000_000);
    ghost var first, second := l.history[0], l.history[1];
    assert l.history == [first] + [second];
    TimesOfTwo(first, second);
    OneDropped(15_000_000_000, 30_000_000_000, 20_000_000_000 - QPS_WINDOW);
    qps := l.CurrentQPS(20_000_000_000);
  }

  lemma OneDropped(t: int, u: int, cutoff: int)
    requires cutoff <= t < u - QPS_WINDOW
    ensures Dropped([t, u]) == 1 && FreshSuffix([t, u][1..], cutoff) == 1 && CountSince([t, u], cutoff) == 2
  {
    DroppedOfTwo(t, u);
    CountTwo(t, u, cutoff);
    hide CountSince, FreshSuffix, Dropped;
    assert [t, u][1..] == [u];
  }

  lemma NoneDropped(t: int, u: int)
    requires t >= u - QPS_WINDOW
    ensures Dropped([t, u]) == 0 && [t, u][0..] == [t, u]
  {
    DroppedOfTwo(t, u);
  }

  lemma DroppedOfTwo(t: int, u: int)
    ensures Dropped([t, u]) == if t < u - QPS_WINDOW then 1 else 0
  {
    var ts := [t, u];
    assert ts[..1] == [t];
    assert Dropped([t]) < 1;
    var i := FirstSince(ts, 0, u - QPS_WINDOW);
    assert Dropped(ts) == i;
    assert ts[0] == t && ts[1] == u;
  }

  /** A file of two entries and the page at offset -1 of size 2: the scan stops after one entry,
      and the older one is missing. */
  method NegativeOffset(e: LogEntry, f: LogEntry, codec: Codec) returns (result: seq<LogEntry>, full: seq<LogEntry>)
    requires Faithful(codec.marshal, codec.unmarshal)
    ensures result == [f] && full == [f, e]
  {
    hide NewestFirst, Matches, Visited, Page, Encode, Terminated, Newlines, Faithful, RingHolds, WindowHolds,
      DropsExact, LastN, CounterHolds, TotalsHold, IdsHold, Times, CostHolds, HeadFresh, Tokens, DecodedTokens;
    var file := Encode(Marshalled(codec.marshal, [e, f]));
    TwoEntries(codec, e, f);
    var l := QueryLogger.NewQueryLogger(true, 100, 1, true, codec, Some(file));
    assert l.FileView("") == [f, e];
    var total;
    result, total := l.GetLogs(-1, 2, "");
    full, total := l.GetLogs(0, 2, "");
    PagesOfTwo(e, f);
  }

  lemma PagesOfTwo(e: LogEntry, f: LogEntry)
    ensures Page(Visited([f, e], 1, 2, true), -1, 2) == [f]
    ensures Page([f, e], 0, 2) == [f, e]
  {
    assert [f, e][..1] == [f];
  }

  lemma TwoEntries(codec: Codec, e: LogEntry, f: LogEntry)
    requires Faithful(codec.marshal, codec.unmarshal)
    ensures var file := Encode(Marshalled(codec.marshal, [e, f]));
            && Terminated(file) && Newlines(file) == 2
            && NewestFirst(codec.unmarshal, (x: LogEntry) => Matches(x, ToLower("")), file) == [f, e]
  {
    var keep := (x: LogEntry) => Matches(x, ToLower(""));
    var rs := Marshalled(codec.marshal, [e, f]);
    assert forall i :: 0 <= i < |rs| ==> IsRecord(rs[i]);
    LinesOfEncode(rs);
    NewestFirstOfEncoded(codec.marshal, codec.unmarshal, keep, [e, f]);
    assert Reverse([e, f]) == [f, e];
    assert [f, e][1..] == [e] && [e][1..] == [];
    assert keep(e) && keep(f);
  }
}
