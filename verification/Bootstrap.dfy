/** LookupIP and lookupOnce as a step machine: any number of callers and hosts, a goroutine
    per flight, a clock that never goes back, and steps at every map, channel and clock
    operation. Addresses that are literals return at once and are not part of the machine. */
module Bootstrap {
  import opened Options
  import Runs
  import Sets

  type Host = int
  type IP = int
  type Error = int
  type CallerId = int
  type FlightId = int

  datatype Answer = Ok(ip: IP) | Err(error: Error)

  /** `stored` is the clock when the expiry was computed. */
  datatype Entry = Entry(ip: IP, stored: int, expiry: int)

  /** The goroutine of a flight: resolving, resolved, entry built, cache stored (or skipped on
      error), done closed, pending deleted. */
  datatype Progress = Resolving | Resolved | Built(entry: Entry) | Stored | Closed | Finished

  /** `result` is meaningful once resolved. */
  datatype Flight = Flight(host: Host, progress: Progress, result: Answer)

  datatype Source =
    | Cache(entry: Entry, at: int)
    | FromFlight(flight: FlightId)
    | Stale(entry: Entry, at: int, cause: Cause)

  /** Why a lookup gave up: its flight failed or its context ended. */
  datatype Cause = FlightFailed(flight: FlightId) | Cancelled

  /** A LookupIP call. `stale` is the expired entry it saw at the start. */
  datatype Caller =
    | Called
    | Loaded(entry: Option<Entry>)
    | Missed(stale: Option<Entry>)
    | Waiting(stale: Option<Entry>, flight: FlightId)
    | Failing(stale: Option<Entry>, error: Error, cause: Cause)
    | Deleting(stale: Option<Entry>, error: Error, cause: Cause, at: int)
    | Returned(ip: IP, source: Source)
    | ReturnedError(error: Error, stale: Option<Entry>, cause: Cause, at: int)

  /** `answers` records every address a resolve returned, with its host. */
  datatype State = State(
    cacheTTL: nat, staleTTL: nat, now: int,
    cache: map<Host, Entry>, pending: map<Host, FlightId>,
    flights: map<FlightId, Flight>, callers: map<CallerId, (Host, Caller)>,
    answers: set<(Host, IP)>)

  datatype Step =
    | Tick(to: int)
    | Call(c: CallerId, host: Host)
    | Load(c: CallerId)
    | CheckFresh(c: CallerId)
    | Join(c: CallerId, newId: FlightId)
    | Wake(c: CallerId)
    | Cancel(c: CallerId, error: Error)
    | Fallback(c: CallerId)
    | Delete(c: CallerId)
    | Resolve(f: FlightId, answer: Answer)
    | Build(f: FlightId)
    | Store(f: FlightId)
    | CloseDone(f: FlightId)
    | DeletePending(f: FlightId)

  function Init(cacheTTL: nat, staleTTL: nat): State {
    State(cacheTTL, staleTTL, 0, map[], map[], map[], map[], {})
  }

  predicate Done(f: Flight) {
    f.progress == Closed || f.progress == Finished
  }

  predicate Enabled(s: State, step: Step) {
    match step
    case Tick(to) => s.now <= to
    case Call(c, _) => c !in s.callers
    case Load(c) => c in s.callers && s.callers[c].1.Called?
    case CheckFresh(c) => c in s.callers && s.callers[c].1.Loaded?
    case Join(c, newId) => c in s.callers && s.callers[c].1.Missed? && newId !in s.flights
    case Wake(c) =>
      c in s.callers && s.callers[c].1.Waiting? && s.callers[c].1.flight in s.flights &&
          Done(s.flights[s.callers[c].1.flight])
    case Cancel(c, _) => c in s.callers && s.callers[c].1.Waiting?
    case Fallback(c) => c in s.callers && s.callers[c].1.Failing?
    case Delete(c) => c in s.callers && s.callers[c].1.Deleting?
    case Resolve(f, _) => f in s.flights && s.flights[f].progress == Resolving
    case Build(f) => f in s.flights && s.flights[f].progress == Resolved
    case Store(f) => f in s.flights && s.flights[f].progress.Built?
    case CloseDone(f) => f in s.flights && s.flights[f].progress == Stored
    case DeletePending(f) => f in s.flights && s.flights[f].progress == Closed
  }

  function SetCaller(s: State, c: CallerId, p: Caller): State
    requires c in s.callers
  {
    s.(callers := s.callers[c := (s.callers[c].0, p)])
  }

  function SetFlight(s: State, f: FlightId, p: Progress): State
    requires f in s.flights
  {
    s.(flights := s.flights[f := s.flights[f].(progress := p)])
  }

  function Apply(s: State, step: Step): State
    requires Enabled(s, step)
  {
    match step
    case Tick(to) => s.(now := to)
    case Call(c, host) => s.(callers := s.callers[c := (host, Called)])
    case Load(c) =>
      var host := s.callers[c].0;
      SetCaller(s, c, Loaded(if host in s.cache then Some(s.cache[host]) else None))
    case CheckFresh(c) =>
      var entry := s.callers[c].1.entry;
      if entry.Some? && s.now < entry.value.expiry then
        SetCaller(s, c, Returned(entry.value.ip, Cache(entry.value, s.now)))
      else
        SetCaller(s, c, Missed(entry))
    case Join(c, newId) =>
      var host, stale := s.callers[c].0, s.callers[c].1.stale;
      if host in s.pending then
        SetCaller(s, c, Waiting(stale, s.pending[host]))
      else
        SetCaller(s, c, Waiting(stale, newId)).(
          pending := s.pending[host := newId],
          flights := s.flights[newId := Flight(host, Resolving, Err(0))])
    case Wake(c) =>
      var w := s.callers[c].1;
      (match s.flights[w.flight].result
       case Ok(ip) => SetCaller(s, c, Returned(ip, FromFlight(w.flight)))
       case Err(e) => SetCaller(s, c, Failing(w.stale, e, FlightFailed(w.flight))))
    case Cancel(c, error) => SetCaller(s, c, Failing(s.callers[c].1.stale, error, Cancelled))
    case Fallback(c) =>
      var w := s.callers[c].1;
      if w.stale.Some? && s.now < w.stale.value.expiry + s.staleTTL then
        SetCaller(s, c, Returned(w.stale.value.ip, Stale(w.stale.value, s.now, w.cause)))
      else
        SetCaller(s, c, Deleting(w.stale, w.error, w.cause, s.now))
    case Delete(c) =>
      var w := s.callers[c].1;
      SetCaller(s, c, ReturnedError(w.error, w.stale, w.cause, w.at)).(cache := s.cache - {s.callers[c].0})
    case Resolve(f, answer) =>
      var fl := s.flights[f];
      s.(flights := s.flights[f := fl.(progress := Resolved, result := answer)],
         answers := if answer.Ok? then s.answers + {(fl.host, answer.ip)} else s.answers)
    case Build(f) =>
      var fl := s.flights[f];
      SetFlight(s, f, if fl.result.Ok? then Built(Entry(fl.result.ip, s.now, s.now + s.cacheTTL)) else Stored)
    case Store(f) =>
      var fl := s.flights[f];
      SetFlight(s, f, Stored).(cache := s.cache[fl.host := fl.progress.entry])
    case CloseDone(f) => SetFlight(s, f, Closed)
    case DeletePending(f) => SetFlight(s, f, Finished).(pending := s.pending - {s.flights[f].host})
  }

  ghost predicate Next(s: State, step: Step, t: State) {
    Enabled(s, step) && t == Apply(s, step)
  }

  ghost predicate Executes(a: State, steps: seq<Step>, b: State) {
    Runs.Executes(Next, a, steps, b)
  }

  ghost predicate Reachable(s: State) {
    exists cacheTTL, staleTTL, steps :: Executes(Init(cacheTTL, staleTTL), steps, s)
  }

  // ---------------------------------------------------------------- invariants

  /** pending maps a host to exactly the flight that has not yet deleted it. */
  ghost predicate PendingExact(s: State) {
    forall h, f :: h in s.pending && s.pending[h] == f <==>
                   f in s.flights && s.flights[f].host == h && s.flights[f].progress != Finished
  }

  /** A successful answer came from a resolve of the flight's host. */
  ghost predicate FlightsSound(s: State) {
    forall f :: f in s.flights && s.flights[f].progress != Resolving && s.flights[f].result.Ok? ==>
                  (s.flights[f].host, s.flights[f].result.ip) in s.answers
  }

  ghost predicate BuiltSound(s: State) {
    forall f :: f in s.flights && s.flights[f].progress.Built? ==>
                  EntrySound(s, s.flights[f].host, s.flights[f].progress.entry)
  }

  /** An entry's address was resolved for its host, not in the future, and its expiry is fixed. */
  predicate EntrySound(s: State, h: Host, e: Entry) {
    (h, e.ip) in s.answers && e.expiry == e.stored + s.cacheTTL && e.stored <= s.now
  }

  predicate OptionSound(s: State, h: Host, e: Option<Entry>) {
    e.Some? ==> EntrySound(s, h, e.value)
  }

  ghost predicate CacheSound(s: State) {
    forall h :: h in s.cache ==> EntrySound(s, h, s.cache[h])
  }

  /** A failed flight is done, for the caller's host, with the caller's error. */
  predicate CauseSound(s: State, h: Host, cause: Cause, error: Error) {
    match cause
    case Cancelled => true
    case FlightFailed(f) =>
      f in s.flights && Done(s.flights[f]) && s.flights[f].host == h && s.flights[f].result == Err(error)
  }

  /** No usable entry was seen: none, or one whose grace had run out by `at`. */
  predicate NoUsableEntry(s: State, stale: Option<Entry>, at: int) {
    stale.Some? ==> at >= stale.value.expiry + s.staleTTL
  }

  /** What a caller's state says about where its answer comes from. */
  predicate CallerSound(s: State, h: Host, c: Caller) {
    match c
    case Called => true
    case Loaded(e) => OptionSound(s, h, e)
    case Missed(e) => OptionSound(s, h, e)
    case Waiting(e, f) => OptionSound(s, h, e) && f in s.flights && s.flights[f].host == h
    case Failing(e, error, cause) => OptionSound(s, h, e) && CauseSound(s, h, cause, error)
    case Deleting(e, error, cause, at) => at <= s.now && NoUsableEntry(s, e, at) && CauseSound(s, h, cause, error)
    case ReturnedError(error, e, cause, at) => at <= s.now && NoUsableEntry(s, e, at) && CauseSound(s, h, cause, error)
    case Returned(ip, Cache(e, at)) => ip == e.ip && EntrySound(s, h, e) && at < e.stored + s.cacheTTL
    case Returned(ip, FromFlight(f)) =>
      f in s.flights && Done(s.flights[f]) && s.flights[f].host == h && s.flights[f].result == Ok(ip)
    case Returned(ip, Stale(e, at, cause)) =>
      ip == e.ip && EntrySound(s, h, e) && at < e.stored + s.cacheTTL + s.staleTTL &&
      (cause.FlightFailed? ==>
          cause.flight in s.flights && Done(s.flights[cause.flight]) && s.flights[cause.flight].result.Err?)
  }

  ghost predicate CallersSound(s: State) {
    forall c :: c in s.callers ==> CallerSound(s, s.callers[c].0, s.callers[c].1)
  }

  ghost predicate Inv(s: State) {
    PendingExact(s) && FlightsSound(s) && BuiltSound(s) && CacheSound(s) && CallersSound(s)
  }

  /** What no step takes back: time, answers, flights and the results of done flights. */
  ghost predicate Grows(s: State, t: State) {
    && t.cacheTTL == s.cacheTTL && t.staleTTL == s.staleTTL
    && s.now <= t.now && s.answers <= t.answers
    && (forall f :: f in s.flights ==> f in t.flights && t.flights[f].host == s.flights[f].host)
    && (forall f :: f in s.flights && s.flights[f].progress != Resolving ==>
          t.flights[f].progress != Resolving && t.flights[f].result == s.flights[f].result)
    && (forall f :: f in s.flights && Done(s.flights[f]) ==> Done(t.flights[f]))
  }

  lemma StepGrows(s: State, step: Step)
    requires Enabled(s, step)
    ensures Grows(s, Apply(s, step))
  {
  }

  lemma CallerStaysSound(s: State, t: State, h: Host, c: Caller)
    requires Grows(s, t) && CallerSound(s, h, c)
    ensures CallerSound(t, h, c)
  {
  }

  lemma PendingStep(s: State, step: Step)
    requires PendingExact(s) && Enabled(s, step)
    ensures PendingExact(Apply(s, step))
  {
    var t := Apply(s, step);
    forall h, f
      ensures h in t.pending && t.pending[h] == f <==>
              f in t.flights && t.flights[f].host == h && t.flights[f].progress != Finished
    {
      assert h in s.pending && s.pending[h] == f <==>
             f in s.flights && s.flights[f].host == h && s.flights[f].progress != Finished;
    }
  }

  lemma FlightsSoundStep(s: State, step: Step)
    requires FlightsSound(s) && Enabled(s, step)
    ensures FlightsSound(Apply(s, step))
  {
  }

  lemma BuiltSoundStep(s: State, step: Step)
    requires FlightsSound(s) && BuiltSound(s) && Enabled(s, step)
    ensures BuiltSound(Apply(s, step))
  {
    if step.Build? {
      assert s.flights[step.f].result.Ok? ==> (s.flights[step.f].host, s.flights[step.f].result.ip) in s.answers;
    }
  }

  lemma CacheSoundStep(s: State, step: Step)
    requires BuiltSound(s) && CacheSound(s) && Enabled(s, step)
    ensures CacheSound(Apply(s, step))
  {
    if step.Store? {
      assert EntrySound(s, s.flights[step.f].host, s.flights[step.f].progress.entry);
    }
  }

  lemma CallersStep(s: State, step: Step)
    requires Inv(s) && Enabled(s, step)
    ensures CallersSound(Apply(s, step))
  {
    var t := Apply(s, step);
    StepGrows(s, step);
    forall c | c in t.callers
      ensures CallerSound(t, t.callers[c].0, t.callers[c].1)
    {
      if c in s.callers && t.callers[c] == s.callers[c] {
        CallerStaysSound(s, t, s.callers[c].0, s.callers[c].1);
      } else if c in s.callers {
        MovedCallerSound(s, step, c);
      }
    }
  }

  /** The caller a step moves is sound in its new state. */
  lemma MovedCallerSound(s: State, step: Step, c: CallerId)
    requires Inv(s) && Enabled(s, step)
    requires c in s.callers && Apply(s, step).callers[c] != s.callers[c]
    ensures CallerSound(Apply(s, step), s.callers[c].0, Apply(s, step).callers[c].1)
    ensures Apply(s, step).callers[c].0 == s.callers[c].0
  {
    CallerMoved(s, step, c);
    var host := s.callers[c].0;
    assert CallerSound(s, host, s.callers[c].1);
    hide Apply, Enabled, CallerSound;
    match step {
      case Load(_) => LoadSound(s, c);
      case Join(_, newId) =>
        if host in s.pending {
          PendingHost(s, host);
        }
        hide PendingExact, FlightsSound, BuiltSound, CacheSound, CallersSound;
        JoinedSound(s, c, newId);
      case _ =>
        hide PendingExact, FlightsSound, BuiltSound, CacheSound, CallersSound;
        AdvancedSound(s, step, c);
    }
  }

  /** Only its own steps move a caller, and it keeps its host. */
  lemma CallerMoved(s: State, step: Step, c: CallerId)
    requires Enabled(s, step) && c in s.callers && Apply(s, step).callers[c] != s.callers[c]
    ensures step.Load? || step.CheckFresh? || step.Join? || step.Wake? || step.Cancel? || step.Fallback? || step.Delete?
    ensures step.c == c && Apply(s, step).callers[c].0 == s.callers[c].0
  {
  }

  lemma LoadSound(s: State, c: CallerId)
    requires CacheSound(s) && Enabled(s, Load(c))
    ensures CallerSound(Apply(s, Load(c)), s.callers[c].0, Apply(s, Load(c)).callers[c].1)
  {
    var host := s.callers[c].0;
    assert host in s.cache ==> EntrySound(s, host, s.cache[host]);
  }

  lemma PendingHost(s: State, host: Host)
    requires PendingExact(s) && host in s.pending
    ensures s.pending[host] in s.flights && s.flights[s.pending[host]].host == host
  {
    var f := s.pending[host];
    assert host in s.pending && s.pending[host] == f <==>
           f in s.flights && s.flights[f].host == host && s.flights[f].progress != Finished;
  }

  lemma JoinedSound(s: State, c: CallerId, newId: FlightId)
    requires Enabled(s, Join(c, newId)) && CallerSound(s, s.callers[c].0, s.callers[c].1)
    requires s.callers[c].0 in s.pending ==>
               s.pending[s.callers[c].0] in s.flights && s.flights[s.pending[s.callers[c].0]].host == s.callers[c].0
    ensures CallerSound(Apply(s, Join(c, newId)), s.callers[c].0, Apply(s, Join(c, newId)).callers[c].1)
  {
    var (host, w) := s.callers[c];
    var t := Apply(s, Join(c, newId));
    assert OptionSound(s, host, w.stale);
    assert OptionSound(t, host, w.stale);
    assert t.callers[c].1.Waiting? && t.callers[c].1.stale == w.stale;
  }

  /** Waking takes the answer of the done flight. */
  lemma WokenSound(s: State, c: CallerId)
    requires Enabled(s, Wake(c)) && CallerSound(s, s.callers[c].0, s.callers[c].1)
    ensures CallerSound(Apply(s, Wake(c)), s.callers[c].0, Apply(s, Wake(c)).callers[c].1)
  {
    var (host, w) := s.callers[c];
    var t := Apply(s, Wake(c));
    assert OptionSound(t, host, w.stale);
    assert s.flights[w.flight].host == host;
  }

  /** A failing caller returns its stale entry within grace, or goes on to the delete. */
  lemma FallbackSound(s: State, c: CallerId)
    requires Enabled(s, Fallback(c)) && CallerSound(s, s.callers[c].0, s.callers[c].1)
    ensures CallerSound(Apply(s, Fallback(c)), s.callers[c].0, Apply(s, Fallback(c)).callers[c].1)
  {
    var (host, w) := s.callers[c];
    var t := Apply(s, Fallback(c));
    assert OptionSound(s, host, w.stale) && CauseSound(s, host, w.cause, w.error);
    assert CauseSound(t, host, w.cause, w.error);
  }

  lemma CheckedSound(s: State, c: CallerId)
    requires Enabled(s, CheckFresh(c)) && CallerSound(s, s.callers[c].0, s.callers[c].1)
    ensures CallerSound(Apply(s, CheckFresh(c)), s.callers[c].0, Apply(s, CheckFresh(c)).callers[c].1)
  {
    var (host, w) := s.callers[c];
    assert OptionSound(s, host, w.entry);
    assert OptionSound(Apply(s, CheckFresh(c)), host, w.entry);
  }

  lemma GivenUpSound(s: State, step: Step, c: CallerId)
    requires Enabled(s, step) && (step == Delete(c) || (step.Cancel? && step.c == c))
    requires CallerSound(s, s.callers[c].0, s.callers[c].1)
    ensures CallerSound(Apply(s, step), s.callers[c].0, Apply(s, step).callers[c].1)
  {
  }

  lemma AdvancedSound(s: State, step: Step, c: CallerId)
    requires Enabled(s, step) && !step.Load? && !step.Join?
    requires c in s.callers && Apply(s, step).callers[c] != s.callers[c]
    requires CallerSound(s, s.callers[c].0, s.callers[c].1)
    ensures CallerSound(Apply(s, step), s.callers[c].0, Apply(s, step).callers[c].1)
  {
    hide CallerSound;
    match step {
      case CheckFresh(_) => CheckedSound(s, c);
      case Wake(_) => WokenSound(s, c);
      case Fallback(_) => FallbackSound(s, c);
      case _ => GivenUpSound(s, step, c);
    }
  }

  lemma StepKeepsInv(s: State, step: Step)
    requires Inv(s) && Enabled(s, step)
    ensures Inv(Apply(s, step))
  {
    PendingStep(s, step);
    FlightsSoundStep(s, step);
    BuiltSoundStep(s, step);
    CacheSoundStep(s, step);
    CallersStep(s, step);
  }

  lemma RunKeepsInv(a: State, steps: seq<Step>, b: State)
    requires Inv(a) && Executes(a, steps, b)
    ensures Inv(b)
  {
    hide Inv, Apply, Enabled;
    forall s, step, t | Inv(s) && Next(s, step, t)
      ensures Inv(t)
    {
      StepKeepsInv(s, step);
    }
    Runs.Keeps(Next, Inv, a, steps, b);
  }

  lemma ReachableInv(s: State)
    requires Reachable(s)
    ensures Inv(s)
  {
    var cacheTTL, staleTTL, steps :| Executes(Init(cacheTTL, staleTTL), steps, s);
    RunKeepsInv(Init(cacheTTL, staleTTL), steps, s);
  }

  // ---------------------------------------------------------------- results

  /** At most one resolve per host is running, and it is the pending flight. */
  lemma SingleFlight(s: State, f: FlightId, g: FlightId)
    requires Reachable(s)
    requires f in s.flights && g in s.flights && s.flights[f].host == s.flights[g].host
    requires s.flights[f].progress == Resolving && s.flights[g].progress == Resolving
    ensures f == g && s.flights[f].host in s.pending && s.pending[s.flights[f].host] == f
  {
    ReachableInv(s);
    var h := s.flights[f].host;
    assert h in s.pending && s.pending[h] == f;
    assert h in s.pending && s.pending[h] == g;
  }

  /** The pending delete removes the deleting flight's own entry and nothing else. */
  lemma DeleteRemovesOwnFlight(s: State, f: FlightId)
    requires Reachable(s) && Enabled(s, DeletePending(f))
    ensures
      var t := Apply(s, DeletePending(f));
      && s.flights[f].host in s.pending && s.pending[s.flights[f].host] == f
      && s.flights[f].host !in t.pending
      && forall h :: h in s.pending && s.pending[h] != f ==> h in t.pending && t.pending[h] == s.pending[h]
  {
    ReachableInv(s);
    assert s.flights[f].host in s.pending && s.pending[s.flights[f].host] == f;
  }

  lemma GrowsOn(a: State, s: State, t: State)
    requires Grows(a, s) && Grows(s, t)
    ensures Grows(a, t)
  {
  }

  lemma RunGrows(a: State, steps: seq<Step>, b: State)
    requires Executes(a, steps, b)
    ensures Grows(a, b)
  {
    assert Grows(a, a);
    hide Grows, Apply, Enabled;
    var grown := (s: State) => Grows(a, s);
    forall s, step, t | grown(s) && Next(s, step, t)
      ensures grown(t)
    {
      StepGrows(s, step);
      GrowsOn(a, s, t);
    }
    Runs.Keeps(Next, grown, a, steps, b);
  }

  /** The answer a caller took from its flight, if it took one. */
  function Taken(c: Caller): Option<(FlightId, Answer)> {
    match c
    case Returned(ip, FromFlight(f)) => Some((f, Ok(ip)))
    case Failing(_, error, FlightFailed(f)) => Some((f, Err(error)))
    case Deleting(_, error, FlightFailed(f), _) => Some((f, Err(error)))
    case ReturnedError(error, _, FlightFailed(f), _) => Some((f, Err(error)))
    case _ => None
  }

  /** All callers that took the answer of one flight took the same answer, also at different
      times of one run, whoever was cancelled in between. */
  lemma SameAnswer(a: State, steps: seq<Step>, b: State, c: CallerId, d: CallerId)
    requires Reachable(a) && Executes(a, steps, b)
    requires c in a.callers && d in b.callers
    requires Taken(a.callers[c].1).Some? && Taken(b.callers[d].1).Some?
    requires Taken(a.callers[c].1).value.0 == Taken(b.callers[d].1).value.0
    ensures Taken(a.callers[c].1) == Taken(b.callers[d].1)
  {
    ReachableInv(a);
    RunKeepsInv(a, steps, b);
    RunGrows(a, steps, b);
    assert CallerSound(a, a.callers[c].0, a.callers[c].1);
    assert CallerSound(b, b.callers[d].0, b.callers[d].1);
  }

  /** Provenance and freshness of every address returned for a host. */
  lemma ReturnedAddress(s: State, c: CallerId)
    requires Reachable(s) && c in s.callers && s.callers[c].1.Returned?
    ensures
      var (host, r) := s.callers[c];
      && (host, r.ip) in s.answers
      && (r.source.Cache? ==>
            r.ip == r.source.entry.ip && r.source.at < r.source.entry.stored + s.cacheTTL)
      && (r.source.Stale? ==>
            r.ip == r.source.entry.ip && r.source.at < r.source.entry.stored + s.cacheTTL + s.staleTTL)
      && (r.source.FromFlight? ==> r.source.flight in s.flights && s.flights[r.source.flight].result == Ok(r.ip))
  {
    ReachableInv(s);
    assert CallerSound(s, s.callers[c].0, s.callers[c].1);
    var r := s.callers[c].1;
    if r.source.FromFlight? {
      assert s.flights[r.source.flight].result.Ok?;
    }
  }

  /** An error is returned only when the flight failed with it or the context ended, and the
      entry seen at the start was missing or past its grace. */
  lemma ReturnedErrorReason(s: State, c: CallerId)
    requires Reachable(s) && c in s.callers && s.callers[c].1.ReturnedError?
    ensures
      var r := s.callers[c].1;
      && (r.cause.Cancelled? || (r.cause.flight in s.flights && s.flights[r.cause.flight].result == Err(r.error)))
      && (r.stale == None || r.at >= r.stale.value.expiry + s.staleTTL)
  {
    ReachableInv(s);
    assert CallerSound(s, s.callers[c].0, s.callers[c].1);
  }

  // ---------------------------------------------------------------- a limit of the cache

  lemma InitReachable(cacheTTL: nat, staleTTL: nat)
    ensures Reachable(Init(cacheTTL, staleTTL))
  {
    assert Executes(Init(cacheTTL, staleTTL), [], Init(cacheTTL, staleTTL));
  }

  lemma ReachableStep(s: State, step: Step) returns (t: State)
    requires Reachable(s) && Enabled(s, step)
    ensures t == Apply(s, step) && Reachable(t)
  {
    var cacheTTL, staleTTL, steps :| Executes(Init(cacheTTL, staleTTL), steps, s);
    hide Apply, Enabled;
    Runs.Snoc(Next, Init(cacheTTL, staleTTL), steps, s, step, Apply(s, step));
    assert Executes(Init(cacheTTL, staleTTL), steps + [step], Apply(s, step));
    t := Apply(s, step);
  }

  /** A caller on a missing entry starts a flight. */
  lemma StartLookup(s: State, c: CallerId, host: Host, f: FlightId) returns (t: State)
    requires Reachable(s) && c !in s.callers && f !in s.flights && host !in s.cache && host !in s.pending
    ensures Reachable(t)
    ensures t == s.(callers := s.callers[c := (host, Waiting(None, f))], pending := s.pending[host := f],
                    flights := s.flights[f := Flight(host, Resolving, Err(0))])
  {
    hide Reachable, Executes;
    t := ReachableStep(s, Call(c, host));
    t := ReachableStep(t, Load(c));
    t := ReachableStep(t, CheckFresh(c));
    t := ReachableStep(t, Join(c, f));
    assert t.callers == s.callers[c := (host, Waiting(None, f))];
  }

  /** The state of one caller on host 5 whose flight is at `progress` with result `result`. */
  function OneFlight(pending: map<Host, FlightId>, progress: Progress, result: Answer): State {
    State(10, 0, 0, map[], pending, map[1 := Flight(5, progress, result)], map[1 := (5, Waiting(None, 1))], {})
  }

  lemma OneFlightStarted()
    ensures Reachable(OneFlight(map[5 := 1], Resolving, Err(0)))
  {
    hide Reachable, Executes;
    InitReachable(10, 0);
    var s := StartLookup(Init(10, 0), 1, 5, 1);
    assert s == OneFlight(map[5 := 1], Resolving, Err(0));
  }

  lemma OneFlightResolved()
    ensures Reachable(OneFlight(map[5 := 1], Stored, Err(7)))
  {
    hide Reachable, Executes;
    OneFlightStarted();
    var s := ReachableStep(OneFlight(map[5 := 1], Resolving, Err(0)), Resolve(1, Err(7)));
    assert s == OneFlight(map[5 := 1], Resolved, Err(7));
    s := ReachableStep(s, Build(1));
    assert s == OneFlight(map[5 := 1], Stored, Err(7));
  }

  /** The flight of a caller fails and finishes. */
  lemma FailedFlight()
    ensures Reachable(OneFlight(map[], Finished, Err(7)))
  {
    hide Reachable, Executes;
    OneFlightResolved();
    var s := ReachableStep(OneFlight(map[5 := 1], Stored, Err(7)), CloseDone(1));
    assert s == OneFlight(map[5 := 1], Closed, Err(7));
    s := ReachableStep(s, DeletePending(1));
    assert s.pending == map[];
    assert s == OneFlight(map[], Finished, Err(7));
  }

  /** Its caller then stands before the cache delete. */
  lemma FailedCallerAtDelete() returns (s: State)
    ensures Reachable(s)
    ensures s == State(10, 0, 0, map[], map[], map[1 := Flight(5, Finished, Err(7))],
                       map[1 := (5, Deleting(None, 7, FlightFailed(1), 0))], {})
  {
    hide Reachable, Executes;
    FailedFlight();
    s := ReachableStep(OneFlight(map[], Finished, Err(7)), Wake(1));
    s := ReachableStep(s, Fallback(1));
    assert s.callers == map[1 := (5, Deleting(None, 7, FlightFailed(1), 0))];
  }

  /** A stored entry need not stay until it expires: the delete of a caller that failed earlier
      can remove an entry another flight has just stored. */
  lemma FreshEntryCanVanish()
    ensures exists s, c, h :: Reachable(s) && Enabled(s, Delete(c)) && h in s.cache && s.now < s.cache[h].expiry
                              && h !in Apply(s, Delete(c)).cache
  {
    hide Reachable, Executes;
    var s := FailedCallerAtDelete();
    s := StartLookup(s, 2, 5, 2);
    s := StoresAnswer(s, 5, 2, 9);
    assert s.callers[1].1.Deleting?;
    assert Enabled(s, Delete(1)) && 5 in s.cache && s.now < s.cache[5].expiry && 5 !in Apply(s, Delete(1)).cache;
  }

  // ---------------------------------------------------------------- exactly when an entry can vanish

  /** Only the delete of a failed caller removes a host's entry. */
  lemma LostIff(s: State, step: Step, h: Host)
    requires Enabled(s, step) && h in s.cache
    ensures h !in Apply(s, step).cache <==> step.Delete? && s.callers[step.c].0 == h
  {
  }

  /** `e` is cached for `h` and has not expired. */
  predicate Fresh(s: State, h: Host, e: Entry) {
    h in s.cache && s.cache[h] == e && s.now < e.expiry
  }

  /** A run through which the entry stays in place, unexpired, up to the delete of caller `c`. */
  ghost predicate Vanishes(s: State, steps: seq<Step>, c: CallerId, h: Host, e: Entry)
    decreases |steps|
  {
    && Fresh(s, h, e)
    && if steps == [] then Enabled(s, Delete(c)) && s.callers[c].0 == h
       else Enabled(s, steps[0]) && Vanishes(Apply(s, steps[0]), steps[1..], c, h, e)
  }

  ghost predicate CanVanish(s: State, h: Host, e: Entry) {
    exists steps, c :: Vanishes(s, steps, c, h, e)
  }

  /** What a caller loaded does not save it from the delete until `e` expires. */
  predicate Unsaved(s: State, loaded: Option<Entry>, e: Entry) {
    loaded == None || loaded.value.expiry + s.staleTTL < e.expiry
  }

  /** The caller is past its load, has not returned, and what it loaded does not save it. */
  predicate Threatens(s: State, c: Caller, e: Entry) {
    match c
    case Loaded(entry) => Unsaved(s, entry, e)
    case Missed(stale) => Unsaved(s, stale, e)
    case Waiting(stale, _) => Unsaved(s, stale, e)
    case Failing(stale, _, _) => Unsaved(s, stale, e)
    case Deleting(_, _, _, _) => true
    case _ => false
  }

  ghost predicate Threatened(s: State, h: Host, e: Entry) {
    exists c :: c in s.callers && s.callers[c].0 == h && Threatens(s, s.callers[c].1, e)
  }

  /** No step makes a harmless caller a threat while the entry is in place and fresh: whoever
      loads it returns it. */
  lemma NoNewThreat(s: State, step: Step, h: Host, e: Entry, c: CallerId)
    requires Fresh(s, h, e) && Enabled(s, step)
    requires c in Apply(s, step).callers && Apply(s, step).callers[c].0 == h
    requires Threatens(Apply(s, step), Apply(s, step).callers[c].1, e)
    ensures c in s.callers && s.callers[c].0 == h && Threatens(s, s.callers[c].1, e)
  {
  }

  lemma {:induction false} VanishesThreatened(s: State, steps: seq<Step>, c: CallerId, h: Host, e: Entry)
    requires Vanishes(s, steps, c, h, e)
    ensures c in s.callers && s.callers[c].0 == h && Threatens(s, s.callers[c].1, e)
    decreases |steps|
  {
    if steps != [] {
      VanishesThreatened(Apply(s, steps[0]), steps[1..], c, h, e);
      NoNewThreat(s, steps[0], h, e, c);
    }
  }

  lemma Prepend(s: State, step: Step, rest: seq<Step>, c: CallerId, h: Host, e: Entry) returns (steps: seq<Step>)
    requires Fresh(s, h, e) && Enabled(s, step) && Vanishes(Apply(s, step), rest, c, h, e)
    ensures Vanishes(s, steps, c, h, e)
  {
    steps := [step] + rest;
    assert steps[1..] == rest;
  }

  /** A caller past its grace period goes on to the delete, at the latest when time moves on. */
  lemma FailingVanishes(s: State, c: CallerId, h: Host, e: Entry) returns (steps: seq<Step>)
    requires Fresh(s, h, e) && c in s.callers && s.callers[c].0 == h
    requires s.callers[c].1.Failing? && Threatens(s, s.callers[c].1, e)
    ensures Vanishes(s, steps, c, h, e)
  {
    var stale := s.callers[c].1.stale;
    var late := if stale.Some? && stale.value.expiry + s.staleTTL > s.now
                then stale.value.expiry + s.staleTTL else s.now;
    var t := Apply(s, Tick(late));
    var u := Apply(t, Fallback(c));
    assert Vanishes(u, [], c, h, e);
    hide Vanishes;
    steps := Prepend(t, Fallback(c), [], c, h, e);
    steps := Prepend(s, Tick(late), steps, c, h, e);
  }

  lemma WaitingVanishes(s: State, c: CallerId, h: Host, e: Entry) returns (steps: seq<Step>)
    requires Fresh(s, h, e) && c in s.callers && s.callers[c].0 == h
    requires s.callers[c].1.Waiting? && Threatens(s, s.callers[c].1, e)
    ensures Vanishes(s, steps, c, h, e)
  {
    hide Vanishes;
    steps := FailingVanishes(Apply(s, Cancel(c, 0)), c, h, e);
    steps := Prepend(s, Cancel(c, 0), steps, c, h, e);
  }

  lemma MissedVanishes(s: State, c: CallerId, h: Host, e: Entry) returns (steps: seq<Step>)
    requires Fresh(s, h, e) && c in s.callers && s.callers[c].0 == h
    requires s.callers[c].1.Missed? && Threatens(s, s.callers[c].1, e)
    ensures Vanishes(s, steps, c, h, e)
  {
    hide Vanishes;
    var f := Sets.Above(s.flights.Keys);
    assert f !in s.flights.Keys;
    steps := WaitingVanishes(Apply(s, Join(c, f)), c, h, e);
    steps := Prepend(s, Join(c, f), steps, c, h, e);
  }

  lemma LoadedVanishes(s: State, c: CallerId, h: Host, e: Entry) returns (steps: seq<Step>)
    requires Fresh(s, h, e) && c in s.callers && s.callers[c].0 == h
    requires s.callers[c].1.Loaded? && Threatens(s, s.callers[c].1, e)
    ensures Vanishes(s, steps, c, h, e)
  {
    hide Vanishes;
    var entry := s.callers[c].1.entry;
    var late := if entry.Some? && entry.value.expiry > s.now then entry.value.expiry else s.now;
    var t := Apply(s, Tick(late));
    steps := MissedVanishes(Apply(t, CheckFresh(c)), c, h, e);
    steps := Prepend(t, CheckFresh(c), steps, c, h, e);
    steps := Prepend(s, Tick(late), steps, c, h, e);
  }

  /** An unexpired entry can be removed, in some continuation that leaves it in place until then,
      exactly when some caller of its host is past its load, has not returned, and loaded nothing
      or an entry whose grace period ends before this one expires. Calls that start later are no
      threat. */
  lemma CanVanishIff(s: State, h: Host, e: Entry)
    requires Reachable(s) && Fresh(s, h, e)
    ensures CanVanish(s, h, e) <==> Threatened(s, h, e)
  {
    hide Reachable, Vanishes;
    if CanVanish(s, h, e) {
      var steps, c :| Vanishes(s, steps, c, h, e);
      VanishesThreatened(s, steps, c, h, e);
    }
    if c :| c in s.callers && s.callers[c].0 == h && Threatens(s, s.callers[c].1, e) {
      var steps := ThreatCarriedOut(s, c, h, e);
    }
  }

  lemma ThreatCarriedOut(s: State, c: CallerId, h: Host, e: Entry) returns (steps: seq<Step>)
    requires Reachable(s) && Fresh(s, h, e) && c in s.callers && s.callers[c].0 == h
    requires Threatens(s, s.callers[c].1, e)
    ensures Vanishes(s, steps, c, h, e)
  {
    match s.callers[c].1 {
      case Loaded(_) => steps := LoadedVanishes(s, c, h, e);
      case Missed(_) => steps := MissedVanishes(s, c, h, e);
      case Waiting(_, _) => steps := WaitingVanishes(s, c, h, e);
      case Failing(_, _, _) => steps := FailingVanishes(s, c, h, e);
      case Deleting(_, _, _, _) => steps := [];
    }
  }

  // ---------------------------------------------------------------- the cache is used

  predicate Expired(now: int, e: Option<Entry>) {
    e.Some? ==> e.value.expiry <= now
  }

  /** Whoever goes past the freshness check with an entry found it expired. */
  predicate PastCheck(now: int, c: Caller) {
    match c
    case Missed(e) => Expired(now, e)
    case Waiting(e, _) => Expired(now, e)
    case Failing(e, _, _) => Expired(now, e)
    case Deleting(e, _, _, _) => Expired(now, e)
    case ReturnedError(_, e, _, _) => Expired(now, e)
    case Returned(_, Stale(e, at, _)) => e.expiry <= at <= now
    case Returned(_, Cache(e, at)) => at < e.expiry && at <= now
    case _ => true
  }

  ghost predicate AllPastCheck(s: State) {
    forall c :: c in s.callers ==> PastCheck(s.now, s.callers[c].1)
  }

  lemma PastCheckStep(s: State, step: Step)
    requires AllPastCheck(s) && Enabled(s, step)
    ensures AllPastCheck(Apply(s, step))
  {
  }

  /** In every reachable state: nobody waits on a flight, fails or falls back while the entry it
      loaded is unexpired, and an entry served from the cache was unexpired when it was served. */
  lemma ReachablePastCheck(s: State, c: CallerId)
    requires Reachable(s) && c in s.callers
    ensures PastCheck(s.now, s.callers[c].1)
  {
    var cacheTTL, staleTTL, steps :| Executes(Init(cacheTTL, staleTTL), steps, s);
    assert AllPastCheck(Init(cacheTTL, staleTTL));
    hide Apply, Enabled, AllPastCheck;
    forall a, step, b | AllPastCheck(a) && Next(a, step, b)
      ensures AllPastCheck(b)
    {
      PastCheckStep(a, step);
    }
    Runs.Keeps(Next, AllPastCheck, Init(cacheTTL, staleTTL), steps, s);
    PastCheckOf(s, c);
  }

  lemma PastCheckOf(s: State, c: CallerId)
    requires AllPastCheck(s) && c in s.callers
    ensures PastCheck(s.now, s.callers[c].1)
  {
  }

  /** A caller that comes while an unexpired entry is cached gets its address from three steps of
      its own, and nothing else changes: no flight is started or joined. */
  lemma CacheHit(s: State, c: CallerId, h: Host) returns (t: State)
    requires Reachable(s) && c !in s.callers && h in s.cache && s.now < s.cache[h].expiry
    ensures Reachable(t)
    ensures t == s.(callers := s.callers[c := (h, Returned(s.cache[h].ip, Cache(s.cache[h], s.now)))])
  {
    hide Reachable, Executes;
    t := ReachableStep(s, Call(c, h));
    t := ReachableStep(t, Load(c));
    t := ReachableStep(t, CheckFresh(c));
    assert t.callers == s.callers[c := (h, Returned(s.cache[h].ip, Cache(s.cache[h], s.now)))];
  }

  /** A caller on a missing entry starts a flight; when its resolve succeeds the address is cached
      for cacheTTL from then on, the caller gets it, and the host is free for the next flight. */
  lemma CacheMiss(s: State, c: CallerId, h: Host, f: FlightId, ip: IP) returns (t: State)
    requires Reachable(s) && c !in s.callers && f !in s.flights && h !in s.cache && h !in s.pending
    ensures Reachable(t) && t.now == s.now && t.pending == s.pending
    ensures t.cache == s.cache[h := Entry(ip, s.now, s.now + s.cacheTTL)]
    ensures t.callers == s.callers[c := (h, Returned(ip, FromFlight(f)))]
  {
    hide Reachable, Executes, Apply, Enabled;
    t := StartLookup(s, c, h, f);
    t := FlightSucceeds(t, h, f, ip);
    t := Woken(t, c, ip);
    assert t.callers == s.callers[c := (h, Returned(ip, FromFlight(f)))];
  }

  /** A flight whose resolve succeeds stores its address for its host, and then frees the host. */
  lemma StoresAnswer(s: State, h: Host, f: FlightId, ip: IP) returns (t: State)
    requires Reachable(s) && f in s.flights && s.flights[f] == Flight(h, Resolving, Err(0))
    ensures Reachable(t) && t.now == s.now && t.callers == s.callers && t.pending == s.pending
    ensures t.cache == s.cache[h := Entry(ip, s.now, s.now + s.cacheTTL)]
    ensures f in t.flights && t.flights[f] == Flight(h, Stored, Ok(ip))
  {
    hide Reachable, Executes;
    t := ReachableStep(s, Resolve(f, Ok(ip)));
    t := ReachableStep(t, Build(f));
    t := ReachableStep(t, Store(f));
  }

  lemma FlightSucceeds(s: State, h: Host, f: FlightId, ip: IP) returns (t: State)
    requires Reachable(s) && f in s.flights && s.flights[f] == Flight(h, Resolving, Err(0))
    ensures Reachable(t) && t.now == s.now && t.callers == s.callers && t.pending == s.pending - {h}
    ensures t.cache == s.cache[h := Entry(ip, s.now, s.now + s.cacheTTL)]
    ensures f in t.flights && t.flights[f] == Flight(h, Finished, Ok(ip))
  {
    hide Reachable, Executes;
    t := StoresAnswer(s, h, f, ip);
    t := ReachableStep(t, CloseDone(f));
    t := ReachableStep(t, DeletePending(f));
  }

  lemma Woken(s: State, c: CallerId, ip: IP) returns (t: State)
    requires Reachable(s) && c in s.callers && s.callers[c].1.Waiting? && s.callers[c].1.flight in s.flights
    requires Done(s.flights[s.callers[c].1.flight]) && s.flights[s.callers[c].1.flight].result == Ok(ip)
    ensures Reachable(t)
    ensures t == s.(callers := s.callers[c := (s.callers[c].0, Returned(ip, FromFlight(s.callers[c].1.flight)))])
  {
    hide Reachable, Executes;
    t := ReachableStep(s, Wake(c));
  }

  // ---------------------------------------------------------------- who resolves, and what is stored

  ghost predicate ResolvedFor(steps: seq<Step>, s: State, h: Host, ip: IP) {
    exists f :: f in s.flights && s.flights[f].host == h && Resolve(f, Ok(ip)) in steps
  }

  /** What the steps so far say about one flight. */
  predicate FlightTraced(steps: seq<Step>, f: FlightId, fl: Flight) {
    && (fl.progress != Resolving ==> Resolve(f, fl.result) in steps)
    && (fl.progress in {Stored, Closed, Finished} && fl.result.Ok? ==> Store(f) in steps)
    && (fl.progress in {Closed, Finished} ==> CloseDone(f) in steps)
  }

  ghost predicate FlightsTraced(steps: seq<Step>, s: State) {
    && (forall f :: f in s.flights ==> FlightTraced(steps, f, s.flights[f]))
    && (forall h, ip :: (h, ip) in s.answers ==> ResolvedFor(steps, s, h, ip))
  }

  lemma InMore(steps: seq<Step>, step: Step)
    ensures forall x :: x in steps + [step] <==> x in steps || x == step
  {
  }

  lemma FlightsTracedStep(steps: seq<Step>, s: State, step: Step)
    requires FlightsTraced(steps, s) && Enabled(s, step)
    ensures FlightsTraced(steps + [step], Apply(s, step))
  {
    var all, t := steps + [step], Apply(s, step);
    forall h, ip | (h, ip) in t.answers
      ensures ResolvedFor(all, t, h, ip)
    {
      AnswerTraced(steps, s, step, h, ip);
    }
    forall f | f in t.flights
      ensures FlightTraced(all, f, t.flights[f])
    {
      FlightTracedStep(steps, s, step, f);
    }
    hide ResolvedFor, FlightTraced, Apply, Enabled;
  }

  lemma FlightTracedStep(steps: seq<Step>, s: State, step: Step, f: FlightId)
    requires Enabled(s, step) && f in Apply(s, step).flights
    requires f in s.flights ==> FlightTraced(steps, f, s.flights[f])
    ensures FlightTraced(steps + [step], f, Apply(s, step).flights[f])
  {
    InMore(steps, step);
    if f in s.flights && !(FlightStep(step) && step.f == f) {
      FlightEnds(s, step, f);
      hide Apply, Enabled;
    }
  }

  predicate FlightStep(step: Step) {
    step.Resolve? || step.Build? || step.Store? || step.CloseDone? || step.DeletePending?
  }

  lemma AnswerTraced(steps: seq<Step>, s: State, step: Step, h: Host, ip: IP)
    requires FlightsTraced(steps, s) && Enabled(s, step) && (h, ip) in Apply(s, step).answers
    ensures ResolvedFor(steps + [step], Apply(s, step), h, ip)
  {
    var t := Apply(s, step);
    InMore(steps, step);
    StepGrows(s, step);
    if (h, ip) in s.answers {
      assert ResolvedFor(steps, s, h, ip);
      var f :| f in s.flights && s.flights[f].host == h && Resolve(f, Ok(ip)) in steps;
      assert f in t.flights && t.flights[f].host == h;
    } else {
      assert step == Resolve(step.f, Ok(ip)) && s.flights[step.f].host == h;
      assert t.flights[step.f].host == h;
    }
  }

  /** Over every run: a flight's result is the one its own resolve gave, however its callers ended;
      a successful flight is not done before its address was stored; and every recorded address was
      resolved by a flight of its host. */
  lemma FlightsAreTraced(cacheTTL: nat, staleTTL: nat, steps: seq<Step>, s: State)
    requires Executes(Init(cacheTTL, staleTTL), steps, s)
    ensures FlightsTraced(steps, s)
  {
    var traced := (past: seq<Step>, t: State) => FlightsTraced(past, t);
    assert traced([], Init(cacheTTL, staleTTL));
    hide Apply, Enabled, FlightsTraced;
    forall past, a, step, b | traced(past, a) && Next(a, step, b)
      ensures traced(past + [step], b)
    {
      FlightsTracedStep(past, a, step);
    }
    Runs.KeepsTrace(Next, traced, Init(cacheTTL, staleTTL), steps, s);
  }

  /** A store caches the flight's address under its host, and leaves the other entries. */
  lemma StoreCaches(s: State, f: FlightId)
    requires Reachable(s) && Enabled(s, Store(f))
    ensures s.flights[f].result.Ok?
    ensures var h := s.flights[f].host;
            var t := Apply(s, Store(f));
            && h in t.cache && t.cache[h].ip == s.flights[f].result.ip && t.cache - {h} == s.cache - {h}
            && t.cache[h].expiry == t.cache[h].stored + s.cacheTTL
  {
    ReachableInv(s);
    var cacheTTL, staleTTL, steps :| Executes(Init(cacheTTL, staleTTL), steps, s);
    BuiltFromResult(cacheTTL, staleTTL, steps, s, f);
    assert EntrySound(s, s.flights[f].host, s.flights[f].progress.entry);
    assert Apply(s, Store(f)).cache - {s.flights[f].host} == s.cache - {s.flights[f].host};
  }

  ghost predicate BuiltOwn(s: State) {
    forall f :: f in s.flights && s.flights[f].progress.Built? ==>
                  s.flights[f].result == Ok(s.flights[f].progress.entry.ip)
  }

  lemma BuiltOwnStep(s: State, step: Step)
    requires BuiltOwn(s) && Enabled(s, step)
    ensures BuiltOwn(Apply(s, step))
  {
  }

  lemma BuiltFromResult(cacheTTL: nat, staleTTL: nat, steps: seq<Step>, s: State, f: FlightId)
    requires Executes(Init(cacheTTL, staleTTL), steps, s) && f in s.flights && s.flights[f].progress.Built?
    ensures s.flights[f].result == Ok(s.flights[f].progress.entry.ip)
  {
    assert BuiltOwn(Init(cacheTTL, staleTTL));
    forall a, step, b | BuiltOwn(a) && Next(a, step, b)
      ensures BuiltOwn(b)
    {
      BuiltOwnStep(a, step);
    }
    hide Apply, Enabled;
    Runs.Keeps(Next, BuiltOwn, Init(cacheTTL, staleTTL), steps, s);
  }

  /** Over every run: nobody is woken before the flight's done channel was closed. */
  lemma WokenAfterClose(cacheTTL: nat, staleTTL: nat, steps: seq<Step>, s: State, c: CallerId)
    requires Executes(Init(cacheTTL, staleTTL), steps, s) && Enabled(s, Wake(c))
    ensures CloseDone(s.callers[c].1.flight) in steps
  {
    FlightsAreTraced(cacheTTL, staleTTL, steps, s);
  }

  /** The error of a caller that gave up because its context ended. */
  function GaveUpWith(c: Caller): Option<Error> {
    match c
    case Failing(_, error, Cancelled) => Some(error)
    case Deleting(_, error, Cancelled, _) => Some(error)
    case ReturnedError(error, _, Cancelled, _) => Some(error)
    case _ => None
  }

  ghost predicate CancelsTraced(steps: seq<Step>, s: State) {
    forall c :: c in s.callers && GaveUpWith(s.callers[c].1).Some? ==>
                  Cancel(c, GaveUpWith(s.callers[c].1).value) in steps
  }

  lemma CancelsTracedStep(steps: seq<Step>, s: State, step: Step)
    requires CancelsTraced(steps, s) && Enabled(s, step)
    ensures CancelsTraced(steps + [step], Apply(s, step))
  {
    var all, t := steps + [step], Apply(s, step);
    InMore(steps, step);
    forall c | c in t.callers && GaveUpWith(t.callers[c].1).Some?
      ensures Cancel(c, GaveUpWith(t.callers[c].1).value) in all
    {
      GaveUpBefore(s, step, c);
      hide Apply, Enabled, GaveUpWith;
    }
  }

  /** Only the end of its context makes a caller give up, with the context's error. */
  lemma GaveUpBefore(s: State, step: Step, c: CallerId)
    requires Enabled(s, step) && c in Apply(s, step).callers && GaveUpWith(Apply(s, step).callers[c].1).Some?
    ensures var e := GaveUpWith(Apply(s, step).callers[c].1);
            step == Cancel(c, e.value) || (c in s.callers && GaveUpWith(s.callers[c].1) == e)
  {
  }

  /** Over every run: a caller that failed because its context ended returns the context's error. */
  lemma CancelledWith(cacheTTL: nat, staleTTL: nat, steps: seq<Step>, s: State, c: CallerId)
    requires Executes(Init(cacheTTL, staleTTL), steps, s) && c in s.callers
    requires s.callers[c].1.ReturnedError? && s.callers[c].1.cause == Cancelled
    ensures Cancel(c, s.callers[c].1.error) in steps
  {
    var traced := (past: seq<Step>, t: State) => CancelsTraced(past, t);
    assert traced([], Init(cacheTTL, staleTTL));
    hide Apply, Enabled;
    forall past, a, step, b | traced(past, a) && Next(a, step, b)
      ensures traced(past + [step], b)
    {
      CancelsTracedStep(past, a, step);
    }
    Runs.KeepsTrace(Next, traced, Init(cacheTTL, staleTTL), steps, s);
    assert GaveUpWith(s.callers[c].1) == Some(s.callers[c].1.error);
  }

  // ---------------------------------------------------------------- nobody gets stuck

  /** In every reachable state a caller that has not returned has a step to take, or waits for a
      flight that has one. */
  lemma CallerNeverStuck(s: State, c: CallerId)
    requires Reachable(s) && c in s.callers
    ensures match s.callers[c].1
            case Called => Enabled(s, Load(c))
            case Loaded(_) => Enabled(s, CheckFresh(c))
            case Missed(_) => exists f :: Enabled(s, Join(c, f))
            case Waiting(_, f) => Enabled(s, Wake(c)) || (f in s.flights && FlightCanGoOn(s, f))
            case Failing(_, _, _) => Enabled(s, Fallback(c))
            case Deleting(_, _, _, _) => Enabled(s, Delete(c))
            case Returned(_, _) => true
            case ReturnedError(_, _, _, _) => true
  {
    ReachableInv(s);
    hide Reachable;
    match s.callers[c].1 {
      case Missed(_) =>
        var f := Sets.Above(s.flights.Keys);
        assert f !in s.flights.Keys;
        assert Enabled(s, Join(c, f));
      case Waiting(_, f) =>
        assert CallerSound(s, s.callers[c].0, s.callers[c].1);
        FlightNeverStuck(s, f);
      case _ =>
    }
  }

  /** The flight's goroutine has a step to take, whatever its resolve gives. */
  ghost predicate FlightCanGoOn(s: State, f: FlightId)
    requires f in s.flights
  {
    match s.flights[f].progress
    case Resolving => forall answer :: Enabled(s, Resolve(f, answer))
    case Resolved => Enabled(s, Build(f))
    case Built(_) => Enabled(s, Store(f))
    case Stored => Enabled(s, CloseDone(f))
    case Closed => Enabled(s, DeletePending(f))
    case Finished => true
  }

  lemma FlightNeverStuck(s: State, f: FlightId)
    requires f in s.flights
    ensures FlightCanGoOn(s, f)
  {
  }

  function FlightStepsLeft(p: Progress): nat {
    match p
    case Resolving => 5
    case Resolved => 4
    case Built(_) => 3
    case Stored => 2
    case Closed => 1
    case Finished => 0
  }

  /** Every step of a flight brings it nearer to its end; no other step touches it. */
  lemma FlightEnds(s: State, step: Step, f: FlightId)
    requires Enabled(s, step) && f in s.flights
    ensures f in Apply(s, step).flights
    ensures if FlightStep(step) then
              (step.f == f ==>
                 FlightStepsLeft(Apply(s, step).flights[f].progress) < FlightStepsLeft(s.flights[f].progress))
              && (step.f != f ==> Apply(s, step).flights[f] == s.flights[f])
            else Apply(s, step).flights[f] == s.flights[f]
  {
  }
}
