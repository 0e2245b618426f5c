/** RaceResolve: the loop that collects upstream results in arrival order. */
module Race {
  import opened Dns
  import opened Options

  /** What one iteration of the select sees: a client's (response, error), the timer, or the
      end of the caller's context. */
  datatype Event = Result(resp: Option<Msg>, err: Option<string>) | TimerFired | ContextDone(reason: string)

  /** A usable message: a response without an error. */
  predicate HasMessage(e: Event) {
    e.Result? && e.err == None && e.resp.Some?
  }

  predicate IsSuccess(e: Event) {
    HasMessage(e) && e.resp.value.rcode == NOERROR
  }

  /** The loop ends here at the latest. */
  predicate Decisive(e: Event) {
    !e.Result? || IsSuccess(e)
  }

  /** Number of iterations that go on to the next event. */
  function Undecided(events: seq<Event>): (n: nat)
    ensures n <= |events|
    ensures forall i :: 0 <= i < n ==> !Decisive(events[i])
    ensures n < |events| ==> Decisive(events[n])
  {
    if events == [] || Decisive(events[0]) then 0 else 1 + Undecided(events[1..])
  }

  function FirstMessage(events: seq<Event>): (m: Option<Msg>)
    ensures m.Some? <==> exists i :: 0 <= i < |events| && HasMessage(events[i])
  {
    if events == [] then None
    else if HasMessage(events[0]) then events[0].resp
    else FirstMessage(events[1..])
  }

  /** The race decided by its events: the first NOERROR message before any exit; else, unless the
      context ended, the first message; else an error. */
  ghost predicate IsRace(clients: nat, events: seq<Event>, o: Outcome) {
    var n := Undecided(events);
    if clients == 0 then o.resp == None && o.err.Some?
    else if n < |events| && IsSuccess(events[n]) then o == Outcome(events[n].resp, None)
    else if n < |events| && events[n].ContextDone? then o == Outcome(None, Some(events[n].reason))
    else
      var m := FirstMessage(events[..n]);
      o.resp == m && (o.err == None <==> m.Some?)
  }

  lemma UndecidedAt(events: seq<Event>, i: nat)
    requires i <= |events|
    requires forall k :: 0 <= k < i ==> !Decisive(events[k])
    ensures i < |events| && Decisive(events[i]) ==> Undecided(events) == i
    ensures i == |events| ==> Undecided(events) == i
  {
    if Undecided(events) < i {
      assert false;
    }
  }

  lemma {:induction false} FirstMessageSnoc(events: seq<Event>, e: Event)
    ensures FirstMessage(events + [e]) ==
            if FirstMessage(events).Some? then FirstMessage(events) else if HasMessage(e) then e.resp else None
  {
    if events == [] {
      assert [] + [e] == [e] && [e][1..] == [];
    } else {
      assert (events + [e])[1..] == events[1..] + [e];
      FirstMessageSnoc(events[1..], e);
    }
  }

  /** `events` is what the select of each of the `clients` iterations yields. */
  method RaceResolve(clients: nat, events: seq<Event>) returns (o: Outcome)
    requires |events| == clients
    ensures IsRace(clients, events, o) && o.Proper()
  {
    if clients == 0 {
      return Outcome(None, Some("no upstream client"));
    }
    var bestFail: Option<Msg> := None;
    var lastErr: Option<string> := None;
    var i := 0;
    while i < clients
      invariant 0 <= i <= clients
      invariant forall k :: 0 <= k < i ==> !Decisive(events[k])
      invariant bestFail == FirstMessage(events[..i])
      invariant i > 0 ==> bestFail.Some? || lastErr.Some?
    {
      UndecidedAt(events, i);
      var e := events[i];
      FirstMessageSnoc(events[..i], e);
      assert events[..i + 1] == events[..i] + [e];
      i := i + 1;
      match e {
        case Result(resp, err) =>
          if err.Some? {
            lastErr := err;
          } else if resp == None {
            lastErr := Some("empty response");
          } else if resp.value.rcode == NOERROR {
            return Outcome(resp, None);
          } else if bestFail == None {
            bestFail := resp;
          }
        case TimerFired =>
          return if bestFail.Some? then Outcome(bestFail, None) else Outcome(None, Some("race timed out"));
        case ContextDone(reason) =>
          return Outcome(None, Some(reason));
      }
    }
    UndecidedAt(events, clients);
    assert events[..clients] == events;
    o := if bestFail.Some? then Outcome(bestFail, None)
         else if lastErr.Some? then Outcome(None, Some("all upstreams failed: " + lastErr.value))
         else Outcome(None, Some("no response received"));
  }

  // ---------------------------------------------------------------- which result wins

  /** Event i is the first NOERROR result, with no timer and no end of the context before it. */
  predicate FirstNoError(events: seq<Event>, i: nat) {
    && i < |events| && events[i].Result? && events[i].err == None
    && events[i].resp.Some? && events[i].resp.value.rcode == 0
    && Waiting(events, i)
  }

  /** The first n results are errors, empty, or messages other than NOERROR. */
  predicate Waiting(events: seq<Event>, n: nat)
    requires n <= |events|
  {
    forall k :: 0 <= k < n ==>
      events[k].Result? && (events[k].err.Some? || events[k].resp == None || events[k].resp.value.rcode != 0)
  }

  /** Event i is the first that carries a message. */
  predicate FirstHeard(events: seq<Event>, i: nat) {
    && i < |events| && events[i].Result? && events[i].err == None && events[i].resp.Some?
    && forall k :: 0 <= k < i ==> events[k].Result? ==> events[k].err.Some? || events[k].resp == None
  }

  /** The race waits through n results without a NOERROR and then ends: with the timer or the last
      result it returns the first message there was, with the context its reason. */
  predicate GivesUp(events: seq<Event>, n: nat) {
    n <= |events| && Waiting(events, n) && (n == |events| || !events[n].Result?)
  }

  lemma {:induction false} FirstMessageAt(events: seq<Event>, i: nat)
    requires FirstHeard(events, i)
    ensures FirstMessage(events) == events[i].resp
  {
    if i > 0 {
      FirstMessageAt(events[1..], i - 1);
    }
  }

  /** The race ends at its first NOERROR, whatever follows it. */
  lemma FirstNoErrorWins(events: seq<Event>, i: nat, o: Outcome)
    requires FirstNoError(events, i) && IsRace(|events|, events, o)
    ensures o == Outcome(events[i].resp, None)
  {
    UndecidedAt(events, i);
  }

  /** Without a NOERROR: the end of the context gives its reason; the timer, or the last result,
      gives the first message so far, however many followed it, or else an error. */
  lemma GivesUpWith(events: seq<Event>, n: nat, o: Outcome)
    requires events != [] && GivesUp(events, n) && IsRace(|events|, events, o)
    ensures n < |events| && events[n].ContextDone? ==> o == Outcome(None, Some(events[n].reason))
    ensures n == |events| || events[n].TimerFired? ==>
              && (forall i: nat :: FirstHeard(events[..n], i) ==> o == Outcome(events[i].resp, None))
              && ((forall i: nat :: !FirstHeard(events[..n], i)) ==> o.resp == None && o.err.Some?)
  {
    UndecidedAt(events, n);
    var before := events[..n];
    forall i: nat | FirstHeard(before, i)
      ensures FirstMessage(before) == events[i].resp
    {
      FirstMessageAt(before, i);
    }
    if FirstMessage(before).Some? {
      var i := HeardAt(before);
    }
  }

  lemma {:induction false} HeardAt(events: seq<Event>) returns (i: nat)
    requires FirstMessage(events).Some?
    ensures FirstHeard(events, i)
  {
    if HasMessage(events[0]) {
      i := 0;
    } else {
      var k := HeardAt(events[1..]);
      i := k + 1;
      assert forall j :: 0 < j < i ==> events[j] == events[1..][j - 1];
    }
  }

  /** Every race ends in one of these ways. */
  lemma EndsSomehow(events: seq<Event>)
    ensures exists i: nat :: FirstNoError(events, i) || GivesUp(events, i)
  {
    var n := Undecided(events);
    assert FirstNoError(events, n) || GivesUp(events, n);
  }

  // ---------------------------------------------------------------- order independence

  datatype Class = Positive | Negative | Failed

  function ClassOf(o: Outcome): Class {
    if o.Success() then Positive else if o.err == None && o.resp.Some? then Negative else Failed
  }

  /** All results arrived; no timer, no context end. */
  ghost predicate AllResults(events: seq<Event>) {
    forall e :: e in events ==> e.Result?
  }

  /** Without timer or context exit the class depends only on which results there are, and the
      message is the first NOERROR one, else the first one, in arrival order. */
  lemma RaceWithoutExit(events: seq<Event>, o: Outcome)
    requires events != [] && AllResults(events) && IsRace(|events|, events, o)
    ensures ClassOf(o) == Positive <==> exists e :: e in events && IsSuccess(e)
    ensures ClassOf(o) == Failed <==> forall e :: e in events ==> !HasMessage(e)
    ensures ClassOf(o) == Positive ==>
              exists i :: 0 <= i < |events| && IsSuccess(events[i]) && o.resp == events[i].resp
                          && forall j :: 0 <= j < i ==> !IsSuccess(events[j])
    ensures ClassOf(o) != Positive ==> o.resp == FirstMessage(events)
  {
    var n := Undecided(events);
    if n < |events| {
      assert events[n] in events;
      assert IsSuccess(events[n]);
      assert forall j :: 0 <= j < n ==> !IsSuccess(events[j]);
    } else {
      assert events[..n] == events;
      forall e | e in events
        ensures !IsSuccess(e)
      {
        var i :| 0 <= i < |events| && events[i] == e;
        assert !Decisive(events[i]);
      }
      if o.resp.Some? {
        FirstMessageIsThere(events);
      }
    }
  }

  lemma {:induction false} FirstMessageIsThere(events: seq<Event>)
    requires FirstMessage(events).Some?
    ensures exists e :: e in events && HasMessage(e) && FirstMessage(events) == e.resp
  {
    if HasMessage(events[0]) {
      assert events[0] in events;
    } else {
      FirstMessageIsThere(events[1..]);
      var e :| e in events[1..] && HasMessage(e) && FirstMessage(events[1..]) == e.resp;
      assert e in events;
    }
  }

  /** Every arrival order of the same results gives the same class of outcome. */
  lemma RaceOrderIndependent(a: seq<Event>, b: seq<Event>, oa: Outcome, ob: Outcome)
    requires a != [] && multiset(a) == multiset(b) && AllResults(a)
    requires IsRace(|a|, a, oa) && IsRace(|b|, b, ob)
    ensures ClassOf(oa) == ClassOf(ob)
  {
    forall e
      ensures e in a <==> e in b
    {
      assert e in a <==> e in multiset(a);
      assert e in b <==> e in multiset(b);
    }
    assert a[0] in b;
    RaceWithoutExit(a, oa);
    RaceWithoutExit(b, ob);
  }

  // ---------------------------------------------------------------- the results channel

  /** `buffered` results wait in the channel; `sent` holds the clients that have sent theirs. */
  datatype Senders = Senders(sent: set<nat>, buffered: seq<nat>, returned: bool)

  datatype SendStep = Send(client: nat) | Receive | Return

  ghost predicate SendEnabled(clients: nat, s: Senders, step: SendStep) {
    match step
    case Send(c) => c < clients && c !in s.sent
    case Receive => !s.returned && s.buffered != []
    case Return => !s.returned
  }

  ghost function SendApply(s: Senders, step: SendStep): Senders
    requires step.Receive? ==> s.buffered != []
  {
    match step
    case Send(c) => s.(sent := s.sent + {c}, buffered := s.buffered + [c])
    case Receive => s.(buffered := s.buffered[1..])
    case Return => s.(returned := true)
  }

  ghost predicate SendRun(clients: nat, run: seq<Senders>, steps: seq<SendStep>) {
    && |run| == |steps| + 1
    && run[0] == Senders({}, [], false)
    && forall i :: 0 <= i < |steps| ==>
         SendEnabled(clients, run[i], steps[i]) && run[i + 1] == SendApply(run[i], steps[i])
  }

  lemma {:induction false} BufferBound(clients: nat, run: seq<Senders>, steps: seq<SendStep>, i: nat)
    requires SendRun(clients, run, steps) && i < |run|
    ensures |run[i].buffered| <= |run[i].sent|
    ensures forall c :: c in run[i].sent ==> c < clients
  {
    if i > 0 {
      BufferBound(clients, run, steps, i - 1);
      assert SendEnabled(clients, run[i - 1], steps[i - 1]);
      assert run[i] == SendApply(run[i - 1], steps[i - 1]);
    }
  }

  lemma {:induction false} BelowCount(s: set<nat>, n: nat)
    requires forall c :: c in s ==> c < n
    ensures |s| <= n
  {
    if n == 0 {
      assert s == {};
    } else {
      BelowCount(s - {n - 1}, n - 1);
    }
  }

  /** In every run, however early the race returned, a client that has not sent yet finds room in
      the channel of capacity `clients`. */
  lemma SendNeverBlocks(clients: nat, run: seq<Senders>, steps: seq<SendStep>, i: nat, c: nat)
    requires SendRun(clients, run, steps) && i < |run|
    requires c < clients && c !in run[i].sent
    ensures |run[i].buffered| < clients
  {
    BufferBound(clients, run, steps, i);
    BelowCount(run[i].sent + {c}, clients);
  }
}
