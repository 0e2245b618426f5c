/** The bounded write queue as a step machine: any number of AddLog calls, the writer
    goroutine and Close, interleaved at every channel, flag and file operation. A call is
    named by a number, and its entry by the call. */
module WriterQueue {
  import opened LogFile
  import opened Options
  import Runs

  type Call = int

  /** Where an AddLog call is: before the closed check, past it, with its entry in the queue,
      about to append because the queue was full, appended, or dropped by the check. */
  datatype Phase = Entered | Checked | Sent | Direct | Appended | Dropped

  datatype Writer = Selecting | Holding(entry: Call, draining: bool) | Draining | Exited

  datatype Closer = NotCalled | FlagSet | StopClosed | Returned

  /** `appended` is the order of all appends; `accepted`, `written` and `direct` record what was
      sent to the queue, appended by the writer and appended by callers; `mark` is the number sent
      when stopWriter was closed. */
  datatype State = State(
    cap: nat, calls: map<Call, Phase>, queue: seq<Call>, writer: Writer, closer: Closer,
    appended: seq<Call>, accepted: seq<Call>, written: seq<Call>, direct: seq<Call>, mark: nat)

  datatype Step =
    | Enter(c: Call) | Check(c: Call) | Offer(c: Call) | AppendDirect(c: Call)
    | Take | TakeDraining | ObserveStop | WriterAppend | Exit
    | SetFlag | CloseStop | Return

  function Init(cap: nat): State {
    State(cap, map[], [], Selecting, NotCalled, [], [], [], [], 0)
  }

  predicate At(s: State, c: Call, p: Phase) {
    c in s.calls && s.calls[c] == p
  }

  predicate Enabled(s: State, step: Step) {
    match step
    case Enter(c) => c !in s.calls
    case Check(c) => At(s, c, Entered)
    case Offer(c) => At(s, c, Checked)
    case AppendDirect(c) => At(s, c, Direct)
    case Take => s.writer == Selecting && s.queue != []
    case ObserveStop => s.writer == Selecting && s.closer in {StopClosed, Returned}
    case TakeDraining => s.writer == Draining && s.queue != []
    case WriterAppend => s.writer.Holding?
    case Exit => s.writer == Draining && s.queue == []
    case SetFlag => s.closer == NotCalled
    case CloseStop => s.closer == FlagSet
    case Return => s.closer == StopClosed && s.writer == Exited
  }

  function Apply(s: State, step: Step): State
    requires Enabled(s, step)
  {
    match step
    case Enter(c) => s.(calls := s.calls[c := Entered])
    case Check(c) => s.(calls := s.calls[c := if s.closer == NotCalled then Checked else Dropped])
    case Offer(c) =>
      if |s.queue| < s.cap then
        s.(calls := s.calls[c := Sent], queue := s.queue + [c], accepted := s.accepted + [c])
      else
        s.(calls := s.calls[c := Direct])
    case AppendDirect(c) => s.(calls := s.calls[c := Appended], appended := s.appended + [c], direct := s.direct + [c])
    case Take => s.(writer := Holding(s.queue[0], false), queue := s.queue[1..])
    case TakeDraining => s.(writer := Holding(s.queue[0], true), queue := s.queue[1..])
    case ObserveStop => s.(writer := Draining)
    case WriterAppend =>
      var e := s.writer.entry;
      s.(writer := if s.writer.draining then Draining else Selecting,
         appended := s.appended + [e], written := s.written + [e])
    case Exit => s.(writer := Exited)
    case SetFlag => s.(closer := FlagSet)
    case CloseStop => s.(closer := StopClosed, mark := |s.accepted|)
    case Return => s.(closer := Returned)
  }

  ghost predicate Next(s: State, step: Step, t: State) {
    Enabled(s, step) && t == Apply(s, step)
  }

  ghost predicate Executes(a: State, steps: seq<Step>, b: State) {
    Runs.Executes(Next, a, steps, b)
  }

  ghost predicate Reachable(s: State) {
    exists cap, steps :: Executes(Init(cap), steps, s)
  }

  // ---------------------------------------------------------------- invariant

  function InHand(w: Writer): seq<Call> {
    if w.Holding? then [w.entry] else []
  }

  /** FIFO: accepted entries are those written, then the one in hand, then the queue. */
  ghost predicate Fifo(s: State) {
    s.accepted == s.written + InHand(s.writer) + s.queue && |s.queue| <= s.cap
  }

  ghost predicate NoDuplicates(cs: seq<Call>) {
    forall i, j :: 0 <= i < j < |cs| ==> cs[i] != cs[j]
  }

  /** A call's phase says where its entry is; no entry is anywhere twice. */
  ghost predicate Owned(s: State) {
    && (forall c :: c in s.accepted <==> At(s, c, Sent))
    && (forall c :: c in s.direct <==> At(s, c, Appended))
    && NoDuplicates(s.accepted) && NoDuplicates(s.direct)
  }

  function Only(cs: seq<Call>, keep: seq<Call>): seq<Call>
    decreases |cs|
  {
    if cs == [] then []
    else Only(cs[..|cs| - 1], keep) + (if cs[|cs| - 1] in keep then [cs[|cs| - 1]] else [])
  }

  /** The appends interleave the writer's and the direct ones, each in its order. */
  ghost predicate Interleaved(s: State) {
    && multiset(s.appended) == multiset(s.written) + multiset(s.direct)
    && Only(s.appended, s.accepted) == s.written
    && Only(s.appended, s.direct) == s.direct
  }

  ghost predicate Closing(s: State) {
    && (s.closer in {NotCalled, FlagSet} ==> s.writer == Selecting || (s.writer.Holding? && !s.writer.draining))
    && (s.closer in {StopClosed, Returned} ==> s.mark <= |s.accepted|)
    && (s.writer == Exited ==> s.mark <= |s.written|)
    && (s.closer == Returned ==> s.writer == Exited)
  }

  ghost predicate Inv(s: State) {
    Fifo(s) && Owned(s) && Interleaved(s) && Closing(s)
  }

  lemma FifoStep(s: State, step: Step)
    requires Fifo(s) && Enabled(s, step)
    ensures Fifo(Apply(s, step))
  {
    var t := Apply(s, step);
    match step {
      case Offer(c) =>
        if |s.queue| < s.cap {
          assert s.written + InHand(s.writer) + (s.queue + [c]) == (s.written + InHand(s.writer) + s.queue) + [c];
        }
      case Take => assert s.queue == [s.queue[0]] + t.queue;
      case TakeDraining => assert s.queue == [s.queue[0]] + t.queue;
      case WriterAppend => assert s.written + [s.writer.entry] + [] == s.written + [s.writer.entry];
      case _ =>
    }
  }

  lemma OwnedStep(s: State, step: Step)
    requires Owned(s) && Enabled(s, step)
    ensures Owned(Apply(s, step))
  {
    var t := Apply(s, step);
    forall c
      ensures c in t.accepted <==> At(t, c, Sent)
      ensures c in t.direct <==> At(t, c, Appended)
    {
      assert c in s.accepted <==> At(s, c, Sent);
      assert c in s.direct <==> At(s, c, Appended);
    }
    match step {
      case Offer(c) => assert c !in s.accepted by { assert !At(s, c, Sent); }
      case AppendDirect(c) => assert c !in s.direct by { assert !At(s, c, Appended); }
      case _ =>
    }
  }

  lemma ClosingStep(s: State, step: Step)
    requires Fifo(s) && Closing(s) && Enabled(s, step)
    ensures Closing(Apply(s, step))
  {
  }

  lemma {:induction false} OnlyGrownKeep(cs: seq<Call>, keep: seq<Call>, c: Call)
    requires c !in cs
    ensures Only(cs, keep + [c]) == Only(cs, keep)
    decreases |cs|
  {
    if cs != [] {
      OnlyGrownKeep(cs[..|cs| - 1], keep, c);
    }
  }

  lemma OnlySnoc(cs: seq<Call>, c: Call, keep: seq<Call>)
    ensures Only(cs + [c], keep) == Only(cs, keep) + (if c in keep then [c] else [])
  {
    assert (cs + [c])[..|cs|] == cs;
  }

  lemma AppendedMembers(s: State, c: Call)
    requires Interleaved(s)
    ensures c in s.appended <==> c in s.written || c in s.direct
  {
    assert c in s.appended <==> c in multiset(s.appended);
    assert c in s.written <==> c in multiset(s.written);
    assert c in s.direct <==> c in multiset(s.direct);
  }

  /** The entry of a call still on its way is in neither sequence and was not appended. */
  lemma NotYetStored(s: State, c: Call)
    requires Fifo(s) && Owned(s) && Interleaved(s) && (At(s, c, Checked) || At(s, c, Direct))
    ensures c !in s.accepted && c !in s.direct && c !in s.appended
  {
    AppendedMembers(s, c);
    assert !At(s, c, Sent) && !At(s, c, Appended);
    assert c in s.written ==> c in s.accepted;
  }

  lemma InterleavedDirect(s: State, c: Call)
    requires Fifo(s) && Owned(s) && Interleaved(s) && At(s, c, Direct)
    ensures Interleaved(Apply(s, AppendDirect(c)))
  {
    hide Fifo, Owned;
    NotYetStored(s, c);
    OnlyGrownKeep(s.appended, s.direct, c);
    OnlySnoc(s.appended, c, s.accepted);
    OnlySnoc(s.appended, c, s.direct + [c]);
  }

  /** The entry in hand was accepted and is not a direct one. */
  lemma InHandAccepted(s: State)
    requires Fifo(s) && Owned(s) && s.writer.Holding?
    ensures s.writer.entry in s.accepted && s.writer.entry !in s.direct
  {
    var e := s.writer.entry;
    assert s.accepted[|s.written|] == e;
    assert At(s, e, Sent) && !At(s, e, Appended);
  }

  lemma InterleavedWrite(s: State)
    requires Fifo(s) && Owned(s) && Interleaved(s) && s.writer.Holding?
    ensures Interleaved(Apply(s, WriterAppend))
  {
    hide Fifo, Owned;
    InHandAccepted(s);
    OnlySnoc(s.appended, s.writer.entry, s.accepted);
    OnlySnoc(s.appended, s.writer.entry, s.direct);
  }

  lemma InterleavedStep(s: State, step: Step)
    requires Fifo(s) && Owned(s) && Interleaved(s) && Enabled(s, step)
    ensures Interleaved(Apply(s, step))
  {
    hide Fifo, Owned, Only;
    match step {
      case Offer(c) =>
        NotYetStored(s, c);
        OnlyGrownKeep(s.appended, s.accepted, c);
      case AppendDirect(c) => InterleavedDirect(s, c);
      case WriterAppend => InterleavedWrite(s);
      case _ =>
    }
  }

  lemma StepKeepsInv(s: State, step: Step)
    requires Inv(s) && Enabled(s, step)
    ensures Inv(Apply(s, step))
  {
    FifoStep(s, step);
    OwnedStep(s, step);
    InterleavedStep(s, step);
    ClosingStep(s, step);
  }

  lemma RunKeepsInv(a: State, steps: seq<Step>, b: State)
    requires Inv(a) && Executes(a, steps, b)
    ensures Inv(b)
  {
    hide Inv, Apply, Enabled;
    forall s, step, t | Inv(s) && Next(s, step, t)
      ensures Inv(t)
    {
      StepKeepsInv(s, step);
    }
    Runs.Keeps(Next, Inv, a, steps, b);
  }

  lemma ReachableInv(s: State)
    requires Reachable(s)
    ensures Inv(s)
  {
    var cap, steps :| Executes(Init(cap), steps, s);
    RunKeepsInv(Init(cap), steps, s);
  }

  // ---------------------------------------------------------------- results

  /** In every reachable state: queue conservation in FIFO order, no entry appended twice, the
      appends are an interleaving of the writer's and the direct ones, and the entry of every
      finished overflow call is among them. */
  lemma QueueConservation(s: State)
    requires Reachable(s)
    ensures s.accepted == s.written + InHand(s.writer) + s.queue
    ensures Only(s.appended, s.accepted) == s.written && Only(s.appended, s.direct) == s.direct
    ensures NoDuplicates(s.appended)
    ensures forall c :: c in s.accepted <==> At(s, c, Sent)
    ensures forall c :: c in s.appended <==> c in s.written || At(s, c, Appended)
  {
    ReachableInv(s);
    forall c
      ensures multiset(s.written)[c] + multiset(s.direct)[c] <= 1
    {
      CountOnce(s.written + InHand(s.writer) + s.queue, c);
      CountOnce(s.direct, c);
      assert multiset(s.written + InHand(s.writer) + s.queue)[c] >= multiset(s.written)[c];
      assert c in s.written ==> c in s.accepted;
      assert !(At(s, c, Sent) && At(s, c, Appended));
      assert c in s.written <==> c in multiset(s.written);
      assert c in s.direct <==> c in multiset(s.direct);
    }
    OnceMeansNoDuplicates(s.appended);
    forall c
      ensures c in s.appended <==> c in s.written || At(s, c, Appended)
    {
      AppendedMembers(s, c);
    }
  }

  lemma {:induction false} CountOnce(cs: seq<Call>, c: Call)
    requires NoDuplicates(cs)
    ensures multiset(cs)[c] <= 1
    decreases |cs|
  {
    if cs != [] {
      var init := cs[..|cs| - 1];
      CountOnce(init, c);
      assert cs == init + [cs[|cs| - 1]];
      if cs[|cs| - 1] == c {
        assert c !in init;
        assert multiset(init)[c] == 0;
      }
    }
  }

  lemma OnceMeansNoDuplicates(cs: seq<Call>)
    requires forall c :: multiset(cs)[c] <= 1
    ensures NoDuplicates(cs)
  {
    forall i, j | 0 <= i < j < |cs|
      ensures cs[i] != cs[j]
    {
      var a, b := cs[..j], cs[j..];
      assert cs == a + b && a[i] == cs[i] && b[0] == cs[j];
      assert a[i] in multiset(a) && b[0] in multiset(b);
      assert multiset(cs)[cs[i]] == multiset(a)[cs[i]] + multiset(b)[cs[i]];
    }
  }

  /** When Close has returned, every entry sent before stopWriter was closed was appended,
      and the writer's appends begin with exactly those, in the order they were sent. */
  lemma CloseFlushes(s: State)
    requires Reachable(s) && s.closer == Returned
    ensures s.mark <= |s.written| <= |s.accepted| && s.accepted[..s.mark] == s.written[..s.mark]
    ensures forall c :: c in s.accepted[..s.mark] ==> c in s.appended
  {
    ReachableInv(s);
    forall c | c in s.accepted[..s.mark]
      ensures c in s.appended
    {
      assert c in s.written;
      AppendedMembers(s, c);
    }
  }

  /** After the writer has exited the written entries are final. */
  lemma ExitIsFinal(a: State, steps: seq<Step>, b: State)
    requires a.writer == Exited && Executes(a, steps, b)
    ensures b.writer == Exited && b.written == a.written && a.accepted <= b.accepted
  {
    var final := (s: State) => s.writer == Exited && s.written == a.written && a.accepted <= s.accepted;
    Runs.Keeps(Next, final, a, steps, b);
  }

  /** An accepted entry is appended, at any later time, exactly when it was accepted
      before the writer's exit. */
  lemma FlushedIffSentBeforeExit(a: State, exit: State, steps: seq<Step>, b: State, c: Call)
    requires Reachable(a) && Enabled(a, Exit) && exit == Apply(a, Exit)
    requires Executes(exit, steps, b) && c in b.accepted
    ensures c in b.appended <==> c in exit.accepted
  {
    ReachableStep(a, Exit);
    ReachableInv(exit);
    RunKeepsInv(exit, steps, b);
    ExitIsFinal(exit, steps, b);
    hide Reachable, Executes, Inv;
    AllWritten(exit);
    AppendedIsWritten(b, c);
  }

  lemma AllWritten(s: State)
    requires Inv(s) && s.writer == Exited && s.queue == []
    ensures s.accepted == s.written
  {
  }

  lemma AppendedIsWritten(s: State, c: Call)
    requires Inv(s) && c in s.accepted
    ensures c in s.appended <==> c in s.written
  {
    AppendedMembers(s, c);
    assert At(s, c, Sent) && !At(s, c, Appended);
    assert c !in s.direct;
  }

  lemma ReachableStep(s: State, step: Step)
    requires Reachable(s) && Enabled(s, step)
    ensures Reachable(Apply(s, step))
  {
    var cap, steps :| Executes(Init(cap), steps, s);
    hide Apply, Enabled;
    Runs.Snoc(Next, Init(cap), steps, s, step, Apply(s, step));
    assert Executes(Init(cap), steps + [step], Apply(s, step));
  }

  /** A call past the closed check can send after the writer has gone: its entry stays in the
      queue although Close has returned. */
  lemma LateSendIsLost()
    ensures exists s :: Reachable(s) && s.closer == Returned && s.queue == [0] && 0 !in s.appended
  {
    var s4 := StoppedWithCaller();
    hide Reachable, Executes;
    ReachableStep(s4, ObserveStop);
    var s5 := Apply(s4, ObserveStop);
    ReachableStep(s5, Exit);
    var s6 := Apply(s5, Exit);
    ReachableStep(s6, Return);
    var s7 := Apply(s6, Return);
    ReachableStep(s7, Offer(0));
    assert Apply(s7, Offer(0)).queue == [0];
  }

  /** One call past the check, stopWriter closed, nothing sent. */
  lemma StoppedWithCaller() returns (s: State)
    ensures Reachable(s) && s == State(1, map[0 := Checked], [], Selecting, StopClosed, [], [], [], [], 0)
  {
    hide Reachable, Executes;
    InitReachable(1);
    var s0 := Init(1);
    ReachableStep(s0, Enter(0));
    var s1 := Apply(s0, Enter(0));
    ReachableStep(s1, Check(0));
    var s2 := Apply(s1, Check(0));
    ReachableStep(s2, SetFlag);
    var s3 := Apply(s2, SetFlag);
    ReachableStep(s3, CloseStop);
    s := Apply(s3, CloseStop);
    assert s.calls == map[0 := Checked];
  }

  lemma InitReachable(cap: nat)
    ensures Reachable(Init(cap))
  {
    assert Executes(Init(cap), [], Init(cap));
  }

  // ---------------------------------------------------------------- no entry is lost on the way

  /** Where the entry of a call past its check is. */
  ghost predicate Kept(s: State, c: Call)
    requires c in s.calls
  {
    match s.calls[c]
    case Entered => true
    case Checked => true
    case Direct => true
    case Sent => c in s.queue || c in InHand(s.writer) || c in s.appended
    case Appended => c in s.appended
    case Dropped => s.closer != NotCalled
  }

  ghost predicate DropsOnlyClosed(s: State) {
    forall c :: At(s, c, Dropped) ==> s.closer != NotCalled
  }

  lemma DropsOnlyClosedStep(s: State, step: Step)
    requires DropsOnlyClosed(s) && Enabled(s, step)
    ensures DropsOnlyClosed(Apply(s, step))
  {
    var t := Apply(s, step);
    assert s.closer != NotCalled ==> t.closer != NotCalled;
    forall c | At(t, c, Dropped)
      ensures t.closer != NotCalled
    {
      assert At(s, c, Dropped) || step == Check(c);
    }
  }

  lemma ReachableDrops(s: State)
    requires Reachable(s)
    ensures DropsOnlyClosed(s)
  {
    var cap, steps :| Executes(Init(cap), steps, s);
    assert DropsOnlyClosed(Init(cap));
    hide Apply, Enabled, DropsOnlyClosed;
    forall a, step, b | DropsOnlyClosed(a) && Next(a, step, b)
      ensures DropsOnlyClosed(b)
    {
      DropsOnlyClosedStep(a, step);
    }
    Runs.Keeps(Next, DropsOnlyClosed, Init(cap), steps, s);
  }

  /** In every reachable state: the entry of a call is on its way, in the queue, in the writer's
      hand or among the appends; and it is dropped only after Close was called. */
  lemma NothingLost(s: State, c: Call)
    requires Reachable(s) && c in s.calls
    ensures Kept(s, c)
  {
    ReachableDrops(s);
    QueueConservation(s);
    hide Reachable;
    match s.calls[c] {
      case Sent =>
        assert At(s, c, Sent);
        assert c in s.written + InHand(s.writer) + s.queue;
      case Appended => assert At(s, c, Appended);
      case Dropped => assert At(s, c, Dropped);
      case _ =>
    }
  }

  /** Close was called before call c passed its check. */
  ghost predicate Refused(s: State, c: Call) {
    s.closer != NotCalled && (c in s.calls ==> At(s, c, Entered) || At(s, c, Dropped))
  }

  lemma RefusedStep(s: State, step: Step, c: Call)
    requires Refused(s, c) && Enabled(s, step)
    ensures Refused(Apply(s, step), c)
  {
  }

  /** A call that has not passed its check when Close is called never appends. */
  lemma ClosedRefuses(a: State, steps: seq<Step>, b: State, c: Call)
    requires Reachable(a) && Refused(a, c) && Executes(a, steps, b)
    ensures Refused(b, c) && c !in b.appended
  {
    ReachableInv(a);
    RunKeepsInv(a, steps, b);
    RefusedRun(a, steps, b, c);
    NeverStored(b, c);
  }

  lemma RefusedRun(a: State, steps: seq<Step>, b: State, c: Call)
    requires Refused(a, c) && Executes(a, steps, b)
    ensures Refused(b, c)
  {
    hide Apply, Enabled, Refused;
    forall s, step, t | Refused(s, c) && Next(s, step, t)
      ensures Refused(t, c)
    {
      RefusedStep(s, step, c);
    }
    Runs.Keeps(Next, s => Refused(s, c), a, steps, b);
  }

  lemma NeverStored(s: State, c: Call)
    requires Inv(s) && !At(s, c, Sent) && !At(s, c, Appended)
    ensures c !in s.appended
  {
    AppendedMembers(s, c);
    assert c in s.written ==> c in s.accepted;
  }

  /** The check lets a call pass exactly until Close is called. */
  lemma CheckIff(s: State, c: Call)
    requires Enabled(s, Check(c))
    ensures At(Apply(s, Check(c)), c, Checked) <==> s.closer == NotCalled
    ensures At(Apply(s, Check(c)), c, Dropped) <==> s.closer != NotCalled
  {
  }

  /** A call past its check queues its entry exactly when there is room, and else can append it at
      once; either way it needs nobody else. */
  lemma OfferIff(s: State, c: Call)
    requires Enabled(s, Offer(c))
    ensures |s.queue| < s.cap ==> Apply(s, Offer(c)).queue == s.queue + [c]
    ensures |s.queue| >= s.cap ==> Enabled(Apply(s, Offer(c)), AppendDirect(c)) && Apply(s, Offer(c)).queue == s.queue
  {
  }

  /** An overflow entry is appended next, behind everything appended so far. */
  lemma OverflowAppended(s: State, c: Call) returns (t: State)
    requires Reachable(s) && At(s, c, Checked) && |s.queue| >= s.cap
    ensures Reachable(t) && t.appended == s.appended + [c] && t.queue == s.queue && t.calls == s.calls[c := Appended]
  {
    hide Reachable, Executes;
    ReachableStep(s, Offer(c));
    var u := Apply(s, Offer(c));
    ReachableStep(u, AppendDirect(c));
    t := Apply(u, AppendDirect(c));
    assert t.calls == s.calls[c := Appended];
  }

  /** An idle writer appends the front of the queue. */
  lemma WriterTakesFront(s: State) returns (t: State)
    requires Reachable(s) && s.writer == Selecting && s.queue != []
    ensures Reachable(t) && t == s.(queue := s.queue[1..], appended := s.appended + [s.queue[0]],
                                    written := s.written + [s.queue[0]])
  {
    hide Reachable, Executes;
    ReachableStep(s, Take);
    var u := Apply(s, Take);
    ReachableStep(u, WriterAppend);
    t := Apply(u, WriterAppend);
  }

  /** After the stop the writer empties the queue in order and exits; then Close can return. */
  lemma {:induction false} DrainFinishes(s: State) returns (t: State)
    requires Reachable(s) && s.writer == Draining
    ensures Reachable(t) && t == s.(queue := [], writer := Exited, appended := s.appended + s.queue,
                                    written := s.written + s.queue)
    ensures s.closer == StopClosed ==> Enabled(t, Return)
    decreases |s.queue|
  {
    hide Reachable, Executes;
    if s.queue == [] {
      ReachableStep(s, Exit);
      t := Apply(s, Exit);
      assert s.appended + [] == s.appended && s.written + [] == s.written;
    } else {
      ReachableStep(s, TakeDraining);
      var u := Apply(s, TakeDraining);
      ReachableStep(u, WriterAppend);
      var v := Apply(u, WriterAppend);
      t := DrainFinishes(v);
      assert s.queue == [s.queue[0]] + s.queue[1..];
    }
  }

  /** In every state a call, the writer and Close have a step to take, but for an idle writer with
      nothing queued, and a Close that waits for a writer that has one. */
  lemma NobodyStuck(s: State, c: Call)
    ensures c in s.calls ==>
              match s.calls[c]
              case Entered => Enabled(s, Check(c))
              case Checked => Enabled(s, Offer(c))
              case Direct => Enabled(s, AppendDirect(c))
              case _ => true
    ensures match s.writer
            case Selecting => s.queue != [] || s.closer in {StopClosed, Returned} ==>
              Enabled(s, Take) || Enabled(s, ObserveStop)
            case Holding(_, _) => Enabled(s, WriterAppend)
            case Draining => Enabled(s, TakeDraining) || Enabled(s, Exit)
            case Exited => true
    ensures s.closer == StopClosed ==> (Enabled(s, Return) <==> s.writer == Exited)
    ensures s.closer == FlagSet ==> Enabled(s, CloseStop)
    ensures s.queue != [] && s.writer == Selecting ==> Enabled(s, Take)
  {
  }

  // ---------------------------------------------------------------- the file behind the appends

  datatype OnDisk = OnDisk(calls: State, disk: FileState)

  /** An append step appends the entry's record to the file, pruning it first when it must. */
  ghost predicate DiskNext(record: Call -> Record, limit: nat, a: OnDisk, step: Step, b: OnDisk) {
    && Next(a.calls, step, b.calls)
    && b.disk == match step
                 case AppendDirect(c) => AppendRecord(a.disk, record(c), limit)
                 case WriterAppend => AppendRecord(a.disk, record(a.calls.writer.entry), limit)
                 case _ => a.disk
  }

  ghost function DiskStep(record: Call -> Record, limit: nat): (OnDisk, Step, OnDisk) -> bool {
    (a, step, b) => DiskNext(record, limit, a, step, b)
  }

  ghost predicate DiskReachable(record: Call -> Record, limit: nat, disk: FileState, s: OnDisk) {
    exists cap, steps :: Runs.Executes(DiskStep(record, limit), OnDisk(Init(cap), disk), steps, s)
  }

  ghost predicate DiskHolds(record: Call -> Record, limit: nat, disk: FileState, s: OnDisk) {
    Reachable(s.calls) && s.disk == AppendAll(disk, Marshalled(record, s.calls.appended), limit)
  }

  lemma DiskHoldsStep(record: Call -> Record, limit: nat, disk: FileState, a: OnDisk, step: Step, b: OnDisk)
    requires DiskHolds(record, limit, disk, a) && DiskNext(record, limit, a, step, b)
    ensures DiskHolds(record, limit, disk, b)
  {
    ReachableStep(a.calls, step);
    hide Reachable, AppendAll, AppendRecord;
    if b.calls.appended != a.calls.appended {
      var c := b.calls.appended[|a.calls.appended|];
      assert Marshalled(record, b.calls.appended) == Marshalled(record, a.calls.appended) + [record(c)];
      AppendAllSnoc(disk, Marshalled(record, a.calls.appended), record(c), limit);
    }
  }

  /** In every reachable state the file is the appends so far, applied in their order to the file
      the logger started with. */
  lemma DiskIsAppends(record: Call -> Record, limit: nat, disk: FileState, s: OnDisk)
    requires DiskReachable(record, limit, disk, s)
    ensures Reachable(s.calls) && s.disk == AppendAll(disk, Marshalled(record, s.calls.appended), limit)
  {
    var cap, steps :| Runs.Executes(DiskStep(record, limit), OnDisk(Init(cap), disk), steps, s);
    InitReachable(cap);
    var holds := (x: OnDisk) => DiskHolds(record, limit, disk, x);
    assert Marshalled(record, []) == [];
    assert holds(OnDisk(Init(cap), disk));
    hide DiskHolds, DiskNext;
    forall a, step, b | holds(a) && DiskStep(record, limit)(a, step, b)
      ensures holds(b)
    {
      DiskHoldsStep(record, limit, disk, a, step, b);
    }
    Runs.Keeps(DiskStep(record, limit), holds, OnDisk(Init(cap), disk), steps, s);
    assert DiskHolds(record, limit, disk, s);
  }

  /** From a file of whole records, with records of at most 1024 bytes: when Close has returned the
      file holds exactly the newest of the earlier and the appended records, whole and with an
      exact count; and while they all fit, it holds every entry sent before stopWriter was closed. */
  lemma DiskAfterClose(record: Call -> Record, limit: nat, disk: FileState, earlier: seq<Record>, s: OnDisk)
      returns (k: nat)
    requires DiskReachable(record, limit, disk, s) && IsFileOf(disk, earlier) && s.calls.closer == Returned
    requires var all := earlier + Marshalled(record, s.calls.appended); LinesClean(all) && LinesFit(all)
    ensures var all := earlier + Marshalled(record, s.calls.appended);
            && k <= |all| && IsFileOf(s.disk, all[k..]) && s.calls.mark <= |s.calls.accepted|
            && (EncodedSize(all) <= limit ==>
                  k == 0 && forall c :: c in s.calls.accepted[..s.calls.mark] ==> record(c) in all[k..])
  {
    DiskIsAppends(record, limit, disk, s);
    CloseFlushes(s.calls);
    var added := Marshalled(record, s.calls.appended);
    if added == [] {
      assert earlier + added == earlier && earlier[0..] == earlier;
      k := 0;
    } else {
      k := RunKeepsNewestRecords(disk, earlier, added, limit);
    }
    forall c | c in s.calls.accepted[..s.calls.mark]
      ensures record(c) in earlier + added
    {
      var i :| 0 <= i < |s.calls.appended| && s.calls.appended[i] == c;
      assert (earlier + added)[|earlier| + i] == record(c);
    }
  }
}
