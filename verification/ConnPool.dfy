/** The pipelined connection pool of the TCP and DoT clients as a step machine: ten slots in a
    channel, any number of resolvePipeline calls and Close calls, and a server that answers
    each request on a connection at most once, in any order and with any ID. */
module ConnPool {
  import opened Options
  import Runs
  import Sets

  const SLOTS := 10

  type Conn = int
  type Call = int
  type Closer = int

  /** A response: the request it answers, named by its call, and the ID on the wire. */
  datatype Msg = Msg(answers: Call, id: int)

  datatype Result = Reply(msg: Msg) | Error

  /** Who holds a connection. */
  datatype Place = InPool | WithCall(c: Call) | WithCloser(k: Closer) | ClosedDown

  /** A dialled connection: requests the server has not answered, responses not yet read. */
  datatype Link = Link(place: Place, unanswered: seq<Call>, inbox: seq<Msg>)

  /** A resolvePipeline call: waiting for a slot, holding one before a successful write
      (`retried` after the first write failed), written, in the deferred put-back before and
      after its closed check, finished. */
  datatype Phase =
    | Arrived
    | Slotted(conn: Option<Conn>, retried: bool)
    | Written(link: Conn)
    | Leaving(conn: Option<Conn>, result: Result)
    | Pushing(conn: Option<Conn>, result: Result)
    | Finished(result: Result)

  /** A Close call: flag set, draining with possibly a connection in hand, done. */
  datatype Drain = FlagSet | Draining(hand: Option<Conn>) | Done

  datatype State = State(
    made: bool, filled: nat, pool: seq<Option<Conn>>, closed: bool, drained: nat,
    links: map<Conn, Link>, calls: map<Call, Phase>, ids: map<Call, int>, closers: map<Closer, Drain>)

  datatype Step =
    | Arrive(c: Call, id: int) | MakePool | Fill | Take(c: Call) | GiveUp(c: Call)
    | DialFails(c: Call) | DialOk(c: Call, x: Conn)
    | WriteOk(c: Call) | WriteFails(c: Call, delivered: bool)
    | ReadReply(c: Call) | ReadMismatch(c: Call) | ReadFails(c: Call)
    | DeferKeep(c: Call) | DeferClose(c: Call) | Push(c: Call) | PushFull(c: Call)
    | Respond(x: Conn, i: nat, id: int)
    | CloseStart(k: Closer) | CloseCheck(k: Closer) | CloseTake(k: Closer) | CloseHand(k: Closer) | CloseEnd(k: Closer)

  function Init(): State {
    State(false, 0, [], false, 0, map[], map[], map[], map[])
  }

  predicate Known(s: State, x: Option<Conn>) {
    x.Some? ==> x.value in s.links
  }

  /** The call has written on its connection and a response is there to read. */
  predicate Readable(s: State, c: Call) {
    && c in s.calls && c in s.ids && s.calls[c].Written?
    && s.calls[c].link in s.links && s.links[s.calls[c].link].inbox != []
  }

  /** The conjuncts that a held connection is known are consequences of the invariant. */
  predicate Enabled(s: State, step: Step) {
    match step
    case Arrive(c, _) => c !in s.calls
    case MakePool => !s.made
    case Fill => s.made && s.filled < SLOTS
    case Take(c) => c in s.calls && s.calls[c].Arrived? && s.filled == SLOTS && s.pool != [] && Known(s, s.pool[0])
    case GiveUp(c) => c in s.calls && s.calls[c].Arrived? && s.filled == SLOTS
    case DialFails(c) => c in s.calls && s.calls[c].Slotted? && s.calls[c].conn == None
    case DialOk(c, x) => c in s.calls && s.calls[c].Slotted? && s.calls[c].conn == None && x !in s.links
    case WriteOk(c) => c in s.calls && s.calls[c].Slotted? && s.calls[c].conn.Some? && s.calls[c].conn.value in s.links
    case WriteFails(c, _) => c in s.calls && s.calls[c].Slotted? && s.calls[c].conn.Some? &&
        s.calls[c].conn.value in s.links
    case ReadReply(c) => Readable(s, c) && s.links[s.calls[c].link].inbox[0].id == s.ids[c]
    case ReadMismatch(c) => Readable(s, c) && s.links[s.calls[c].link].inbox[0].id != s.ids[c]
    case ReadFails(c) => c in s.calls && s.calls[c].Written? && s.calls[c].link in s.links
    case DeferKeep(c) => c in s.calls && s.calls[c].Leaving? && !(s.calls[c].conn.Some? && s.closed)
    case DeferClose(c) => c in s.calls && s.calls[c].Leaving? && s.calls[c].conn.Some? && s.closed &&
        Known(s, s.calls[c].conn)
    case Push(c) => c in s.calls && s.calls[c].Pushing? && Known(s, s.calls[c].conn) && |s.pool| < SLOTS
    case PushFull(c) => c in s.calls && s.calls[c].Pushing? && Known(s, s.calls[c].conn) && |s.pool| >= SLOTS
    case Respond(x, i, _) => x in s.links && i < |s.links[x].unanswered|
    case CloseStart(k) => k !in s.closers
    case CloseCheck(k) => k in s.closers && s.closers[k].FlagSet?
    case CloseTake(k) => k in s.closers && s.closers[k] == Draining(None) && s.pool != [] && Known(s, s.pool[0])
    case CloseHand(k) => k in s.closers && s.closers[k].Draining? && s.closers[k].hand.Some? &&
        s.closers[k].hand.value in s.links
    case CloseEnd(k) => k in s.closers && s.closers[k] == Draining(None) && s.pool == []
  }

  function Move(s: State, x: Option<Conn>, p: Place): State
    requires Known(s, x)
  {
    if x == None then s else s.(links := s.links[x.value := s.links[x.value].(place := p)])
  }

  function SetCall(s: State, c: Call, p: Phase): State {
    s.(calls := s.calls[c := p])
  }

  function Apply(s: State, step: Step): State
    requires Enabled(s, step)
  {
    match step
    case Arrive(c, id) => SetCall(s, c, Arrived).(ids := s.ids[c := id])
    case MakePool => s.(made := true)
    case Fill => s.(filled := s.filled + 1, pool := s.pool + [None])
    case Take(c) => SetCall(Move(s, s.pool[0], WithCall(c)), c, Slotted(s.pool[0], false)).(pool := s.pool[1..])
    case GiveUp(c) => SetCall(s, c, Finished(Error))
    case DialFails(c) => SetCall(s, c, Leaving(None, Error))
    case DialOk(c, x) =>
      SetCall(s, c, Slotted(Some(x), s.calls[c].retried)).(links := s.links[x := Link(WithCall(c), [], [])])
    case WriteOk(c) =>
      var x := s.calls[c].conn.value;
      SetCall(s, c, Written(x)).(links := s.links[x := s.links[x].(unanswered := s.links[x].unanswered + [c])])
    case WriteFails(c, delivered) =>
      var x := s.calls[c].conn.value;
      var left := if delivered then s.links[x].unanswered + [c] else s.links[x].unanswered;
      SetCall(s, c, if s.calls[c].retried then Leaving(None, Error) else Slotted(None, true)).(
        links := s.links[x := s.links[x].(place := ClosedDown, unanswered := left)])
    case ReadReply(c) =>
      var x := s.calls[c].link;
      var l := s.links[x];
      SetCall(s, c, Leaving(Some(x), Reply(l.inbox[0]))).(links := s.links[x := l.(inbox := l.inbox[1..])])
    case ReadMismatch(c) => SetCall(Move(s, Some(s.calls[c].link), ClosedDown), c, Leaving(None, Error))
    case ReadFails(c) => SetCall(Move(s, Some(s.calls[c].link), ClosedDown), c, Leaving(None, Error))
    case DeferKeep(c) => SetCall(s, c, Pushing(s.calls[c].conn, s.calls[c].result))
    case DeferClose(c) => SetCall(Move(s, s.calls[c].conn, ClosedDown), c, Pushing(None, s.calls[c].result))
    case Push(c) =>
      SetCall(Move(s, s.calls[c].conn, InPool), c, Finished(s.calls[c].result)).(pool := s.pool + [s.calls[c].conn])
    case PushFull(c) => SetCall(Move(s, s.calls[c].conn, ClosedDown), c, Finished(s.calls[c].result))
    case Respond(x, i, id) =>
      var l := s.links[x];
      s.(links := s.links[x := l.(unanswered := l.unanswered[..i] + l.unanswered[i + 1..],
                                  inbox := l.inbox + [Msg(l.unanswered[i], id)])])
    case CloseStart(k) => s.(closed := true, closers := s.closers[k := FlagSet])
    case CloseCheck(k) => s.(closers := s.closers[k := if s.made then Draining(None) else Done])
    case CloseTake(k) =>
      Move(s, s.pool[0], WithCloser(k)).(
        closers := s.closers[k := Draining(s.pool[0])], pool := s.pool[1..], drained := s.drained + 1)
    case CloseHand(k) => Move(s, s.closers[k].hand, ClosedDown).(closers := s.closers[k := Draining(None)])
    case CloseEnd(k) => s.(closers := s.closers[k := Done])
  }

  ghost predicate Next(s: State, step: Step, t: State) {
    Enabled(s, step) && t == Apply(s, step)
  }

  ghost predicate Executes(a: State, steps: seq<Step>, b: State) {
    Runs.Executes(Next, a, steps, b)
  }

  ghost predicate Reachable(s: State) {
    exists steps :: Executes(Init(), steps, s)
  }

  // ---------------------------------------------------------------- invariants

  /** The connection a call holds. */
  function ConnOf(p: Phase): Option<Conn> {
    match p
    case Slotted(x, _) => x
    case Written(x) => Some(x)
    case Leaving(x, _) => x
    case Pushing(x, _) => x
    case _ => None
  }

  function CallConn(s: State, c: Call): Option<Conn> {
    if c in s.calls then ConnOf(s.calls[c]) else None
  }

  function HandOf(d: Drain): Option<Conn> {
    if d.Draining? then d.hand else None
  }

  function Hand(s: State, k: Closer): Option<Conn> {
    if k in s.closers then HandOf(s.closers[k]) else None
  }

  predicate PlaceIs(s: State, x: Conn, p: Place) {
    x in s.links && s.links[x].place == p
  }

  /** Pooled connections are in exactly one slot, and are marked so. */
  ghost predicate PoolPlaces(s: State) {
    && (forall i :: 0 <= i < |s.pool| && s.pool[i].Some? ==> PlaceIs(s, s.pool[i].value, InPool))
    && (forall i, j :: 0 <= i < j < |s.pool| && s.pool[i].Some? ==> s.pool[i] != s.pool[j])
    && (forall x :: PlaceIs(s, x, InPool) ==> Some(x) in s.pool)
  }

  ghost predicate CallPlaces(s: State) {
    && (forall c :: CallConn(s, c).Some? ==> PlaceIs(s, CallConn(s, c).value, WithCall(c)))
    && (forall x, c :: PlaceIs(s, x, WithCall(c)) ==> CallConn(s, c) == Some(x))
  }

  ghost predicate CloserPlaces(s: State) {
    && (forall k :: Hand(s, k).Some? ==> PlaceIs(s, Hand(s, k).value, WithCloser(k)))
    && (forall x, k :: PlaceIs(s, x, WithCloser(k)) ==> Hand(s, k) == Some(x))
  }

  predicate Quiet(l: Link) {
    l.unanswered == [] && l.inbox == []
  }

  /** Exactly one request of call `c` is out: unanswered, or answered and unread. */
  predicate OneOut(l: Link, c: Call) {
    (l.unanswered == [c] && l.inbox == []) || (l.unanswered == [] && |l.inbox| == 1 && l.inbox[0].answers == c)
  }

  predicate LinkTraffic(s: State, l: Link) {
    match l.place
    case InPool => Quiet(l)
    case WithCall(c) => c in s.calls && (if s.calls[c].Written? then OneOut(l, c) else Quiet(l))
    case WithCloser(_) => Quiet(l)
    case ClosedDown => true
  }

  /** A connection is quiet in the pool and outside the write-to-read span of its call. */
  ghost predicate Traffic(s: State) {
    forall x :: x in s.links ==> LinkTraffic(s, s.links[x])
  }

  predicate ResultOwn(s: State, c: Call, r: Result) {
    r.Reply? ==> c in s.ids && r.msg.answers == c && r.msg.id == s.ids[c]
  }

  function ResultOf(p: Phase): Result {
    match p
    case Leaving(_, r) => r
    case Pushing(_, r) => r
    case Finished(r) => r
    case _ => Error
  }

  /** A call's reply answers its own request under its own ID. */
  ghost predicate Results(s: State) {
    forall c :: c in s.calls ==> c in s.ids && ResultOwn(s, c, ResultOf(s.calls[c]))
  }

  predicate Holds(p: Phase) {
    p.Slotted? || p.Written? || p.Leaving? || p.Pushing?
  }

  /** The calls that hold a slot. */
  function InFlight(s: State): set<Call> {
    set c | c in s.calls && Holds(s.calls[c])
  }

  /** The Close calls with a connection in hand. */
  function Handed(s: State): set<Closer> {
    set k | k in s.closers && Hand(s, k).Some?
  }

  /** Slots not yet filled, pooled, in flight and drained add up to ten. */
  ghost predicate Slots(s: State) {
    && s.filled <= SLOTS && (s.filled < SLOTS ==> InFlight(s) == {})
    && (SLOTS - s.filled) + |s.pool| + |InFlight(s)| + s.drained == SLOTS
    && |Handed(s)| <= s.drained
  }

  /** Every connection is where its place says, and nowhere else. */
  ghost predicate Places(s: State) {
    PoolPlaces(s) && CallPlaces(s) && CloserPlaces(s)
  }

  ghost predicate Core(s: State) {
    Places(s) && Traffic(s) && Results(s)
  }

  ghost predicate Inv(s: State) {
    Core(s) && Slots(s)
  }

  /** A step of call `c` that leaves the pool alone: its connection `x` stays with it, is closed,
      or was just dialled. */
  lemma CallStep(s: State, t: State, c: Call, p: Phase, x: Conn, l: Link)
    requires Core(s) && c in s.calls && ResultOwn(s, c, ResultOf(p))
    requires t == s.(calls := s.calls[c := p], links := s.links[x := l])
    requires if x in s.links then CallConn(s, c) == Some(x) else CallConn(s, c) == None
    requires if ConnOf(p) == None then l.place == ClosedDown else ConnOf(p) == Some(x) && l.place == WithCall(c)
    requires ConnOf(p) == Some(x) ==> if p.Written? then OneOut(l, c) else Quiet(l)
    ensures Core(t)
  {
    assert Results(t);
    OthersTalk(s, t, c, x);
    assert Traffic(t);
    hide Traffic, Results;
    CallStepPlaces(s, t, c, p, x, l);
  }

  lemma CallStepPlaces(s: State, t: State, c: Call, p: Phase, x: Conn, l: Link)
    requires Places(s) && c in s.calls
    requires t == s.(calls := s.calls[c := p], links := s.links[x := l])
    requires if x in s.links then CallConn(s, c) == Some(x) else CallConn(s, c) == None
    requires if ConnOf(p) == None then l.place == ClosedDown else ConnOf(p) == Some(x) && l.place == WithCall(c)
    ensures Places(t)
  {
    assert forall y, q :: y != x ==> (PlaceIs(t, y, q) <==> PlaceIs(s, y, q));
    assert forall d :: d != c ==> CallConn(t, d) == CallConn(s, d);
    assert forall k :: Hand(t, k) == Hand(s, k);
    assert x in s.links ==> PlaceIs(s, x, WithCall(c));
  }

  /** Traffic on connections that neither belong to call `c` nor changed. */
  lemma OthersTalk(s: State, t: State, c: Call, x: Conn)
    requires Places(s) && Traffic(s) && (CallConn(s, c) == None || CallConn(s, c) == Some(x))
    requires forall d :: d in s.calls && d != c ==> d in t.calls && t.calls[d] == s.calls[d]
    ensures forall y :: y in s.links && y != x ==> LinkTraffic(t, s.links[y])
  {
    forall y | y in s.links && y != x
      ensures LinkTraffic(t, s.links[y])
    {
      assert LinkTraffic(s, s.links[y]);
      if s.links[y].place.WithCall? {
        var d := s.links[y].place.c;
        assert PlaceIs(s, y, WithCall(d));
        assert CallConn(s, d) == Some(y) && d != c;
        assert d in t.calls;
      }
    }
  }

  /** A step of a call without a connection. */
  lemma BareCallStep(s: State, t: State, c: Call, p: Phase)
    requires Core(s) && CallConn(s, c) == None && ConnOf(p) == None
    requires t == s.(calls := s.calls[c := p], ids := t.ids) && c in t.ids
    requires forall d :: d in s.calls ==> d in t.ids && t.ids[d] == s.ids[d]
    requires ResultOf(p) == Error || (ResultOwn(s, c, ResultOf(p)) && t.ids == s.ids)
    ensures Core(t)
  {
  }

  /** Taking the first slot out of the pool and moving its connection away. */
  lemma PopKeepsPool(s: State, t: State, p: Place)
    requires PoolPlaces(s) && s.pool != [] && Known(s, s.pool[0]) && p != InPool
    requires t.pool == s.pool[1..] && t.links == Move(s, s.pool[0], p).links
    ensures PoolPlaces(t)
  {
    var x := s.pool[0];
    assert s.pool == [x] + t.pool;
    forall i | 0 <= i < |t.pool| && t.pool[i].Some?
      ensures PlaceIs(t, t.pool[i].value, InPool)
    {
      assert t.pool[i] == s.pool[i + 1] != x;
      assert PlaceIs(s, s.pool[i + 1].value, InPool);
    }
    forall y | PlaceIs(t, y, InPool)
      ensures Some(y) in t.pool
    {
      assert PlaceIs(s, y, InPool);
    }
  }

  lemma TakeStep(s: State, c: Call)
    requires Core(s) && Enabled(s, Take(c))
    ensures Core(Apply(s, Take(c)))
  {
    var t := Apply(s, Take(c));
    var x := s.pool[0];
    assert CallConn(s, c) == None && s.pool[0] == x;
    PopKeepsPool(s, t, WithCall(c));
    assert x.Some? ==> PlaceIs(s, x.value, InPool) && LinkTraffic(s, s.links[x.value]);
    hide PoolPlaces;
    TakePlaces(s, t, c, x);
    TakeTraffic(s, t, c, x);
  }

  lemma TakePlaces(s: State, t: State, c: Call, x: Option<Conn>)
    requires CallPlaces(s) && CloserPlaces(s) && c in s.calls && CallConn(s, c) == None
    requires x.Some? ==> PlaceIs(s, x.value, InPool)
    requires t == s.(pool := t.pool, calls := s.calls[c := Slotted(x, false)], links := Move(s, x, WithCall(c)).links)
    ensures CallPlaces(t) && CloserPlaces(t)
  {
  }

  lemma TakeTraffic(s: State, t: State, c: Call, x: Option<Conn>)
    requires Places(s) && Traffic(s) && c in s.calls && CallConn(s, c) == None
    requires x.Some? ==> PlaceIs(s, x.value, InPool) && Quiet(s.links[x.value])
    requires t == s.(pool := t.pool, calls := s.calls[c := Slotted(x, false)], links := Move(s, x, WithCall(c)).links)
    ensures Traffic(t)
  {
    OthersTalk(s, t, c, if x.Some? then x.value else 0);
    if x == None && 0 in s.links {
      OthersTalk(s, t, c, 1);
    }
  }

  /** Putting a call's connection, or an empty slot, at the end of the pool. */
  lemma PushKeepsPool(s: State, t: State, x: Option<Conn>, c: Call)
    requires PoolPlaces(s) && (x.Some? ==> PlaceIs(s, x.value, WithCall(c)))
    requires t.pool == s.pool + [x] && t.links == (if x.Some? then Move(s, x, InPool).links else s.links)
    ensures PoolPlaces(t)
  {
    assert t.pool[|s.pool|] == x;
    forall i | 0 <= i < |s.pool| && s.pool[i].Some?
      ensures PlaceIs(t, s.pool[i].value, InPool) && s.pool[i] != x
    {
      assert PlaceIs(s, s.pool[i].value, InPool);
    }
    forall y | PlaceIs(t, y, InPool)
      ensures Some(y) in t.pool
    {
      assert PlaceIs(s, y, InPool) ==> Some(y) in s.pool;
    }
  }

  lemma PushStep(s: State, c: Call)
    requires Core(s) && Enabled(s, Push(c))
    ensures Core(Apply(s, Push(c)))
  {
    var t := Apply(s, Push(c));
    var x := s.calls[c].conn;
    assert CallConn(s, c) == x;
    HeldTalk(s, c);
    PushKeepsPool(s, t, x, c);
    hide PoolPlaces;
    PushOthers(s, t, c, x);
  }

  lemma PushOthers(s: State, t: State, c: Call, x: Option<Conn>)
    requires Core(s) && c in s.calls && CallConn(s, c) == x
    requires x.Some? ==> PlaceIs(s, x.value, WithCall(c)) && Quiet(s.links[x.value])
    requires ResultOwn(s, c, ResultOf(s.calls[c]))
    requires t == s.(pool := t.pool, calls := s.calls[c := Finished(ResultOf(s.calls[c]))], links := t.links)
    requires t.links == if x.Some? then Move(s, x, InPool).links else s.links
    ensures CallPlaces(t) && CloserPlaces(t) && Traffic(t) && Results(t)
  {
    OthersTalk(s, t, c, if x.Some? then x.value else 0);
    if x == None && 0 in s.links {
      OthersTalk(s, t, c, 1);
    }
  }

  lemma FillStep(s: State)
    requires Core(s) && Enabled(s, Fill)
    ensures Core(Apply(s, Fill))
  {
    assert Apply(s, Fill).pool[|s.pool|] == None;
  }

  lemma RespondStep(s: State, x: Conn, i: nat, id: int)
    requires Core(s) && Enabled(s, Respond(x, i, id))
    ensures Core(Apply(s, Respond(x, i, id)))
  {
    var t := Apply(s, Respond(x, i, id));
    assert LinkTraffic(s, s.links[x]);
    var l := t.links[x];
    assert t == s.(links := s.links[x := l]) && l.place == s.links[x].place;
    RespondTalk(s, x, i, id);
    hide Apply, Enabled;
    SamePlaces(s, t, x, l);
  }

  lemma RespondTalk(s: State, x: Conn, i: nat, id: int)
    requires Enabled(s, Respond(x, i, id)) && LinkTraffic(s, s.links[x])
    ensures var t := Apply(s, Respond(x, i, id)); LinkTraffic(t, t.links[x])
  {
  }

  /** New traffic on one connection, which stays where it is. */
  lemma SamePlaces(s: State, t: State, x: Conn, l: Link)
    requires Core(s) && x in s.links && l.place == s.links[x].place && LinkTraffic(t, l)
    requires t == s.(links := s.links[x := l])
    ensures Core(t)
  {
    assert forall y, p :: PlaceIs(t, y, p) <==> PlaceIs(s, y, p);
  }

  lemma CloseTakeStep(s: State, k: Closer)
    requires Core(s) && Enabled(s, CloseTake(k))
    ensures Core(Apply(s, CloseTake(k)))
  {
    var t := Apply(s, CloseTake(k));
    var x := s.pool[0];
    assert Hand(s, k) == None && s.pool[0] == x;
    PopKeepsPool(s, t, WithCloser(k));
    assert x.Some? ==> PlaceIs(s, x.value, InPool) && LinkTraffic(s, s.links[x.value]);
    hide PoolPlaces;
    CloseTakeOthers(s, t, k, x);
  }

  lemma CloseTakeOthers(s: State, t: State, k: Closer, x: Option<Conn>)
    requires Core(s) && k in s.closers && Hand(s, k) == None
    requires x.Some? ==> PlaceIs(s, x.value, InPool) && Quiet(s.links[x.value])
    requires t == s.(pool := t.pool, drained := t.drained, closers := s.closers[k := Draining(x)],
                     links := Move(s, x, WithCloser(k)).links)
    ensures CallPlaces(t) && CloserPlaces(t) && Traffic(t) && Results(t)
  {
  }

  lemma CloseHandStep(s: State, k: Closer)
    requires Core(s) && Enabled(s, CloseHand(k))
    ensures Core(Apply(s, CloseHand(k)))
  {
    var t := Apply(s, CloseHand(k));
    var x := Hand(s, k).value;
    assert PlaceIs(s, x, WithCloser(k));
    ClosedFromHand(s, t, k, x);
    assert Traffic(t) && Results(t) by {
      hide PoolPlaces, CallPlaces, CloserPlaces;
    }
  }

  lemma ClosedFromHand(s: State, t: State, k: Closer, x: Conn)
    requires Places(s) && PlaceIs(s, x, WithCloser(k)) && k in s.closers
    requires t == s.(closers := s.closers[k := Draining(None)], links := s.links[x := s.links[x].(place := ClosedDown)])
    ensures Places(t)
  {
    assert forall y, p :: y != x ==> (PlaceIs(t, y, p) <==> PlaceIs(s, y, p));
    assert forall c :: CallConn(t, c) == CallConn(s, c);
    assert forall j :: j != k ==> Hand(t, j) == Hand(s, j);
    assert Hand(s, k) == Some(x);
  }

  /** Close steps that hold no connection, and making the pool. */
  lemma EmptyHandedStep(s: State, step: Step)
    requires Core(s) && Enabled(s, step)
    requires step.CloseStart? || step.CloseCheck? || step.CloseEnd? || step.MakePool?
    ensures Core(Apply(s, step))
  {
    var t := Apply(s, step);
    forall k
      ensures Hand(t, k) == Hand(s, k)
    {
    }
    hide Core;
    SameHands(s, t);
  }

  lemma SameHands(s: State, t: State)
    requires Core(s) && t.pool == s.pool && t.calls == s.calls && t.links == s.links && t.ids == s.ids
    requires forall k :: Hand(t, k) == Hand(s, k)
    ensures Core(t)
  {
    assert forall x, p :: PlaceIs(t, x, p) <==> PlaceIs(s, x, p);
    assert forall c :: CallConn(t, c) == CallConn(s, c);
  }

  lemma CoreStep(s: State, step: Step)
    requires Core(s) && Enabled(s, step)
    ensures Core(Apply(s, step))
  {
    match step {
      case Take(c) => TakeStep(s, c);
      case Push(c) => PushStep(s, c);
      case Fill => FillStep(s);
      case Respond(x, i, id) => RespondStep(s, x, i, id);
      case CloseTake(k) => CloseTakeStep(s, k);
      case CloseHand(k) => CloseHandStep(s, k);
      case CloseStart(_) => EmptyHandedStep(s, step);
      case CloseCheck(_) => EmptyHandedStep(s, step);
      case CloseEnd(_) => EmptyHandedStep(s, step);
      case MakePool => EmptyHandedStep(s, step);
      case _ => CallCoreStep(s, step);
    }
  }

  /** Steps of a call that leave the pool alone. */
  predicate LoneCallStep(step: Step) {
    || step.Arrive? || step.GiveUp? || step.DialFails? || step.DialOk? || step.WriteOk? || step.WriteFails?
    || step.ReadReply? || step.ReadMismatch? || step.ReadFails? || step.DeferKeep? || step.DeferClose?
    || step.PushFull?
  }

  lemma CallCoreStep(s: State, step: Step)
    requires Core(s) && Enabled(s, step)
    requires LoneCallStep(step)
    ensures Core(Apply(s, step))
  {
    hide Core, Apply, Enabled;
    if BareStep(s, step) {
      BareCoreStep(s, step);
    } else {
      HeldCoreStep(s, step);
    }
  }

  /** A step of a call that has no connection before or after it. */
  predicate BareStep(s: State, step: Step)
    requires Enabled(s, step) && LoneCallStep(step)
  {
    step.Arrive? || step.GiveUp? || step.DialFails?
    || ((step.DeferKeep? || step.PushFull?) && s.calls[step.c].conn == None)
  }

  lemma BareCoreStep(s: State, step: Step)
    requires Core(s) && Enabled(s, step) && LoneCallStep(step) && BareStep(s, step)
    ensures Core(Apply(s, step))
  {
    var c := step.c;
    assert c in s.calls ==> ResultOwn(s, c, ResultOf(s.calls[c]));
    hide Core;
    BareCallStep(s, Apply(s, step), c, Apply(s, step).calls[c]);
  }

  lemma HeldCoreStep(s: State, step: Step)
    requires Core(s) && Enabled(s, step) && LoneCallStep(step) && !BareStep(s, step)
    ensures Core(Apply(s, step))
  {
    hide Core, Apply, Enabled, BareStep;
    if step.DialOk? || step.WriteOk? || step.WriteFails? {
      WriteCoreStep(s, step);
    } else {
      ReadCoreStep(s, step);
    }
  }

  lemma WriteCoreStep(s: State, step: Step)
    requires Core(s) && Enabled(s, step) && (step.DialOk? || step.WriteOk? || step.WriteFails?)
    ensures Core(Apply(s, step))
  {
    HeldTalk(s, step.c);
    hide Core;
    var t := Apply(s, step);
    var x := if step.DialOk? then step.x else CallConn(s, step.c).value;
    CallStep(s, t, step.c, t.calls[step.c], x, t.links[x]);
  }

  lemma ReadCoreStep(s: State, step: Step)
    requires Core(s) && Enabled(s, step) && LoneCallStep(step) && !BareStep(s, step)
    requires !step.DialOk? && !step.WriteOk? && !step.WriteFails?
    ensures Core(Apply(s, step))
  {
    HeldTalk(s, step.c);
    hide Core;
    var t := Apply(s, step);
    var x := CallConn(s, step.c).value;
    CallStep(s, t, step.c, t.calls[step.c], x, t.links[x]);
  }

  /** What a call knows about its own connection. */
  lemma HeldTalk(s: State, c: Call)
    requires Core(s) && c in s.calls
    ensures ResultOwn(s, c, ResultOf(s.calls[c])) && c in s.ids
    ensures CallConn(s, c).Some? ==>
              var x := CallConn(s, c).value;
              PlaceIs(s, x, WithCall(c)) && (if s.calls[c].Written? then OneOut(s.links[x], c) else Quiet(s.links[x]))
  {
    if CallConn(s, c).Some? {
      assert PlaceIs(s, CallConn(s, c).value, WithCall(c));
      assert LinkTraffic(s, s.links[CallConn(s, c).value]);
    }
  }

  /** A call step that keeps or never had its slot. */
  lemma SlotsCall(s: State, t: State, c: Call, p: Phase)
    requires Slots(s) && t.filled == s.filled && t.drained == s.drained && t.pool == s.pool && t.closers == s.closers
    requires t.calls == s.calls[c := p] && Holds(p) == (c in s.calls && Holds(s.calls[c]))
    ensures Slots(t)
  {
    assert InFlight(t) == InFlight(s) && Handed(t) == Handed(s);
  }

  /** A Close step with an empty hand. */
  lemma SlotsCloser(s: State, t: State, k: Closer, d: Drain)
    requires Slots(s) && t.filled == s.filled && t.drained == s.drained && t.pool == s.pool && t.calls == s.calls
    requires t.closers == s.closers[k := d] && HandOf(d) == None && Hand(s, k) == None
    ensures Slots(t)
  {
    assert InFlight(t) == InFlight(s) && Handed(t) == Handed(s);
  }

  lemma SlotsTake(s: State, t: State, c: Call, p: Phase)
    requires Slots(s) && c in s.calls && !Holds(s.calls[c]) && Holds(p) && s.filled == SLOTS && s.pool != []
    requires t.filled == s.filled && t.drained == s.drained && |t.pool| == |s.pool| - 1 && t.closers == s.closers
    requires t.calls == s.calls[c := p]
    ensures Slots(t)
  {
    assert InFlight(t) == InFlight(s) + {c} && Handed(t) == Handed(s);
  }

  lemma SlotsPush(s: State, t: State, c: Call, p: Phase)
    requires Slots(s) && c in s.calls && Holds(s.calls[c]) && !Holds(p)
    requires t.filled == s.filled && t.drained == s.drained && |t.pool| == |s.pool| + 1 && t.closers == s.closers
    requires t.calls == s.calls[c := p]
    ensures Slots(t)
  {
    assert InFlight(t) == InFlight(s) - {c} && Handed(t) == Handed(s);
  }

  /** While a call holds a slot the pool has room: the put-back never finds it full. */
  lemma PoolHasRoom(s: State, c: Call)
    requires Slots(s) && c in s.calls && Holds(s.calls[c])
    ensures |s.pool| < SLOTS
  {
    assert c in InFlight(s);
  }

  lemma SlotsCloseTake(s: State, t: State, k: Closer, x: Option<Conn>)
    requires Slots(s) && k in s.closers && Hand(s, k) == None && s.pool != []
    requires t.filled == s.filled && t.drained == s.drained + 1 && t.pool == s.pool[1..] && t.calls == s.calls
    requires t.closers == s.closers[k := Draining(x)]
    ensures Slots(t)
  {
    assert Handed(t) == if x.Some? then Handed(s) + {k} else Handed(s);
    assert InFlight(t) == InFlight(s);
  }

  lemma SlotsCloseHand(s: State, t: State, k: Closer)
    requires Slots(s) && k in s.closers
    requires t.filled == s.filled && t.drained == s.drained && t.pool == s.pool && t.calls == s.calls
    requires t.closers == s.closers[k := Draining(None)]
    ensures Slots(t)
  {
    assert Handed(t) == Handed(s) - {k};
    assert InFlight(t) == InFlight(s);
  }

  lemma SlotsFill(s: State)
    requires Slots(s) && Enabled(s, Fill)
    ensures Slots(Apply(s, Fill))
  {
    assert InFlight(Apply(s, Fill)) == InFlight(s) && Handed(Apply(s, Fill)) == Handed(s);
  }

  lemma PushFullNever(s: State, c: Call)
    requires Slots(s)
    ensures !Enabled(s, PushFull(c))
  {
    if c in s.calls && s.calls[c].Pushing? {
      PoolHasRoom(s, c);
    }
  }

  lemma SlotsStep(s: State, step: Step)
    requires Slots(s) && Enabled(s, step)
    ensures Slots(Apply(s, step))
  {
    hide Slots, Enabled, Apply;
    if step.PushFull? {
      PushFullNever(s, step.c);
      assert false;
    } else if LoneCallStep(step) {
      SlotsCallStep(s, step, Apply(s, step));
    } else if step.Take? || step.Push? || step.Fill? || step.MakePool? || step.Respond? {
      SlotsPoolStep(s, step, Apply(s, step));
    } else {
      SlotsCloseStep(s, step, Apply(s, step));
    }
  }

  lemma SlotsPoolStep(s: State, step: Step, t: State)
    requires Slots(s) && Enabled(s, step) && t == Apply(s, step)
    requires step.Take? || step.Push? || step.Fill? || step.MakePool? || step.Respond?
    ensures Slots(t)
  {
    hide Slots;
    match step {
      case Take(c) => SlotsTake(s, t, c, t.calls[c]);
      case Push(c) => SlotsPush(s, t, c, t.calls[c]);
      case Fill => SlotsFill(s);
      case MakePool => SlotsSame(s, t);
      case Respond(_, _, _) => SlotsSame(s, t);
    }
  }

  lemma SlotsCloseStep(s: State, step: Step, t: State)
    requires Slots(s) && Enabled(s, step) && t == Apply(s, step)
    requires step.CloseStart? || step.CloseCheck? || step.CloseTake? || step.CloseHand? || step.CloseEnd?
    ensures Slots(t)
  {
    hide Slots;
    match step {
      case CloseTake(k) => SlotsCloseTake(s, t, k, s.pool[0]);
      case CloseHand(k) => SlotsCloseHand(s, t, k);
      case CloseStart(k) => SlotsCloser(s, t, k, FlagSet);
      case CloseCheck(k) => SlotsCloser(s, t, k, t.closers[k]);
      case CloseEnd(k) => SlotsCloser(s, t, k, Done);
    }
  }

  lemma SlotsCallStep(s: State, step: Step, t: State)
    requires Slots(s) && Enabled(s, step) && t == Apply(s, step)
    requires LoneCallStep(step) && !step.PushFull?
    ensures Slots(t)
  {
    hide Slots;
    SlotsCall(s, t, step.c, t.calls[step.c]);
  }

  lemma SlotsSame(s: State, t: State)
    requires Slots(s) && t.filled == s.filled && t.drained == s.drained && t.pool == s.pool
    requires t.calls == s.calls && t.closers == s.closers
    ensures Slots(t)
  {
    assert InFlight(t) == InFlight(s) && Handed(t) == Handed(s);
  }

  lemma StepKeepsInv(s: State, step: Step)
    requires Inv(s) && Enabled(s, step)
    ensures Inv(Apply(s, step))
  {
    CoreStep(s, step);
    SlotsStep(s, step);
  }

  lemma RunKeepsInv(a: State, steps: seq<Step>, b: State)
    requires Inv(a) && Executes(a, steps, b)
    ensures Inv(b)
  {
    hide Inv, Apply, Enabled;
    forall s, step, t | Inv(s) && Next(s, step, t)
      ensures Inv(t)
    {
      StepKeepsInv(s, step);
    }
    Runs.Keeps(Next, Inv, a, steps, b);
  }

  lemma InitInv()
    ensures Inv(Init())
  {
    assert InFlight(Init()) == {} && Handed(Init()) == {};
  }

  lemma ReachableInv(s: State)
    requires Reachable(s)
    ensures Inv(s)
  {
    var steps :| Executes(Init(), steps, s);
    InitInv();
    RunKeepsInv(Init(), steps, s);
  }

  // ---------------------------------------------------------------- results

  /** A reply returned by a call answers that call's own request under its own ID, whatever was
      reused, retried, failed or mismatched before. */
  lemma ReplyIsOwn(s: State, c: Call)
    requires Reachable(s) && c in s.calls && s.calls[c].Finished? && s.calls[c].result.Reply?
    ensures s.calls[c].result.msg.answers == c
    ensures c in s.ids && s.calls[c].result.msg.id == s.ids[c]
  {
    ReachableInv(s);
    assert ResultOwn(s, c, ResultOf(s.calls[c]));
  }

  /** A pooled connection has no request unanswered and no response unread. */
  lemma PooledIsQuiet(s: State, i: nat)
    requires Reachable(s) && i < |s.pool| && s.pool[i].Some?
    ensures s.pool[i].value in s.links && Quiet(s.links[s.pool[i].value])
  {
    ReachableInv(s);
    assert PlaceIs(s, s.pool[i].value, InPool);
    assert LinkTraffic(s, s.links[s.pool[i].value]);
  }

  /** Once the pool is filled its slots are pooled, in flight or drained, ten in all; and the
      put-back never finds the pool full. */
  lemma SlotConservation(s: State)
    requires Reachable(s)
    ensures s.filled == SLOTS ==> |s.pool| + |InFlight(s)| + s.drained == SLOTS
    ensures forall c :: !Enabled(s, PushFull(c))
  {
    ReachableInv(s);
    forall c
      ensures !Enabled(s, PushFull(c))
    {
      if c in s.calls && Holds(s.calls[c]) {
        PoolHasRoom(s, c);
      }
    }
  }

  /** Every dialled connection is in exactly one pool slot, one running call or one Close's hand
      while it is open, and in none of them once closed. */
  lemma OnePlace(s: State, x: Conn)
    requires Reachable(s) && x in s.links
    ensures Some(x) in s.pool <==> s.links[x].place == InPool
    ensures forall i, j :: 0 <= i < j < |s.pool| ==> !(s.pool[i] == s.pool[j] == Some(x))
    ensures forall c :: CallConn(s, c) == Some(x) <==> s.links[x].place == WithCall(c)
    ensures forall k :: Hand(s, k) == Some(x) <==> s.links[x].place == WithCloser(k)
  {
    ReachableInv(s);
    if Some(x) in s.pool {
      var i :| 0 <= i < |s.pool| && s.pool[i] == Some(x);
      assert PlaceIs(s, s.pool[i].value, InPool);
    }
    assert s.links[x].place == InPool ==> PlaceIs(s, x, InPool);
    forall c
      ensures CallConn(s, c) == Some(x) <==> s.links[x].place == WithCall(c)
    {
      assert PlaceIs(s, x, WithCall(c)) <==> s.links[x].place == WithCall(c);
    }
    forall k
      ensures Hand(s, k) == Some(x) <==> s.links[x].place == WithCloser(k)
    {
      assert PlaceIs(s, x, WithCloser(k)) <==> s.links[x].place == WithCloser(k);
    }
  }

  /** The connection whose Close a step calls. */
  function ClosedBy(s: State, step: Step): Option<Conn> {
    match step
    case WriteFails(c, _) => CallConn(s, c)
    case ReadMismatch(c) => CallConn(s, c)
    case ReadFails(c) => CallConn(s, c)
    case DeferClose(c) => CallConn(s, c)
    case PushFull(c) => CallConn(s, c)
    case CloseHand(k) => Hand(s, k)
    case _ => None
  }

  /** A connection a step moves is where the step takes it from. */
  lemma MovedFrom(s: State, step: Step, x: Conn)
    requires Places(s) && Enabled(s, step)
    ensures (step.Take? || step.CloseTake?) && s.pool[0] == Some(x) ==> PlaceIs(s, x, InPool)
    ensures step.CloseHand? && Hand(s, step.k) == Some(x) ==> PlaceIs(s, x, WithCloser(step.k))
    ensures (LoneCallStep(step) || step.Push?) && CallConn(s, step.c) == Some(x) ==> PlaceIs(s, x, WithCall(step.c))
  {
    if (step.Take? || step.CloseTake?) && s.pool[0] == Some(x) {
      assert PlaceIs(s, s.pool[0].value, InPool);
    }
  }

  /** How a step changes the place of one connection. */
  ghost predicate ClosesOnce(s: State, step: Step, x: Conn)
    requires Enabled(s, step) && x in s.links
  {
    && (ClosedBy(s, step) == Some(x) ==> s.links[x].place != ClosedDown)
    && x in Apply(s, step).links
    && (Apply(s, step).links[x].place == ClosedDown <==> s.links[x].place == ClosedDown || ClosedBy(s, step) == Some(x))
  }

  lemma CallClosesOnce(s: State, step: Step, x: Conn)
    requires Enabled(s, step) && x in s.links && (LoneCallStep(step) || step.Push?)
    requires CallConn(s, step.c) == Some(x) ==> PlaceIs(s, x, WithCall(step.c))
    ensures ClosesOnce(s, step, x)
  {
    hide Enabled, Apply, ClosesOnce;
    if DialStep(step) {
      DialClosesOnce(s, step, x);
    } else if step.WriteOk? || step.WriteFails? || step.ReadReply? || step.ReadMismatch? || step.ReadFails? {
      TalkClosesOnce(s, step, x);
    } else {
      LeaveClosesOnce(s, step, x);
    }
  }

  predicate DialStep(step: Step) {
    step.Arrive? || step.GiveUp? || step.DialFails? || step.DialOk?
  }

  lemma DialClosesOnce(s: State, step: Step, x: Conn)
    requires Enabled(s, step) && x in s.links && DialStep(step)
    ensures ClosesOnce(s, step, x)
  {
  }

  lemma TalkClosesOnce(s: State, step: Step, x: Conn)
    requires Enabled(s, step) && x in s.links
    requires step.WriteOk? || step.WriteFails? || step.ReadReply? || step.ReadMismatch? || step.ReadFails?
    requires CallConn(s, step.c) == Some(x) ==> PlaceIs(s, x, WithCall(step.c))
    ensures ClosesOnce(s, step, x)
  {
  }

  lemma LeaveClosesOnce(s: State, step: Step, x: Conn)
    requires Enabled(s, step) && x in s.links
    requires step.DeferKeep? || step.DeferClose? || step.Push? || step.PushFull?
    requires CallConn(s, step.c) == Some(x) ==> PlaceIs(s, x, WithCall(step.c))
    ensures ClosesOnce(s, step, x)
  {
  }

  lemma OtherClosesOnce(s: State, step: Step, x: Conn)
    requires Enabled(s, step) && x in s.links && !LoneCallStep(step) && !step.Push?
    requires (step.Take? || step.CloseTake?) && s.pool[0] == Some(x) ==> PlaceIs(s, x, InPool)
    requires step.CloseHand? && Hand(s, step.k) == Some(x) ==> PlaceIs(s, x, WithCloser(step.k))
    ensures ClosesOnce(s, step, x)
  {
  }

  /** No connection is closed twice: a step closes only an open one, and closed stays closed. */
  lemma NotClosedTwice(s: State, step: Step, x: Conn)
    requires Reachable(s) && Enabled(s, step) && x in s.links
    ensures ClosesOnce(s, step, x)
  {
    ReachableInv(s);
    MovedFrom(s, step, x);
    hide Inv, Reachable, ClosesOnce;
    if LoneCallStep(step) || step.Push? {
      CallClosesOnce(s, step, x);
    } else {
      OtherClosesOnce(s, step, x);
    }
  }

  // ---------------------------------------------------------------- at most ten open

  function Open(s: State): set<Conn> {
    set x | x in s.links && s.links[x].place != ClosedDown
  }

  lemma {:induction false} ValuesOf(xs: seq<Option<Conn>>) returns (vs: set<Conn>)
    ensures |vs| <= |xs| && forall x :: Some(x) in xs ==> x in vs
    decreases |xs|
  {
    if xs == [] {
      vs := {};
    } else {
      var init := xs[..|xs| - 1];
      var rest := ValuesOf(init);
      vs := if xs[|xs| - 1].Some? then rest + {xs[|xs| - 1].value} else rest;
      forall x | Some(x) in xs
        ensures x in vs
      {
        assert xs == init + [xs[|xs| - 1]];
      }
    }
  }

  lemma {:induction false} ConnsOfCalls(s: State, cs: set<Call>) returns (vs: set<Conn>)
    ensures |vs| <= |cs| && forall c :: c in cs && CallConn(s, c).Some? ==> CallConn(s, c).value in vs
    decreases cs
  {
    if cs == {} {
      vs := {};
    } else {
      var c := Sets.Take(cs);
      var rest := ConnsOfCalls(s, cs - {c});
      vs := if CallConn(s, c).Some? then rest + {CallConn(s, c).value} else rest;
    }
  }

  lemma {:induction false} ConnsOfHands(s: State, ks: set<Closer>) returns (vs: set<Conn>)
    ensures |vs| <= |ks| && forall k :: k in ks && Hand(s, k).Some? ==> Hand(s, k).value in vs
    decreases ks
  {
    if ks == {} {
      vs := {};
    } else {
      var k := Sets.Take(ks);
      var rest := ConnsOfHands(s, ks - {k});
      vs := if Hand(s, k).Some? then rest + {Hand(s, k).value} else rest;
    }
  }

  /** At most ten connections are open at any time. */
  lemma AtMostTenOpen(s: State)
    requires Reachable(s)
    ensures |Open(s)| <= SLOTS
  {
    ReachableInv(s);
    var pooled := ValuesOf(s.pool);
    var called := ConnsOfCalls(s, InFlight(s));
    var handed := ConnsOfHands(s, Handed(s));
    forall x | x in Open(s)
      ensures x in pooled + called + handed
    {
      OnePlace(s, x);
      match s.links[x].place {
        case InPool =>
        case WithCall(c) => assert CallConn(s, c) == Some(x) && c in InFlight(s);
        case WithCloser(k) => assert Hand(s, k) == Some(x) && k in Handed(s);
        case ClosedDown => assert false;
      }
    }
    Sets.SubsetSize(Open(s), pooled + called + handed);
  }

  // ---------------------------------------------------------------- a limit of Close

  lemma ReachableStep(s: State, step: Step) returns (t: State)
    requires Reachable(s) && Enabled(s, step)
    ensures t == Apply(s, step) && Reachable(t)
  {
    var steps :| Executes(Init(), steps, s);
    hide Apply, Enabled;
    Runs.Snoc(Next, Init(), steps, s, step, Apply(s, step));
    assert Executes(Init(), steps + [step], Apply(s, step));
    t := Apply(s, step);
  }

  lemma {:induction false} FilledPool(n: nat) returns (s: State)
    requires n <= SLOTS
    ensures Reachable(s) && s == Init().(made := true, filled := n, pool := seq(n, (_: int) => None))
  {
    hide Reachable, Executes;
    if n == 0 {
      assert Reachable(Init()) by { InitReachable(); }
      s := ReachableStep(Init(), MakePool);
      assert s.pool == seq(0, (_: int) => None);
    } else {
      s := FilledPool(n - 1);
      s := ReachableStep(s, Fill);
      assert s.pool == seq(n, (_: int) => None);
    }
  }

  lemma InitReachable()
    ensures Reachable(Init())
  {
    assert Executes(Init(), [], Init());
  }

  /** A Close takes any number of empty slots out of the pool. */
  lemma {:induction false} DrainEmptySlots(s: State, k: Closer) returns (t: State)
    requires Reachable(s) && k in s.closers && s.closers[k] == Draining(None)
    requires forall i :: 0 <= i < |s.pool| ==> s.pool[i] == None
    ensures Reachable(t) && t == s.(pool := [], drained := s.drained + |s.pool|)
    decreases |s.pool|
  {
    hide Reachable, Executes;
    if s.pool == [] {
      t := s;
    } else {
      t := ReachableStep(s, CloseTake(k));
      assert t.closers == s.closers;
      t := DrainEmptySlots(t, k);
    }
  }

  /** Call 0 with a fresh connection and its reply, past its closed check. */
  lemma CallPastCheck() returns (s: State)
    ensures Reachable(s) && !s.closed && s.made && s.closers == map[] && |s.pool| == 9
    ensures forall i :: 0 <= i < |s.pool| ==> s.pool[i] == None
    ensures s.calls == map[0 := Pushing(Some(7), Reply(Msg(0, 1)))] && 7 in s.links && s.links[7].place == WithCall(0)
  {
    hide Reachable, Executes;
    s := FilledPool(SLOTS);
    s := ReachableStep(s, Arrive(0, 1));
    s := ReachableStep(s, Take(0));
    s := ReachableStep(s, DialOk(0, 7));
    s := ReachableStep(s, WriteOk(0));
    s := ReachableStep(s, Respond(7, 0, 1));
    assert s.links[7].inbox == [Msg(0, 1)];
    s := ReachableStep(s, ReadReply(0));
    s := ReachableStep(s, DeferKeep(0));
    assert s.calls == map[0 := Pushing(Some(7), Reply(Msg(0, 1)))];
  }

  /** The pool drained while that call is on its way back. */
  lemma DrainedBeforePush() returns (s: State)
    ensures Reachable(s) && s.closers == map[0 := Draining(None)] && s.pool == []
    ensures s.calls == map[0 := Pushing(Some(7), Reply(Msg(0, 1)))] && 7 in s.links
  {
    s := CallPastCheck();
    hide Reachable, Executes;
    s := ReachableStep(s, CloseStart(0));
    s := ReachableStep(s, CloseCheck(0));
    assert s.closers == map[0 := Draining(None)];
    s := DrainEmptySlots(s, 0);
  }

  /** A connection can be open in the pool after Close has returned: its call passed the closed
      check before Close and put it back after the drain. */
  lemma OpenAfterClose()
    ensures exists s, x :: Reachable(s) && s.closers == map[0 := Done] && s.pool == [Some(x)] && PlaceIs(s, x, InPool)
  {
    var s := DrainedBeforePush();
    hide Reachable, Executes;
    s := ReachableStep(s, CloseEnd(0));
    s := ReachableStep(s, Push(0));
    assert s.pool == [Some(7)] && PlaceIs(s, 7, InPool);
    assert s.closers == map[0 := Done];
  }

  predicate PastCheck(p: Phase) {
    p.Pushing? && p.conn.Some?
  }

  /** Closed, no connection in the pool, and no call on its way back with one. */
  ghost predicate Sealed(s: State) {
    && s.closed
    && (forall i :: 0 <= i < |s.pool| ==> s.pool[i] == None)
    && (forall c :: c in s.calls ==> !PastCheck(s.calls[c]))
  }

  /** After the flag is set no step takes a call past the closed check with a connection. */
  lemma NewPhase(s: State, step: Step, c: Call)
    requires Enabled(s, step) && s.closed
    requires c in Apply(s, step).calls && PastCheck(Apply(s, step).calls[c])
    ensures c in s.calls && PastCheck(s.calls[c])
  {
    if LoneCallStep(step) {
      OwnPhase(s, step, c);
    }
  }

  lemma OwnPhase(s: State, step: Step, c: Call)
    requires Enabled(s, step) && s.closed && LoneCallStep(step)
    requires c in Apply(s, step).calls && PastCheck(Apply(s, step).calls[c])
    ensures c in s.calls && PastCheck(s.calls[c])
  {
  }

  lemma NewSlot(s: State, step: Step, i: nat)
    requires Enabled(s, step) && i < |Apply(s, step).pool| && Apply(s, step).pool[i].Some?
    ensures Apply(s, step).pool[i] in s.pool || (step.Push? && PastCheck(s.calls[step.c]))
  {
  }

  lemma SealedStep(s: State, step: Step)
    requires Sealed(s) && Enabled(s, step)
    ensures Sealed(Apply(s, step))
  {
    var t := Apply(s, step);
    assert t.closed;
    hide Apply, PastCheck;
    forall c | c in t.calls
      ensures !PastCheck(t.calls[c])
    {
      if PastCheck(t.calls[c]) {
        NewPhase(s, step, c);
        assert false;
      }
    }
    forall i | 0 <= i < |t.pool|
      ensures t.pool[i] == None
    {
      if t.pool[i].Some? {
        NewSlot(s, step, i);
        assert false;
      }
    }
  }

  lemma SealedRun(a: State, steps: seq<Step>, b: State)
    requires Sealed(a) && Executes(a, steps, b)
    ensures Sealed(b)
  {
    hide Sealed, Apply, Enabled;
    forall s, step, t | Sealed(s) && Next(s, step, t)
      ensures Sealed(t)
    {
      SealedStep(s, step);
    }
    Runs.Keeps(Next, Sealed, a, steps, b);
  }

  /** Some run puts an open connection into the pool. */
  ghost predicate PoolsAgain(s: State) {
    exists steps, t, x :: Executes(s, steps, t) && Some(x) in t.pool && PlaceIs(t, x, InPool)
  }

  /** After the pool of a closed client was drained, a connection is ever pooled again, in any
      continuation, exactly when some call is past its closed check with one. */
  lemma OpenAfterCloseIff(s: State)
    requires Reachable(s) && s.closed && forall i :: 0 <= i < |s.pool| ==> s.pool[i] == None
    ensures PoolsAgain(s) <==> exists c :: c in s.calls && PastCheck(s.calls[c])
  {
    if c :| c in s.calls && PastCheck(s.calls[c]) {
      PushedAgain(s, c);
    } else {
      if PoolsAgain(s) {
        var steps, t, x :| Executes(s, steps, t) && Some(x) in t.pool && PlaceIs(t, x, InPool);
        SealedRun(s, steps, t);
        assert false;
      }
    }
  }

  lemma PushedAgain(s: State, c: Call)
    requires Reachable(s) && c in s.calls && PastCheck(s.calls[c])
    ensures PoolsAgain(s)
  {
    ReachableInv(s);
    PoolHasRoom(s, c);
    HeldTalk(s, c);
    var x := s.calls[c].conn.value;
    var t := Apply(s, Push(c));
    assert t.pool[|s.pool|] == Some(x) && PlaceIs(t, x, InPool);
    Runs.Snoc(Next, s, [], s, Push(c), t);
    assert Executes(s, [] + [Push(c)], t);
  }

  // ---------------------------------------------------------------- why a call fails, and that it retries

  predicate IsWriteFailure(step: Step, c: Call) {
    step.WriteFails? && step.c == c
  }

  ghost predicate WriteFailed(steps: seq<Step>, c: Call) {
    exists i :: 0 <= i < |steps| && IsWriteFailure(steps[i], c)
  }

  ghost predicate WriteFailedTwice(steps: seq<Step>, c: Call) {
    exists i, j :: 0 <= i < j < |steps| && IsWriteFailure(steps[i], c) && IsWriteFailure(steps[j], c)
  }

  /** What may end a call without a reply. */
  ghost predicate Excused(steps: seq<Step>, c: Call) {
    || GiveUp(c) in steps || DialFails(c) in steps || ReadMismatch(c) in steps || ReadFails(c) in steps
    || WriteFailedTwice(steps, c)
  }

  predicate Left(p: Phase) {
    p.Leaving? || p.Pushing? || p.Finished?
  }

  /** What the steps so far say about the phase of one call. */
  ghost predicate Explains(steps: seq<Step>, c: Call, p: Phase) {
    && (p.Slotted? && p.retried ==> WriteFailed(steps, c))
    && (Left(p) && ResultOf(p) == Error ==> Excused(steps, c) && ReadReply(c) !in steps)
    && (Left(p) && ResultOf(p).Reply? ==> ReadReply(c) in steps)
    && (!Left(p) ==> ReadReply(c) !in steps)
  }

  ghost predicate Explained(steps: seq<Step>, s: State) {
    && (forall c :: c in s.calls ==> Explains(steps, c, s.calls[c]))
    && (forall c :: c !in s.calls ==> ReadReply(c) !in steps)
  }

  lemma MoreSteps(steps: seq<Step>, step: Step, c: Call)
    ensures WriteFailed(steps, c) ==> WriteFailed(steps + [step], c)
    ensures Excused(steps, c) ==> Excused(steps + [step], c)
    ensures IsWriteFailure(step, c) ==> WriteFailed(steps + [step], c)
    ensures IsWriteFailure(step, c) && WriteFailed(steps, c) ==> WriteFailedTwice(steps + [step], c)
    ensures forall x :: x in steps + [step] <==> x in steps || x == step
  {
    var all := steps + [step];
    assert forall i :: 0 <= i < |steps| ==> all[i] == steps[i];
    assert all[|steps|] == step;
    if WriteFailedTwice(steps, c) {
      var i, j :| 0 <= i < j < |steps| && IsWriteFailure(steps[i], c) && IsWriteFailure(steps[j], c);
      assert IsWriteFailure(all[i], c) && IsWriteFailure(all[j], c);
    }
    if WriteFailed(steps, c) {
      var i :| 0 <= i < |steps| && IsWriteFailure(steps[i], c);
      assert IsWriteFailure(all[i], c);
    }
  }

  /** Steps of other calls leave this one's phase alone. */
  lemma OtherPhase(s: State, step: Step, c: Call)
    requires Enabled(s, step)
    requires if LoneCallStep(step) || step.Take? || step.Push? then step.c != c else true
    ensures c in Apply(s, step).calls <==> c in s.calls
    ensures c in s.calls ==> Apply(s, step).calls[c] == s.calls[c]
    ensures step != ReadReply(c) && !IsWriteFailure(step, c)
  {
    hide Apply, Enabled;
    if LoneCallStep(step) {
      if DialStep(step) || TalkStep(step) {
        OtherTalk(s, step, c);
      } else {
        OtherLeave(s, step, c);
      }
    } else {
      OtherPool(s, step, c);
    }
  }

  lemma OtherTalk(s: State, step: Step, c: Call)
    requires Enabled(s, step) && (DialStep(step) || TalkStep(step)) && step.c != c
    ensures c in Apply(s, step).calls <==> c in s.calls
    ensures c in s.calls ==> Apply(s, step).calls[c] == s.calls[c]
  {
  }

  lemma OtherLeave(s: State, step: Step, c: Call)
    requires Enabled(s, step) && (step.DeferKeep? || step.DeferClose? || step.PushFull?) && step.c != c
    ensures c in Apply(s, step).calls <==> c in s.calls
    ensures c in s.calls ==> Apply(s, step).calls[c] == s.calls[c]
  {
  }

  lemma OtherPool(s: State, step: Step, c: Call)
    requires Enabled(s, step) && !LoneCallStep(step) && (step.Take? || step.Push? ==> step.c != c)
    ensures c in Apply(s, step).calls <==> c in s.calls
    ensures c in s.calls ==> Apply(s, step).calls[c] == s.calls[c]
  {
  }

  lemma OwnExplained(steps: seq<Step>, s: State, step: Step)
    requires Explained(steps, s) && Enabled(s, step) && (LoneCallStep(step) || step.Take? || step.Push?)
    ensures step.c in Apply(s, step).calls && Explains(steps + [step], step.c, Apply(s, step).calls[step.c])
  {
    hide Apply, Enabled, Excused, WriteFailed;
    MoreSteps(steps, step, step.c);
    MoreExcuses(steps, step, step.c);
    if DialStep(step) || step.Take? {
      OwnDial(steps, s, step);
    } else if TalkStep(step) {
      OwnTalk(steps, s, step);
    } else {
      OwnLeave(steps, s, step);
    }
  }

  predicate TalkStep(step: Step) {
    step.WriteOk? || step.WriteFails? || step.ReadReply? || step.ReadMismatch? || step.ReadFails?
  }

  lemma MoreExcuses(steps: seq<Step>, step: Step, c: Call)
    ensures step in {GiveUp(c), DialFails(c), ReadMismatch(c), ReadFails(c)} ==> Excused(steps + [step], c)
    ensures IsWriteFailure(step, c) && WriteFailed(steps, c) ==> Excused(steps + [step], c)
  {
    MoreSteps(steps, step, c);
  }

  /** What a step adds to the facts about one call. */
  ghost predicate Adds(steps: seq<Step>, step: Step, c: Call) {
    var all := steps + [step];
    && (WriteFailed(steps, c) ==> WriteFailed(all, c)) && (Excused(steps, c) ==> Excused(all, c))
    && (ReadReply(c) in all <==> ReadReply(c) in steps || step == ReadReply(c))
    && (IsWriteFailure(step, c) ==> WriteFailed(all, c))
    && (step in {GiveUp(c), DialFails(c), ReadMismatch(c), ReadFails(c)} ==> Excused(all, c))
    && (IsWriteFailure(step, c) && WriteFailed(steps, c) ==> Excused(all, c))
  }

  lemma OwnDial(steps: seq<Step>, s: State, step: Step)
    requires Explained(steps, s) && Enabled(s, step) && (DialStep(step) || step.Take?) && Adds(steps, step, step.c)
    ensures step.c in Apply(s, step).calls && Explains(steps + [step], step.c, Apply(s, step).calls[step.c])
  {
    hide Excused, WriteFailed;
    assert step.c in s.calls ==> Explains(steps, step.c, s.calls[step.c]);
  }

  lemma OwnTalk(steps: seq<Step>, s: State, step: Step)
    requires Explained(steps, s) && Enabled(s, step) && TalkStep(step) && Adds(steps, step, step.c)
    ensures step.c in Apply(s, step).calls && Explains(steps + [step], step.c, Apply(s, step).calls[step.c])
  {
    hide Excused, WriteFailed;
    assert Explains(steps, step.c, s.calls[step.c]);
  }

  lemma OwnLeave(steps: seq<Step>, s: State, step: Step)
    requires step.DeferKeep? || step.DeferClose? || step.PushFull? || step.Push?
    requires Explained(steps, s) && Enabled(s, step) && Adds(steps, step, step.c)
    ensures step.c in Apply(s, step).calls && Explains(steps + [step], step.c, Apply(s, step).calls[step.c])
  {
    hide Excused, WriteFailed;
    assert Explains(steps, step.c, s.calls[step.c]);
  }

  lemma ExplainedStep(steps: seq<Step>, s: State, step: Step)
    requires Explained(steps, s) && Enabled(s, step)
    ensures Explained(steps + [step], Apply(s, step))
  {
    var t := Apply(s, step);
    forall c
      ensures c in t.calls ==> Explains(steps + [step], c, t.calls[c])
      ensures c !in t.calls ==> ReadReply(c) !in steps + [step]
    {
      if (LoneCallStep(step) || step.Take? || step.Push?) && step.c == c {
        OwnExplained(steps, s, step);
      } else {
        OtherPhase(s, step, c);
        MoreSteps(steps, step, c);
        hide Apply, Enabled, Excused, WriteFailed;
      }
    }
  }

  /** Over every run: a call that ended without a reply gave up before it had a slot, could not dial,
      failed to read or read a foreign ID, or failed to write twice; and a call ends with a reply
      exactly when it read one. */
  lemma WhyCallsEnd(steps: seq<Step>, s: State, c: Call)
    requires Executes(Init(), steps, s) && c in s.calls && Left(s.calls[c])
    ensures ResultOf(s.calls[c]) == Error ==> Excused(steps, c)
    ensures ResultOf(s.calls[c]).Reply? <==> ReadReply(c) in steps
  {
    var explained := (past: seq<Step>, t: State) => Explained(past, t);
    assert explained([], Init());
    hide Apply, Enabled, Explained;
    forall past, a, step, b | explained(past, a) && Next(a, step, b)
      ensures explained(past + [step], b)
    {
      ExplainedStep(past, a, step);
    }
    Runs.KeepsTrace(Next, explained, Init(), steps, s);
    assert Explained(steps, s);
    CallExplained(steps, s, c);
  }

  lemma CallExplained(steps: seq<Step>, s: State, c: Call)
    requires Explained(steps, s) && c in s.calls
    ensures Explains(steps, c, s.calls[c])
  {
  }

  /** How many failing writes of a call there were. */
  function WriteFailures(steps: seq<Step>, c: Call): nat
    decreases |steps|
  {
    if steps == [] then 0
    else
      var last := |steps| - 1;
      WriteFailures(steps[..last], c) + (if IsWriteFailure(steps[last], c) then 1 else 0)
  }

  /** How many more writes of a call may fail. */
  function WritesLeft(s: State, c: Call): nat {
    if c !in s.calls || s.calls[c].Arrived? then 2
    else if s.calls[c].Slotted? then if s.calls[c].retried then 1 else 2
    else 0
  }

  lemma WritesLeftTalk(s: State, step: Step)
    requires Enabled(s, step) && (DialStep(step) || step.Take? || TalkStep(step))
    ensures WritesLeft(Apply(s, step), step.c) + (if IsWriteFailure(step, step.c) then 1 else 0)
         <= WritesLeft(s, step.c)
  {
  }

  lemma WritesLeftLeave(s: State, step: Step)
    requires Enabled(s, step) && (step.DeferKeep? || step.DeferClose? || step.PushFull? || step.Push?)
    ensures WritesLeft(Apply(s, step), step.c) == 0 && !IsWriteFailure(step, step.c)
  {
  }

  lemma WritesLeftStep(s: State, step: Step, c: Call)
    requires Enabled(s, step)
    ensures WritesLeft(Apply(s, step), c) + (if IsWriteFailure(step, c) then 1 else 0) <= WritesLeft(s, c)
  {
    hide Apply, Enabled;
    if (LoneCallStep(step) || step.Take? || step.Push?) && step.c == c {
      if DialStep(step) || step.Take? || TalkStep(step) {
        WritesLeftTalk(s, step);
      } else {
        WritesLeftLeave(s, step);
      }
    } else {
      OtherPhase(s, step, c);
    }
  }

  lemma NoFailureYet(c: Call)
    ensures WriteFailures([], c) == 0 && WritesLeft(Init(), c) == 2
  {
  }

  lemma OneMoreFailure(past: seq<Step>, step: Step, c: Call)
    ensures WriteFailures(past + [step], c) == WriteFailures(past, c) + (if IsWriteFailure(step, c) then 1 else 0)
  {
    assert (past + [step])[..|past|] == past;
  }

  /** Over every run no call writes more than twice in vain: it is retried once. */
  lemma AtMostTwoWriteFailures(steps: seq<Step>, s: State, c: Call)
    requires Executes(Init(), steps, s)
    ensures WriteFailures(steps, c) <= 2
  {
    var bounded := (past: seq<Step>, t: State) => WriteFailures(past, c) + WritesLeft(t, c) <= 2;
    assert bounded([], Init()) by { NoFailureYet(c); }
    hide Apply, Enabled, WritesLeft, WriteFailures;
    forall past, a, step, b | bounded(past, a) && Next(a, step, b)
      ensures bounded(past + [step], b)
    {
      WritesLeftStep(a, step, c);
      OneMoreFailure(past, step, c);
    }
    Runs.KeepsTrace(Next, bounded, Init(), steps, s);
  }

  /** A slot comes with the connection pooled in it, if any, for the call to write on. */
  lemma TakesPooled(s: State, c: Call)
    requires Enabled(s, Take(c))
    ensures Apply(s, Take(c)).calls[c] == Slotted(s.pool[0], false)
    ensures s.pool[0].Some? ==> Enabled(Apply(s, Take(c)), WriteOk(c))
  {
  }

  /** After a first failed write the call dials again; after a second it leaves. */
  lemma RetriesOnce(s: State, c: Call, delivered: bool)
    requires Enabled(s, WriteFails(c, delivered))
    ensures Enabled(Apply(s, WriteFails(c, delivered)), DialFails(c)) <==> !s.calls[c].retried
    ensures Enabled(Apply(s, WriteFails(c, delivered)), DeferKeep(c)) <==> s.calls[c].retried
  {
  }

  /** A call with a slot and no connection, also one whose first write has failed, gets its reply
      once dialling, writing and the server succeed, and its connection is pooled for the next. */
  lemma DiallingSucceeds(s: State, c: Call, x: Conn) returns (t: State)
    requires Reachable(s) && !s.closed && c in s.calls && s.calls[c].Slotted? && s.calls[c].conn == None
    requires x !in s.links
    ensures Reachable(t) && c in s.ids && t.calls == s.calls[c := Finished(Reply(Msg(c, s.ids[c])))]
    ensures t.pool == s.pool + [Some(x)] && PlaceIs(t, x, InPool)
  {
    hide Reachable, Executes;
    t := ReachableStep(s, DialOk(c, x));
    assert t.links[x] == Link(WithCall(c), [], []);
    t := WritingSucceeds(t, c);
    assert t.calls == s.calls[c := Finished(Reply(Msg(c, s.ids[c])))];
  }

  /** A call with a connection, dialled or taken from the pool, gets its reply over it. */
  lemma WritingSucceeds(s: State, c: Call) returns (t: State)
    requires Reachable(s) && !s.closed && c in s.calls && s.calls[c].Slotted? && s.calls[c].conn.Some?
    ensures Reachable(t) && c in s.ids && t.calls == s.calls[c := Finished(Reply(Msg(c, s.ids[c])))]
    ensures t.pool == s.pool + [s.calls[c].conn] && PlaceIs(t, s.calls[c].conn.value, InPool)
  {
    ReachableInv(s);
    HeldTalk(s, c);
    PoolHasRoom(s, c);
    hide Reachable, Executes, Inv, Core, Slots, Apply, Enabled;
    t := Answered(s, c);
    t := ReadsReply(t, c);
    t := LeavesWithReply(t, c);
    assert t.calls == s.calls[c := Finished(Reply(Msg(c, s.ids[c])))];
  }

  /** The request is written and answered. */
  lemma Answered(s: State, c: Call) returns (t: State)
    requires Reachable(s) && c in s.calls && s.calls[c].Slotted? && s.calls[c].conn.Some? && c in s.ids
    requires s.calls[c].conn.value in s.links && Quiet(s.links[s.calls[c].conn.value])
    ensures Reachable(t) && t.closed == s.closed && t.pool == s.pool && t.ids == s.ids
    ensures var x := s.calls[c].conn.value;
            t.calls == s.calls[c := Written(x)] && x in t.links && t.links[x].inbox == [Msg(c, s.ids[c])]
  {
    var x := s.calls[c].conn.value;
    hide Reachable, Executes;
    t := ReachableStep(s, WriteOk(c));
    assert t.links[x].unanswered == [c] && t.links[x].inbox == [];
    t := ReachableStep(t, Respond(x, 0, s.ids[c]));
    assert t.links[x].inbox == [Msg(c, s.ids[c])];
  }

  lemma ReadsReply(s: State, c: Call) returns (t: State)
    requires Reachable(s) && c in s.calls && s.calls[c].Written? && s.calls[c].link in s.links && c in s.ids
    requires s.links[s.calls[c].link].inbox == [Msg(c, s.ids[c])]
    ensures Reachable(t) && t.closed == s.closed && t.pool == s.pool && s.calls[c].link in t.links
    ensures t.calls == s.calls[c := Leaving(Some(s.calls[c].link), Reply(Msg(c, s.ids[c])))]
  {
    hide Reachable, Executes;
    t := ReachableStep(s, ReadReply(c));
  }

  lemma LeavesWithReply(s: State, c: Call) returns (t: State)
    requires Reachable(s) && !s.closed && c in s.calls && s.calls[c].Leaving? && s.calls[c].conn.Some?
    requires |s.pool| < SLOTS && s.calls[c].conn.value in s.links
    ensures Reachable(t) && t.calls == s.calls[c := Finished(s.calls[c].result)]
    ensures t.pool == s.pool + [s.calls[c].conn] && PlaceIs(t, s.calls[c].conn.value, InPool)
  {
    hide Reachable, Executes;
    t := ReachableStep(s, DeferKeep(c));
    t := ReachableStep(t, Push(c));
    assert t.calls == s.calls[c := Finished(s.calls[c].result)];
  }

  ghost predicate FlagFirst(s: State) {
    s.closers != map[] ==> s.closed
  }

  lemma FlagFirstStep(s: State, step: Step)
    requires FlagFirst(s) && Enabled(s, step)
    ensures FlagFirst(Apply(s, step))
  {
  }

  lemma CloserMeansClosed(s: State)
    requires Reachable(s)
    ensures FlagFirst(s)
  {
    var steps :| Executes(Init(), steps, s);
    assert FlagFirst(Init());
    hide Apply, Enabled, FlagFirst;
    forall a, step, b | FlagFirst(a) && Next(a, step, b)
      ensures FlagFirst(b)
    {
      FlagFirstStep(a, step);
    }
    Runs.Keeps(Next, FlagFirst, Init(), steps, s);
  }

  /** While the client is open a connection is closed only by a failed write, a failed read or a
      foreign ID on it; so a healthy one goes back to the pool. */
  lemma WhyClosed(s: State, step: Step, x: Conn)
    requires Reachable(s) && Enabled(s, step) && x in s.links && s.links[x].place != ClosedDown
    requires x in Apply(s, step).links && Apply(s, step).links[x].place == ClosedDown
    ensures s.closed || step.WriteFails? || step.ReadMismatch? || step.ReadFails?
    ensures step.WriteFails? || step.ReadMismatch? || step.ReadFails? ==> CallConn(s, step.c) == Some(x)
  {
    NotClosedTwice(s, step, x);
    SlotConservation(s);
    CloserMeansClosed(s);
    hide Reachable, Apply, ClosesOnce;
    assert ClosedBy(s, step) == Some(x) by { ClosingStepIs(s, step, x); }
  }

  lemma ClosingStepIs(s: State, step: Step, x: Conn)
    requires Enabled(s, step) && x in s.links && ClosesOnce(s, step, x)
    requires s.links[x].place != ClosedDown && Apply(s, step).links[x].place == ClosedDown
    ensures ClosedBy(s, step) == Some(x)
  {
    hide Apply, Enabled;
  }

  /** When a Close that saw the pool returns, the client is closed and no connection is pooled. */
  lemma NonePooledAtReturn(s: State, k: Closer, x: Conn)
    requires Reachable(s) && Enabled(s, CloseEnd(k))
    ensures s.closed && Apply(s, CloseEnd(k)).closers[k] == Done && !PlaceIs(Apply(s, CloseEnd(k)), x, InPool)
  {
    ReachableInv(s);
    CloserMeansClosed(s);
    hide Reachable;
    assert PlaceIs(s, x, InPool) ==> Some(x) in s.pool;
  }

  /** A Close can always go on by its own steps until it has closed every pooled connection. */
  lemma {:induction false} CloseDrains(s: State, k: Closer) returns (t: State)
    requires Reachable(s) && k in s.closers && s.closers[k] == Draining(None)
    ensures Reachable(t) && t.pool == [] && t.closers == s.closers[k := Done] && t.calls == s.calls
    ensures forall x :: PlaceIs(s, x, InPool) ==> PlaceIs(t, x, ClosedDown)
    ensures forall x, c :: PlaceIs(s, x, WithCall(c)) ==> PlaceIs(t, x, WithCall(c))
    ensures forall x :: PlaceIs(s, x, ClosedDown) ==> PlaceIs(t, x, ClosedDown)
    decreases |s.pool|
  {
    ReachableInv(s);
    if s.pool == [] {
      hide Reachable;
      t := ReachableStep(s, CloseEnd(k));
      assert forall x :: PlaceIs(s, x, InPool) ==> Some(x) in s.pool;
    } else {
      var u := TakesOut(s, k);
      t := CloseDrains(u, k);
    }
  }

  /** One slot taken out of the pool, and its connection closed. */
  lemma TakesOut(s: State, k: Closer) returns (t: State)
    requires Reachable(s) && k in s.closers && s.closers[k] == Draining(None) && s.pool != []
    ensures Reachable(t) && t.pool == s.pool[1..] && t.closers == s.closers && t.calls == s.calls
    ensures forall x :: PlaceIs(s, x, InPool) ==> PlaceIs(t, x, if s.pool[0] == Some(x) then ClosedDown else InPool)
    ensures forall x, c :: PlaceIs(s, x, WithCall(c)) ==> PlaceIs(t, x, WithCall(c))
    ensures forall x :: PlaceIs(s, x, ClosedDown) ==> PlaceIs(t, x, ClosedDown)
  {
    hide Reachable;
    FrontPlace(s);
    var u := ReachableStep(s, CloseTake(k));
    if s.pool[0] == None {
      assert u.closers == s.closers && u.links == s.links;
      t := u;
    } else {
      t := HandClosed(u, k);
      assert t.closers == s.closers;
    }
  }

  lemma FrontPlace(s: State)
    requires Reachable(s) && s.pool != []
    ensures s.pool[0].Some? ==> PlaceIs(s, s.pool[0].value, InPool)
  {
    ReachableInv(s);
  }

  lemma HandClosed(s: State, k: Closer) returns (t: State)
    requires Reachable(s) && k in s.closers && s.closers[k].Draining? && s.closers[k].hand.Some?
    requires s.closers[k].hand.value in s.links
    ensures Reachable(t) && t.pool == s.pool && t.calls == s.calls && t.closers == s.closers[k := Draining(None)]
    ensures var x := s.closers[k].hand.value; t.links == s.links[x := s.links[x].(place := ClosedDown)]
  {
    hide Reachable;
    t := ReachableStep(s, CloseHand(k));
  }

  // ---------------------------------------------------------------- nobody gets stuck

  /** In every reachable state a call that is not finished has a step to take, or the pool is still
      being filled: whatever the server, the other calls and Close do, nothing blocks it for good. */
  lemma CallNeverStuck(s: State, c: Call)
    requires Reachable(s) && c in s.calls && !s.calls[c].Finished?
    ensures match s.calls[c]
            case Arrived => Enabled(s, GiveUp(c)) || Enabled(s, MakePool) || Enabled(s, Fill)
            case Slotted(x, _) => if x == None then Enabled(s, DialFails(c)) else Enabled(s, WriteOk(c))
            case Written(x) =>
              && Enabled(s, ReadFails(c))
              && (s.links[x].inbox != [] ==> Enabled(s, ReadReply(c)) || Enabled(s, ReadMismatch(c)))
            case Leaving(_, _) => Enabled(s, DeferKeep(c)) || Enabled(s, DeferClose(c))
            case Pushing(_, _) => Enabled(s, Push(c))
            case Finished(_) => false
  {
    CallFacts(s, c);
    hide Reachable;
    match s.calls[c] {
      case Arrived => assert Enabled(s, GiveUp(c)) || Enabled(s, if s.made then Fill else MakePool);
      case Slotted(x, _) => assert Enabled(s, if x == None then DialFails(c) else WriteOk(c));
      case Written(x) =>
        assert Enabled(s, ReadFails(c));
        if s.links[x].inbox != [] {
          assert Enabled(s, if s.links[x].inbox[0].id == s.ids[c] then ReadReply(c) else ReadMismatch(c));
        }
      case Leaving(x, _) => assert Enabled(s, if x.Some? && s.closed then DeferClose(c) else DeferKeep(c));
      case Pushing(_, _) => assert Enabled(s, Push(c));
    }
  }

  lemma CallFacts(s: State, c: Call)
    requires Reachable(s) && c in s.calls
    ensures c in s.ids && s.filled <= SLOTS && Known(s, CallConn(s, c))
    ensures Holds(s.calls[c]) ==> |s.pool| < SLOTS
  {
    ReachableInv(s);
    HeldTalk(s, c);
    if Holds(s.calls[c]) {
      PoolHasRoom(s, c);
    }
    hide Core, Reachable;
  }

  /** Bounds the steps a call can still take. */
  function StepsLeft(p: Phase): nat {
    match p
    case Arrived => 8
    case Slotted(x, retried) => (if retried then 4 else 6) + (if x == None then 1 else 0)
    case Written(_) => 3
    case Leaving(_, _) => 2
    case Pushing(_, _) => 1
    case Finished(_) => 0
  }

  /** Every step of a call brings it nearer to its end, so it ends within eight. */
  lemma CallEnds(s: State, step: Step)
    requires Enabled(s, step) && (LoneCallStep(step) || step.Take? || step.Push?)
    ensures step.c in Apply(s, step).calls
    ensures if step.c in s.calls then StepsLeft(Apply(s, step).calls[step.c]) < StepsLeft(s.calls[step.c])
            else StepsLeft(Apply(s, step).calls[step.c]) == 8
  {
    hide Apply, Enabled;
    if DialStep(step) || step.Take? || TalkStep(step) {
      TalkNearsEnd(s, step);
    } else {
      LeaveNearsEnd(s, step);
    }
  }

  lemma TalkNearsEnd(s: State, step: Step)
    requires Enabled(s, step) && (DialStep(step) || step.Take? || TalkStep(step))
    ensures step.c in Apply(s, step).calls
    ensures if step.c in s.calls then StepsLeft(Apply(s, step).calls[step.c]) < StepsLeft(s.calls[step.c])
            else StepsLeft(Apply(s, step).calls[step.c]) == 8
  {
  }

  lemma LeaveNearsEnd(s: State, step: Step)
    requires Enabled(s, step) && (step.DeferKeep? || step.DeferClose? || step.PushFull? || step.Push?)
    ensures step.c in s.calls && step.c in Apply(s, step).calls
    ensures StepsLeft(Apply(s, step).calls[step.c]) < StepsLeft(s.calls[step.c])
  {
  }

  /** A Close that has not returned has a step to take. */
  lemma CloseNeverStuck(s: State, k: Closer)
    requires Reachable(s) && k in s.closers && !s.closers[k].Done?
    ensures Enabled(s, CloseCheck(k)) || Enabled(s, CloseTake(k)) || Enabled(s, CloseHand(k)) || Enabled(s, CloseEnd(k))
  {
    HandKnown(s, k);
    FrontKnown(s);
    hide Reachable;
    match s.closers[k] {
      case FlagSet => assert Enabled(s, CloseCheck(k));
      case Draining(Some(_)) => assert Enabled(s, CloseHand(k));
      case Draining(None) =>
        if s.pool == [] {
          assert Enabled(s, CloseEnd(k));
        } else {
          assert Enabled(s, CloseTake(k));
        }
    }
  }

  lemma FrontKnown(s: State)
    requires Reachable(s)
    ensures s.pool != [] ==> Known(s, s.pool[0])
  {
    if s.pool != [] {
      FrontPlace(s);
    }
  }

  lemma HandKnown(s: State, k: Closer)
    requires Reachable(s)
    ensures Hand(s, k).Some? ==> Hand(s, k).value in s.links
  {
    ReachableInv(s);
    hide Reachable;
    assert Hand(s, k).Some? ==> PlaceIs(s, Hand(s, k).value, WithCloser(k));
  }
}
