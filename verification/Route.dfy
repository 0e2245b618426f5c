/** Route: what the client gets, composed from the races, the policy, the service-binding rewrite
    and the TTL rule for negative answers. */
module Route {
  import opened Dns
  import opened Names
  import opened Options
  import opened Race
  import opened Router
  import opened Text
  import Sequences

  // ---------------------------------------------------------------- the dual path, for every arrival order

  /** No race met its timer or the end of the context. */
  ghost predicate Undisturbed(a: Arrivals) {
    && AllResults(a.cn)
    && AllResults(a.overseas)
    && forall d :: d in a.dual ==> !d.DualDone?
  }

  ghost predicate SomeSuccess(events: seq<Event>) {
    exists e :: e in events && IsSuccess(e)
  }

  ghost predicate SomeMessage(events: seq<Event>) {
    exists e :: e in events && HasMessage(e)
  }

  lemma RaceClass(events: seq<Event>, o: Outcome)
    requires AllResults(events) && IsRace(|events|, events, o)
    ensures o.Success() <==> SomeSuccess(events)
    ensures o.err == None <==> SomeMessage(events)
  {
    if events != [] {
      RaceWithoutExit(events, o);
      if o.Success() {
        var e :| e in events && IsSuccess(e);
        assert HasMessage(e);
      }
    }
  }

  /** The client gets NOERROR exactly when some upstream of either group answered NOERROR, and an
      error exactly when no upstream of either group answered at all. */
  lemma DualSuccessIff(cfg: Config, a: Arrivals, o: Outcome, tag: string)
    requires ValidArrivals(cfg, a) && Undisturbed(a) && IsDual(cfg, a, o, tag)
    ensures o.Success() <==> SomeSuccess(a.cn) || SomeSuccess(a.overseas)
    ensures o.err == None <==> SomeMessage(a.cn) || SomeMessage(a.overseas)
  {
    assert a.dual[0] in a.dual && a.dual[1] in a.dual;
    var overseas, cn :|
      && IsRace(cfg.overseasClients, a.overseas, overseas)
      && IsRace(cfg.cnClients, a.cn, cn)
      && DualChoice(cfg, overseas, cn, o);
    RaceClass(a.overseas, overseas);
    RaceClass(a.cn, cn);
  }

  /** The same upstream results in any other order, inside the races and between them, give the
      same class of answer. */
  lemma DualOrderIndependent(cfg: Config, a: Arrivals, b: Arrivals, oa: Outcome, ob: Outcome, ta: string, tb: string)
    requires ValidArrivals(cfg, a) && Undisturbed(a) && IsDual(cfg, a, oa, ta)
    requires ValidArrivals(cfg, b) && Undisturbed(b) && IsDual(cfg, b, ob, tb)
    requires multiset(a.cn) == multiset(b.cn) && multiset(a.overseas) == multiset(b.overseas)
    ensures ClassOf(oa) == ClassOf(ob)
  {
    DualSuccessIff(cfg, a, oa, ta);
    DualSuccessIff(cfg, b, ob, tb);
    SameMembers(a.cn, b.cn);
    SameMembers(a.overseas, b.overseas);
    DualProper(cfg, a, oa, ta);
    DualProper(cfg, b, ob, tb);
  }

  lemma SameMembers<T>(a: seq<T>, b: seq<T>)
    requires multiset(a) == multiset(b)
    ensures forall e :: e in a <==> e in b
  {
    forall e
      ensures e in a <==> e in b
    {
      assert e in a <==> e in multiset(a);
      assert e in b <==> e in multiset(b);
    }
  }

  // ---------------------------------------------------------------- results are determined up to error texts

  lemma RaceProper(clients: nat, events: seq<Event>, o: Outcome)
    requires |events| == clients && IsRace(clients, events, o)
    ensures o.Proper()
  {
  }

  lemma DualProper(cfg: Config, a: Arrivals, o: Outcome, tag: string)
    requires ValidArrivals(cfg, a) && IsDual(cfg, a, o, tag)
    ensures o.Proper()
  {
    if !a.dual[0].DualDone? && !a.dual[1].DualDone? {
      var overseas, cn :|
        && IsRace(cfg.overseasClients, a.overseas, overseas)
        && IsRace(cfg.cnClients, a.cn, cn)
        && DualChoice(cfg, overseas, cn, o);
      RaceProper(cfg.overseasClients, a.overseas, overseas);
      RaceProper(cfg.cnClients, a.cn, cn);
    }
  }

  /** Equal but for the text of the error. */
  predicate Alike(a: Outcome, b: Outcome) {
    a.resp == b.resp && (a.err == None <==> b.err == None)
  }

  lemma RaceDetermined(clients: nat, events: seq<Event>, a: Outcome, b: Outcome)
    requires |events| == clients && IsRace(clients, events, a) && IsRace(clients, events, b)
    ensures Alike(a, b)
  {
  }

  lemma ChoiceAlike(cfg: Config, overseas: Outcome, cn: Outcome, o: Outcome,
                    overseas': Outcome, cn': Outcome, o': Outcome)
    requires Alike(overseas, overseas') && Alike(cn, cn')
    requires DualChoice(cfg, overseas, cn, o) && DualChoice(cfg, overseas', cn', o')
    ensures Alike(o, o') && DualTag(cfg, overseas, cn) == DualTag(cfg, overseas', cn')
  {
  }

  lemma DualDetermined(cfg: Config, a: Arrivals, o: Outcome, tag: string, o': Outcome, tag': string)
    requires ValidArrivals(cfg, a) && IsDual(cfg, a, o, tag) && IsDual(cfg, a, o', tag')
    ensures Alike(o, o') && tag == tag'
  {
    if !a.dual[0].DualDone? && !a.dual[1].DualDone? {
      var overseas, cn :|
        && IsRace(cfg.overseasClients, a.overseas, overseas)
        && IsRace(cfg.cnClients, a.cn, cn)
        && DualChoice(cfg, overseas, cn, o)
        && tag == DualTag(cfg, overseas, cn);
      var overseas', cn' :|
        && IsRace(cfg.overseasClients, a.overseas, overseas')
        && IsRace(cfg.cnClients, a.cn, cn')
        && DualChoice(cfg, overseas', cn', o')
        && tag' == DualTag(cfg, overseas', cn');
      RaceDetermined(cfg.overseasClients, a.overseas, overseas, overseas');
      RaceDetermined(cfg.cnClients, a.cn, cn, cn');
      ChoiceAlike(cfg, overseas, cn, o, overseas', cn', o');
    }
  }

  /** The arrivals fix the response and the tag of a query. */
  lemma RoutedDetermined(cfg: Config, req: Msg, a: Arrivals, o: Outcome, tag: string, o': Outcome, tag': string)
    requires req.question != [] && ValidArrivals(cfg, a)
    requires Routed(cfg, req, a, o, tag) && Routed(cfg, req, a, o', tag')
    ensures Alike(o, o') && tag == tag'
  {
    hide IsRace, IsDual, PolicyOf, HostOverride;
    match PolicyOf(cfg, req)
    case InvalidHost =>
    case HostReply(_) =>
    case Only(CN, _) => RaceDetermined(cfg.cnClients, a.cn, o, o');
    case Only(Overseas, _) => RaceDetermined(cfg.overseasClients, a.overseas, o, o');
    case Both => DualDetermined(cfg, a, o, tag, o', tag');
  }

  // ---------------------------------------------------------------- the service-binding rewrite

  predicate IsServiceBinding(req: Msg) {
    req.question != [] && (req.question[0].qtype == TYPE_HTTPS || req.question[0].qtype == TYPE_SVCB)
  }

  predicate IsOpt(r: Record) {
    r.rrtype == TYPE_OPT
  }

  function Fqdn(name: string): string {
    if EndsWithDot(name) then name else name + "."
  }

  /** An address query for `name` with the id, the flags and the OPT record of the request. */
  function CheckRequest(req: Msg, name: string): Msg {
    Msg(req.id, NOERROR, req.recursionDesired, req.checkingDisabled,
        [Question(Fqdn(name), TYPE_A)], [], [], OptOf(req.extra))
  }

  function OptOf(extra: seq<Record>): seq<Record> {
    var opts := Sequences.Filter(IsOpt, extra);
    if opts == [] then [] else [opts[|opts| - 1]]
  }

  /** What the existence check asks: one address query (type 1) for the name, with the request's id
      and flags and the last of its OPT records (type 41). */
  lemma CheckRequestIs(req: Msg, name: string)
    requires name != "" && !EndsWithDot(name)
    ensures var c := CheckRequest(req, name);
            && c == Msg(req.id, 0, req.recursionDesired, req.checkingDisabled, [Question(name + ".", 1)],
                        [], [], c.extra)
            && |c.extra| <= 1
            && (c.extra == [] <==> forall r :: r in req.extra ==> r.rrtype != 41)
            && forall i: nat :: LastOpt(req.extra, i) ==> c.extra == [req.extra[i]]
  {
    Sequences.FilterMembers(IsOpt, req.extra);
    var opts := Sequences.Filter(IsOpt, req.extra);
    if opts != [] {
      assert opts[0] in req.extra && IsOpt(opts[0]);
    }
    forall i: nat | LastOpt(req.extra, i)
      ensures OptOf(req.extra) == [req.extra[i]]
    {
      LastOptIs(req.extra, i);
    }
  }

  predicate LastOpt(extra: seq<Record>, i: nat) {
    i < |extra| && extra[i].rrtype == 41 && forall k :: i < k < |extra| ==> extra[k].rrtype != 41
  }

  lemma LastOptIs(extra: seq<Record>, i: nat)
    requires LastOpt(extra, i)
    ensures OptOf(extra) == [extra[i]]
  {
    assert extra == extra[..i] + [extra[i]] + extra[i + 1..];
    Sequences.FilterConcat(IsOpt, extra[..i] + [extra[i]], extra[i + 1..]);
    Sequences.FilterConcat(IsOpt, extra[..i], [extra[i]]);
    Sequences.FilterMembers(IsOpt, extra[i + 1..]);
    var rest := Sequences.Filter(IsOpt, extra[i + 1..]);
    assert rest != [] ==> rest[0] in extra[i + 1..] && IsOpt(rest[0]);
  }

  /** An empty positive answer to `req` that keeps the OPT records of `resp`. */
  function NoData(req: Msg, resp: Msg): Msg {
    resp.(rcode := NOERROR, answer := [], ns := [], extra := Sequences.Filter(IsOpt, resp.extra),
          question := req.question)
  }

  method SynthesizeNoData(req: Msg, resp: Msg) returns (normalized: Msg)
    ensures normalized == NoData(req, resp)
  {
    normalized := resp.(rcode := NOERROR, answer := [], ns := [], extra := []);
    for i := 0 to |resp.extra|
      invariant normalized ==
                resp.(rcode := NOERROR, answer := [], ns := [], extra := Sequences.Filter(IsOpt, resp.extra[..i]))
    {
      assert resp.extra[..i + 1] == resp.extra[..i] + [resp.extra[i]];
      Sequences.FilterConcat(IsOpt, resp.extra[..i], [resp.extra[i]]);
      if IsOpt(resp.extra[i]) {
        normalized := normalized.(extra := normalized.extra + [resp.extra[i]]);
      }
    }
    assert resp.extra[..|resp.extra|] == resp.extra;
    normalized := normalized.(question := req.question);
  }

  /** A query for `req` with these arrivals is answered NOERROR. */
  ghost predicate Resolves(cfg: Config, req: Msg, a: Arrivals)
    requires req.question != [] && ValidArrivals(cfg, a)
  {
    exists o, tag :: Routed(cfg, req, a, o, tag) && o.Success()
  }

  /** The name left when every leading underscore label is stripped. */
  function Origin(q: string): string
    requires MatchList(q) != []
  {
    var chain := MatchList(q);
    chain[|chain| - 1]
  }

  /** When an NXDOMAIN is turned into an empty positive answer. */
  ghost predicate IsCompat(cfg: Config, req: Msg, resp: Msg, check: Arrivals)
    requires ValidArrivals(cfg, check)
  {
    && resp.rcode == NXDOMAIN
    && IsServiceBinding(req)
    && |MatchList(req.question[0].name)| > 1
    && Resolves(cfg, CheckRequest(req, Origin(req.question[0].name)), check)
  }

  method NormalizeServiceBinding(cfg: Config, req: Msg, resp: Msg, upstream: string, check: Arrivals)
      returns (r: Msg, tag: string)
    requires req.question != [] && ValidArrivals(cfg, check)
    ensures if IsCompat(cfg, req, resp, check) then r == NoData(req, resp) && tag == upstream + "/Compat-NODATA"
            else r == resp && tag == upstream
  {
    hide Routed, MatchList;
    if resp.rcode != NXDOMAIN || !IsServiceBinding(req) {
      return resp, upstream;
    }
    var candidates := MatchNames(req.question[0].name);
    if |candidates| <= 1 {
      return resp, upstream;
    }
    var originName := candidates[|candidates| - 1];
    var checkReq := CheckRequest(req, originName);
    var o, t := RouteInternal(cfg, checkReq, check);
    if o.err.Some? || o.resp == None || o.resp.value.rcode != NOERROR {
      if Resolves(cfg, checkReq, check) {
        var o', t' :| Routed(cfg, checkReq, check, o', t') && o'.Success();
        RoutedDetermined(cfg, checkReq, check, o, t, o', t');
        assert false;
      }
      return resp, upstream;
    }
    r := SynthesizeNoData(req, resp);
    tag := upstream + "/Compat-NODATA";
  }

  // ---------------------------------------------------------------- TTLs of negative answers

  function ZeroTtl(records: seq<Record>, keepOpt: bool): (r: seq<Record>)
    ensures |r| == |records|
    ensures forall i :: 0 <= i < |records| ==>
              r[i] == if keepOpt && IsOpt(records[i]) then records[i] else records[i].(ttl := 0)
  {
    seq(|records|, i requires 0 <= i < |records| =>
      if keepOpt && IsOpt(records[i]) then records[i] else records[i].(ttl := 0))
  }

  /** The TTL loops: `keepOpt` is set for the additional section, whose OPT record carries flags
      in its TTL field (section 6.1.3 of RFC 6891). */
  method ClearTtl(records: seq<Record>, keepOpt: bool) returns (r: seq<Record>)
    ensures r == ZeroTtl(records, keepOpt)
  {
    r := records;
    for i := 0 to |records|
      invariant |r| == |records|
      invariant r[..i] == ZeroTtl(records, keepOpt)[..i]
      invariant r[i..] == records[i..]
    {
      assert r[i] == r[i..][0] == records[i];
      assert r[i + 1..] == records[i + 1..];
      if keepOpt && IsOpt(r[i]) {
        continue;
      }
      r := r[i := r[i].(ttl := 0)];
    }
    assert r[..|records|] == r;
  }

  function Final(m: Msg): Msg {
    if m.rcode == NXDOMAIN then
      m.(answer := ZeroTtl(m.answer, false), ns := ZeroTtl(m.ns, false), extra := ZeroTtl(m.extra, true))
    else m
  }

  // ---------------------------------------------------------------- Route

  /** What the client gets, given the result of the query itself. */
  ghost predicate Delivered(cfg: Config, req: Msg, check: Arrivals, routed: Outcome, upstream: string,
                            o: Outcome, tag: string)
    requires ValidArrivals(cfg, check)
  {
    if routed.err.Some? || routed.resp == None then o == routed && tag == upstream
    else if IsCompat(cfg, req, routed.resp.value, check) then
      o == Outcome(Some(NoData(req, routed.resp.value)), None) && tag == upstream + "/Compat-NODATA"
    else o == Outcome(Some(Final(routed.resp.value)), None) && tag == upstream
  }

  /** The query is answered with `o`, and the log shows `tag`. */
  ghost predicate DeliversAs(cfg: Config, req: Msg, a: Arrivals, check: Arrivals, o: Outcome, tag: string)
    requires req.question != [] && ValidArrivals(cfg, a) && ValidArrivals(cfg, check)
  {
    exists routed, upstream ::
      Routed(cfg, req, a, routed, upstream) && Delivered(cfg, req, check, routed, upstream, o, tag)
  }

  /** `check` are the arrivals of the existence query, should there be one. */
  method Route(cfg: Config, req: Msg, a: Arrivals, check: Arrivals) returns (o: Outcome, tag: string)
    requires ValidArrivals(cfg, a) && ValidArrivals(cfg, check)
    ensures o.Proper()
    ensures req.question == [] ==> o.err.Some?
    ensures req.question != [] ==> DeliversAs(cfg, req, a, check, o, tag)
  {
    hide Routed, IsCompat, MatchList;
    if |req.question| == 0 {
      return Outcome(None, Some("no question")), "";
    }
    var routed, upstream := RouteInternal(cfg, req, a);
    o, tag := routed, upstream;
    if o.err == None && o.resp.Some? {
      var m;
      m, tag := NormalizeServiceBinding(cfg, req, o.resp.value, upstream, check);
      o := Outcome(Some(m), None);
    }
    if o.err == None && o.resp == None {
      // Neither a response nor an error: not reached, every stage returns one of the two.
      assert false;
    }
    if o.resp.Some? && o.resp.value.rcode == NXDOMAIN {
      var m := o.resp.value;
      var answer := ClearTtl(m.answer, false);
      var ns := ClearTtl(m.ns, false);
      var extra := ClearTtl(m.extra, true);
      o := o.(resp := Some(m.(answer := answer, ns := ns, extra := extra)));
    }
    assert Delivered(cfg, req, check, routed, upstream, o, tag);
  }

  /** Route keeps the response code of the routed answer, but for one case: an NXDOMAIN for an
      HTTPS or SVCB query with underscore labels becomes an empty NOERROR exactly when the stripped
      origin resolves. */
  lemma CodeChangesIff(cfg: Config, req: Msg, a: Arrivals, check: Arrivals, routed: Outcome, upstream: string,
                       o: Outcome, tag: string)
    requires req.question != [] && ValidArrivals(cfg, a) && ValidArrivals(cfg, check)
    requires Routed(cfg, req, a, routed, upstream) && Delivered(cfg, req, check, routed, upstream, o, tag)
    requires routed.err == None && routed.resp.Some?
    ensures o.err == None && o.resp.Some?
    ensures o.resp.value.rcode != routed.resp.value.rcode <==> IsCompat(cfg, req, routed.resp.value, check)
    ensures IsCompat(cfg, req, routed.resp.value, check) <==>
            && routed.resp.value.rcode == 3 && req.question[0].qtype in {64, 65}
            && |MatchList(req.question[0].name)| > 1
            && exists r, t :: Routed(cfg, CheckRequest(req, Origin(req.question[0].name)), check, r, t) && NoError(r)
    ensures var before, after := routed.resp.value, o.resp.value;
            if after.rcode == before.rcode then tag == upstream
            else
              && before.rcode == 3 && tag == upstream + "/Compat-NODATA"
              && after == before.(rcode := 0, answer := [], ns := [], question := req.question, extra := after.extra)
              && forall r :: multiset(after.extra)[r] == if r.rrtype == 41 then multiset(before.extra)[r] else 0
    ensures o.Success() <==> routed.Success() || IsCompat(cfg, req, routed.resp.value, check)
  {
    hide Routed, MatchList;
    if |MatchList(req.question[0].name)| > 1 && Resolves(cfg, CheckRequest(req, Origin(req.question[0].name)), check) {
      var r, t :| Routed(cfg, CheckRequest(req, Origin(req.question[0].name)), check, r, t) && r.Success();
      assert NoError(r);
    }
    hide Resolves;
    Sequences.FilterCounts(IsOpt, routed.resp.value.extra);
  }

  /** Only a delivered NXDOMAIN has its TTLs cleared, record by record: all of them but those of
      OPT records (type 41) of the additional section, which stay as they came; nothing else in
      the message changes. */
  lemma NegativeTtl(cfg: Config, req: Msg, check: Arrivals, routed: Outcome, upstream: string,
                    o: Outcome, tag: string)
    requires ValidArrivals(cfg, check)
    requires routed.err == None && routed.resp.Some?
    requires Delivered(cfg, req, check, routed, upstream, o, tag)
    ensures var before := routed.resp.value;
            var after := o.resp.value;
            && (after.rcode == 3 ==>
                  && Cleared(before.answer, after.answer) && Cleared(before.ns, after.ns)
                  && |after.extra| == |before.extra|
                  && (forall i :: 0 <= i < |after.extra| ==>
                        after.extra[i] == if before.extra[i].rrtype == 41 then before.extra[i]
                                          else before.extra[i].(ttl := 0))
                  && before.(answer := after.answer, ns := after.ns, extra := after.extra) == after)
            && (after.rcode == before.rcode != 3 ==> after == before)
  {
    hide Resolves, MatchList;
  }

  /** The same records with TTL zero. */
  predicate Cleared(before: seq<Record>, after: seq<Record>) {
    |after| == |before| && forall i :: 0 <= i < |after| ==> after[i] == before[i].(ttl := 0)
  }

  // ---------------------------------------------------------------- which answer is delivered

  /** The race ends without a NOERROR. */
  ghost predicate Unsuccessful(events: seq<Event>) {
    exists n: nat :: GivesUp(events, n)
  }

  lemma RaceGives(events: seq<Event>, o: Outcome)
    requires IsRace(|events|, events, o)
    ensures o.Proper()
    ensures forall i: nat :: FirstNoError(events, i) ==> o == Outcome(events[i].resp, None)
    ensures Unsuccessful(events) ==> !NoError(o)
  {
    forall i: nat | FirstNoError(events, i)
      ensures o == Outcome(events[i].resp, None)
    {
      FirstNoErrorWins(events, i, o);
    }
    if Unsuccessful(events) {
      var n: nat :| GivesUp(events, n);
      UndecidedAt(events, n);
      if FirstMessage(events[..n]).Some? {
        var i := HeardAt(events[..n]);
        FirstMessageAt(events[..n], i);
      }
    }
  }

  /** A NOERROR answer is delivered as the race returned it. */
  lemma DeliveredUnchanged(cfg: Config, req: Msg, check: Arrivals, routed: Outcome, upstream: string,
                           o: Outcome, tag: string)
    requires ValidArrivals(cfg, check) && NoError(routed) && Delivered(cfg, req, check, routed, upstream, o, tag)
    ensures o == routed && tag == upstream
  {
    hide Resolves, MatchList, IsServiceBinding;
  }

  /** A query no stage decides, when both races end: the first NOERROR answer of the domestic group
      is delivered when that of the overseas group points into CN, else the overseas one; when one
      group has none, the other's. */
  lemma DualAnswer(cfg: Config, req: Msg, a: Arrivals, check: Arrivals, o: Outcome, tag: string)
    requires req.question != [] && ValidArrivals(cfg, a) && ValidArrivals(cfg, check)
    requires PolicyOf(cfg, req) == Both && !a.dual[0].DualDone? && !a.dual[1].DualDone?
    requires DeliversAs(cfg, req, a, check, o, tag)
    ensures forall i: nat, j: nat :: FirstNoError(a.overseas, i) && FirstNoError(a.cn, j) ==>
              if PointsIntoCN(cfg, a.overseas[i].resp.value)
              then o == Outcome(a.cn[j].resp, None) && tag == "GeoIP(CN)"
              else o == Outcome(a.overseas[i].resp, None) && tag == "GeoIP(Overseas)"
    ensures forall i: nat :: FirstNoError(a.overseas, i) && Unsuccessful(a.cn) ==>
              && o == Outcome(a.overseas[i].resp, None)
              && tag == if PointsIntoCN(cfg, a.overseas[i].resp.value) then "GeoIP(CN/Fallback-Overseas)"
                        else "GeoIP(Overseas)"
    ensures forall j: nat :: Unsuccessful(a.overseas) && FirstNoError(a.cn, j) ==>
              o == Outcome(a.cn[j].resp, None) && tag == "GeoIP(Fallback/CN)"
  {
    var routed, upstream :|
      Routed(cfg, req, a, routed, upstream) && Delivered(cfg, req, check, routed, upstream, o, tag);
    hide PolicyOf, Delivered;
    var overseas, cn :|
      && IsRace(cfg.overseasClients, a.overseas, overseas)
      && IsRace(cfg.cnClients, a.cn, cn)
      && DualChoice(cfg, overseas, cn, routed)
      && upstream == DualTag(cfg, overseas, cn);
    hide IsRace, DualChoice, DualTag, PointsIntoCN, Unsuccessful, Routed;
    RaceGives(a.overseas, overseas);
    RaceGives(a.cn, cn);
    ChoiceIs(cfg, overseas, cn, routed);
    TagIs(cfg, overseas, cn);
    if NoError(routed) {
      DeliveredUnchanged(cfg, req, check, routed, upstream, o, tag);
    }
  }

  /** A query no stage decides, whose context ends before both races do, is an error with the
      context's reason. */
  lemma AbandonedAnswer(cfg: Config, req: Msg, a: Arrivals, check: Arrivals, o: Outcome, tag: string)
    requires req.question != [] && ValidArrivals(cfg, a) && ValidArrivals(cfg, check)
    requires PolicyOf(cfg, req) == Both && (a.dual[0].DualDone? || a.dual[1].DualDone?)
    requires DeliversAs(cfg, req, a, check, o, tag)
    ensures o.resp == None && tag == "GeoIP(Timeout)"
    ensures a.dual[0].DualDone? ==> o.err == Some(a.dual[0].reason)
    ensures !a.dual[0].DualDone? ==> o.err == Some(a.dual[1].reason)
  {
    hide PolicyOf, IsCompat;
  }

  /** A query a stage decides: the first NOERROR answer of the group that stage names. */
  lemma GroupAnswer(cfg: Config, req: Msg, a: Arrivals, check: Arrivals, o: Outcome, tag: string, i: nat)
    requires req.question != [] && ValidArrivals(cfg, a) && ValidArrivals(cfg, check)
    requires PolicyOf(cfg, req).Only? && DeliversAs(cfg, req, a, check, o, tag)
    requires FirstNoError(if PolicyOf(cfg, req).group == CN then a.cn else a.overseas, i)
    ensures o == Outcome((if PolicyOf(cfg, req).group == CN then a.cn else a.overseas)[i].resp, None)
    ensures tag == PolicyOf(cfg, req).tag
  {
    var routed, upstream :|
      Routed(cfg, req, a, routed, upstream) && Delivered(cfg, req, check, routed, upstream, o, tag);
    hide PolicyOf, Delivered, IsRace;
    var events := if PolicyOf(cfg, req).group == CN then a.cn else a.overseas;
    RaceGives(events, routed);
    DeliveredUnchanged(cfg, req, check, routed, upstream, o, tag);
  }

  /** A query the hosts file answers is answered from it alone, and one whose hosts address does
      not parse is an error. */
  lemma HostsAnswer(cfg: Config, req: Msg, a: Arrivals, check: Arrivals, o: Outcome, tag: string)
    requires req.question != [] && ValidArrivals(cfg, a) && ValidArrivals(cfg, check)
    requires DeliversAs(cfg, req, a, check, o, tag)
    ensures PolicyOf(cfg, req).HostReply? ==>
              o == Outcome(HostOverride(req, PolicyOf(cfg, req).ip), None) && NoError(o) && tag == "Hosts"
    ensures PolicyOf(cfg, req).InvalidHost? ==> o.resp == None && o.err.Some? && tag == "Hosts"
  {
    var routed, upstream :|
      Routed(cfg, req, a, routed, upstream) && Delivered(cfg, req, check, routed, upstream, o, tag);
    if PolicyOf(cfg, req).HostReply? {
      HostSucceeds(cfg, req);
      hide PolicyOf, Delivered, HostOverride;
      DeliveredUnchanged(cfg, req, check, routed, upstream, o, tag);
    }
  }

  /** The existence check for a service name asks the same upstreams as the query itself, when
      the configuration says nothing about the names in between. */
  lemma CheckAsksAlike(cfg: Config, req: Msg)
    requires req.question != [] && !EndsInTwoDots(req.question[0].name)
    requires MatchList(req.question[0].name) != []
    requires forall i :: 0 <= i < |MatchList(req.question[0].name)| - 1 ==>
                           Silent(cfg, MatchList(req.question[0].name)[i])
    requires Canonical(req.question[0].name) !in cfg.hosts && Origin(req.question[0].name) !in cfg.hosts
    ensures PolicyOf(cfg, CheckRequest(req, Origin(req.question[0].name))) == PolicyOf(cfg, req)
  {
    hide MatchList, PolicyOf, Canonical, Silent, EndsInTwoDots, Fqdn, OptOf;
    var q := req.question[0].name;
    var k := |MatchList(q)| - 1;
    ChainNameCanonical(q, k);
    var origin := CheckRequest(req, Origin(q));
    FqdnCanonical(Origin(q));
    PolicyInherited(cfg, req, k, origin);
  }

  lemma FqdnCanonical(name: string)
    requires Canonical(name) == name
    ensures Canonical(Fqdn(name)) == name
  {
    if EndsWithDot(name) {
      assert false;
    } else {
      assert TrimDot(name + ".") == name;
      assert TrimDot(name) == name;
    }
  }

  // ---------------------------------------------------------------- end to end, on the upstream results

  /** Some upstream that the policy asks answered NOERROR; a hosts reply needs none. */
  ghost predicate Answered(p: Policy, a: Arrivals) {
    match p
    case InvalidHost => false
    case HostReply(_) => true
    case Only(CN, _) => SomeSuccess(a.cn)
    case Only(Overseas, _) => SomeSuccess(a.overseas)
    case Both => SomeSuccess(a.cn) || SomeSuccess(a.overseas)
  }

  ghost predicate Heard(p: Policy, a: Arrivals) {
    match p
    case InvalidHost => false
    case HostReply(_) => true
    case Only(CN, _) => SomeMessage(a.cn)
    case Only(Overseas, _) => SomeMessage(a.overseas)
    case Both => SomeMessage(a.cn) || SomeMessage(a.overseas)
  }

  /** The results that decide a negative answer: those of the group asked; of two groups the
      overseas one, unless nothing of it was a message. */
  function Deciding(p: Policy, a: Arrivals): seq<Event> {
    match p
    case InvalidHost => []
    case HostReply(_) => []
    case Only(CN, _) => a.cn
    case Only(Overseas, _) => a.overseas
    case Both => if FirstMessage(a.overseas).Some? then a.overseas else a.cn
  }

  predicate IsNxdomain(e: Event) {
    HasMessage(e) && e.resp.value.rcode == NXDOMAIN
  }

  predicate FirstIsNxdomain(events: seq<Event>) {
    FirstMessage(events).Some? && FirstMessage(events).value.rcode == NXDOMAIN
  }

  lemma RaceMessage(events: seq<Event>, o: Outcome)
    requires AllResults(events) && IsRace(|events|, events, o) && !o.Success()
    ensures o.resp == FirstMessage(events)
  {
    if events != [] {
      RaceWithoutExit(events, o);
    }
  }

  /** The routed answer, from the results alone. */
  lemma RoutedIs(cfg: Config, req: Msg, a: Arrivals, o: Outcome, tag: string)
    requires req.question != [] && ValidArrivals(cfg, a) && Undisturbed(a) && Routed(cfg, req, a, o, tag)
    ensures o.Proper()
    ensures o.Success() <==> Answered(PolicyOf(cfg, req), a)
    ensures o.err == None <==> Heard(PolicyOf(cfg, req), a)
    ensures !o.Success() ==> o.resp == FirstMessage(Deciding(PolicyOf(cfg, req), a))
  {
    hide IsRace, IsDual, PolicyOf, SomeSuccess, SomeMessage, FirstMessage, AllResults;
    match PolicyOf(cfg, req)
    case InvalidHost => NothingFirst();
    case HostReply(ip) => HostSucceeds(cfg, req);
    case Only(CN, _) =>
      RaceProper(cfg.cnClients, a.cn, o);
      RaceClass(a.cn, o);
      if !o.Success() {
        RaceMessage(a.cn, o);
      }
    case Only(Overseas, _) =>
      RaceProper(cfg.overseasClients, a.overseas, o);
      RaceClass(a.overseas, o);
      if !o.Success() {
        RaceMessage(a.overseas, o);
      }
    case Both =>
      DualProper(cfg, a, o, tag);
      DualSuccessIff(cfg, a, o, tag);
      if !o.Success() {
        DualMessage(cfg, a, o, tag);
      }
  }

  lemma NothingFirst()
    ensures FirstMessage([]) == None
  {
  }

  lemma HostSucceeds(cfg: Config, req: Msg)
    requires req.question != [] && PolicyOf(cfg, req).HostReply?
    ensures var m := HostOverride(req, PolicyOf(cfg, req).ip); m.Some? && m.value.rcode == NOERROR
  {
    hide FirstRule, FirstRegex, MatchList, Canonical, GroupOf;
  }

  lemma DualMessage(cfg: Config, a: Arrivals, o: Outcome, tag: string)
    requires ValidArrivals(cfg, a) && Undisturbed(a) && IsDual(cfg, a, o, tag) && !o.Success()
    ensures o.resp == FirstMessage(if FirstMessage(a.overseas).Some? then a.overseas else a.cn)
  {
    assert a.dual[0] in a.dual && a.dual[1] in a.dual;
    var overseas, cn :|
      && IsRace(cfg.overseasClients, a.overseas, overseas)
      && IsRace(cfg.cnClients, a.cn, cn)
      && DualChoice(cfg, overseas, cn, o);
    RaceProper(cfg.overseasClients, a.overseas, overseas);
    RaceProper(cfg.cnClients, a.cn, cn);
    hide IsRace, FirstMessage, AddressInCN;
    RaceMessage(a.overseas, overseas);
    RaceMessage(a.cn, cn);
  }

  /** The query is one whose NXDOMAIN the rewrite turns into NOERROR: an HTTPS or SVCB query for a
      name with underscore labels whose stripped origin some upstream asked for it resolves. */
  ghost predicate Rewritable(cfg: Config, req: Msg, check: Arrivals) {
    && IsServiceBinding(req)
    && |MatchList(req.question[0].name)| > 1
    && Answered(PolicyOf(cfg, CheckRequest(req, Origin(req.question[0].name))), check)
  }

  lemma ResolvesIff(cfg: Config, req: Msg, a: Arrivals)
    requires req.question != [] && ValidArrivals(cfg, a) && Undisturbed(a)
    ensures Resolves(cfg, req, a) <==> Answered(PolicyOf(cfg, req), a)
  {
    var o, tag := SomeRouted(cfg, req, a);
    hide Routed, PolicyOf, Answered, Undisturbed;
    RoutedIs(cfg, req, a, o, tag);
    if Resolves(cfg, req, a) {
      var o', tag' :| Routed(cfg, req, a, o', tag') && o'.Success();
      RoutedIs(cfg, req, a, o', tag');
    }
  }

  // ---- every query has a result

  lemma SomeRace(clients: nat, events: seq<Event>) returns (o: Outcome)
    requires |events| == clients
    ensures IsRace(clients, events, o)
  {
    var n := Undecided(events);
    if clients == 0 {
      o := Outcome(None, Some(""));
    } else if n < |events| && IsSuccess(events[n]) {
      o := Outcome(events[n].resp, None);
    } else if n < |events| && events[n].ContextDone? {
      o := Outcome(None, Some(events[n].reason));
    } else {
      var m := FirstMessage(events[..n]);
      o := Outcome(m, if m.Some? then None else Some(""));
    }
  }

  lemma SomeDual(cfg: Config, a: Arrivals) returns (o: Outcome, tag: string)
    requires ValidArrivals(cfg, a)
    ensures IsDual(cfg, a, o, tag)
  {
    if a.dual[0].DualDone? {
      o, tag := Outcome(None, Some(a.dual[0].reason)), "GeoIP(Timeout)";
    } else if a.dual[1].DualDone? {
      o, tag := Outcome(None, Some(a.dual[1].reason)), "GeoIP(Timeout)";
    } else {
      var overseas := SomeRace(cfg.overseasClients, a.overseas);
      var cn := SomeRace(cfg.cnClients, a.cn);
      o := if PrefersCN(cfg, overseas, cn) then cn
           else if overseas.err == None then overseas
           else if cn.err == None then cn
           else Outcome(None, Some(""));
      tag := DualTag(cfg, overseas, cn);
    }
  }

  lemma SomeRouted(cfg: Config, req: Msg, a: Arrivals) returns (o: Outcome, tag: string)
    requires req.question != [] && ValidArrivals(cfg, a)
    ensures Routed(cfg, req, a, o, tag)
  {
    hide IsRace, IsDual, PolicyOf, HostOverride;
    match PolicyOf(cfg, req)
    case InvalidHost => o, tag := Outcome(None, Some("")), "Hosts";
    case HostReply(ip) => o, tag := Outcome(HostOverride(req, ip), None), "Hosts";
    case Only(CN, t) =>
      o := SomeRace(cfg.cnClients, a.cn);
      tag := t;
    case Only(Overseas, t) =>
      o := SomeRace(cfg.overseasClients, a.overseas);
      tag := t;
    case Both => o, tag := SomeDual(cfg, a);
  }

  /** `o` is what the client gets for `req` when the upstreams answer as in `a` and `check`. */
  ghost predicate Delivers(cfg: Config, req: Msg, a: Arrivals, check: Arrivals, o: Outcome)
    requires req.question != [] && ValidArrivals(cfg, a) && ValidArrivals(cfg, check)
  {
    exists tag :: DeliversAs(cfg, req, a, check, o, tag)
  }

  lemma SomeAnswer(cfg: Config, req: Msg, check: Arrivals, routed: Outcome, upstream: string)
      returns (o: Outcome, tag: string)
    requires ValidArrivals(cfg, check)
    ensures Delivered(cfg, req, check, routed, upstream, o, tag)
  {
    hide IsCompat, NoData, Final;
    o, tag := routed, upstream;
    if routed.err == None && routed.resp.Some? {
      if IsCompat(cfg, req, routed.resp.value, check) {
        o, tag := Outcome(Some(NoData(req, routed.resp.value)), None), upstream + "/Compat-NODATA";
      } else {
        o := Outcome(Some(Final(routed.resp.value)), None);
      }
    }
  }

  lemma SomeDelivered(cfg: Config, req: Msg, a: Arrivals, check: Arrivals) returns (o: Outcome)
    requires req.question != [] && ValidArrivals(cfg, a) && ValidArrivals(cfg, check)
    ensures Delivers(cfg, req, a, check, o)
  {
    hide Routed, Delivered;
    var routed, upstream := SomeRouted(cfg, req, a);
    var tag;
    o, tag := SomeAnswer(cfg, req, check, routed, upstream);
    assert DeliversAs(cfg, req, a, check, o, tag);
  }

  /** End to end, for every query, every policy and every order of arrival, when no timer fires and
      no context ends: NOERROR reaches the client exactly when some upstream that was asked gave
      it, or the query is rewritable and the first message of the deciding group is NXDOMAIN; an
      error exactly when no upstream that was asked sent a message. */
  lemma EndToEnd(cfg: Config, req: Msg, a: Arrivals, check: Arrivals, o: Outcome)
    requires req.question != [] && ValidArrivals(cfg, a) && ValidArrivals(cfg, check)
    requires Undisturbed(a) && Undisturbed(check) && Delivers(cfg, req, a, check, o)
    ensures o.Proper()
    ensures o.Success() <==>
            Answered(PolicyOf(cfg, req), a)
            || (Rewritable(cfg, req, check) && FirstIsNxdomain(Deciding(PolicyOf(cfg, req), a)))
    ensures o.err == None <==> Heard(PolicyOf(cfg, req), a)
  {
    var tag :| DeliversAs(cfg, req, a, check, o, tag);
    var routed, upstream :|
      Routed(cfg, req, a, routed, upstream) && Delivered(cfg, req, check, routed, upstream, o, tag);
    RoutedIs(cfg, req, a, routed, upstream);
    if IsServiceBinding(req) && |MatchList(req.question[0].name)| > 1 {
      ResolvesIff(cfg, CheckRequest(req, Origin(req.question[0].name)), check);
    }
    hide Routed, Resolves, PolicyOf, MatchList, Answered, Heard, Deciding, Undisturbed, FirstMessage;
    if routed.err == None {
      CodeChangesIff(cfg, req, a, check, routed, upstream, o, tag);
    }
  }

  // ---------------------------------------------------------------- when the order of arrival matters

  /** The same results in another order, inside the races and between them. */
  ghost predicate Reordered(cfg: Config, a: Arrivals, b: Arrivals)
    requires ValidArrivals(cfg, a)
  {
    && ValidArrivals(cfg, b) && Undisturbed(b)
    && multiset(a.cn) == multiset(b.cn) && multiset(a.overseas) == multiset(b.overseas)
  }

  /** Every order of arrival delivers the same class of answer. */
  ghost predicate OrderFree(cfg: Config, req: Msg, a: Arrivals, check: Arrivals)
    requires req.question != [] && ValidArrivals(cfg, a) && ValidArrivals(cfg, check)
  {
    forall b, check', o, o' ::
      (Reordered(cfg, a, b) && Reordered(cfg, check, check')
       && Delivers(cfg, req, a, check, o) && Delivers(cfg, req, b, check', o'))
      ==> ClassOf(o) == ClassOf(o')
  }

  /** The group holds an NXDOMAIN and another message. */
  ghost predicate Mixed(events: seq<Event>) {
    && (exists e :: e in events && IsNxdomain(e))
    && (exists e :: e in events && HasMessage(e) && !IsNxdomain(e))
  }

  lemma FirstOfUnmixed(events: seq<Event>)
    requires !Mixed(events)
    ensures FirstIsNxdomain(events) <==> exists e :: e in events && IsNxdomain(e)
  {
    if FirstMessage(events).Some? {
      FirstMessageIsThere(events);
    }
  }

  lemma ReorderedSame(cfg: Config, p: Policy, a: Arrivals, b: Arrivals)
    requires ValidArrivals(cfg, a) && Reordered(cfg, a, b)
    ensures Answered(p, a) <==> Answered(p, b)
    ensures Heard(p, a) <==> Heard(p, b)
    ensures forall e :: e in Deciding(p, a) <==> e in Deciding(p, b)
  {
    SameMembers(a.cn, b.cn);
    SameMembers(a.overseas, b.overseas);
    MessageIff(a.overseas);
    MessageIff(b.overseas);
    hide FirstMessage;
  }

  lemma MessageIff(events: seq<Event>)
    ensures FirstMessage(events).Some? <==> SomeMessage(events)
  {
    if SomeMessage(events) {
      var e :| e in events && HasMessage(e);
      var i :| 0 <= i < |events| && events[i] == e;
    }
    if FirstMessage(events).Some? {
      FirstMessageIsThere(events);
    }
  }

  /** Event `i` comes first. */
  function Promoted(events: seq<Event>, i: nat): (r: seq<Event>)
    requires i < |events|
    ensures |r| == |events|
  {
    [events[i]] + events[..i] + events[i + 1..]
  }

  lemma PromotedSame(events: seq<Event>, i: nat)
    requires i < |events|
    ensures multiset(Promoted(events, i)) == multiset(events)
    ensures HasMessage(events[i]) ==> FirstMessage(Promoted(events, i)) == events[i].resp
  {
    assert events == events[..i] + [events[i]] + events[i + 1..];
    assert Promoted(events, i)[0] == events[i];
  }

  /** The order in which event `i` of the deciding group comes first. */
  function PromotedArrivals(p: Policy, a: Arrivals, i: nat): Arrivals
    requires i < |Deciding(p, a)|
  {
    if p == Both && FirstMessage(a.overseas).Some? then a.(overseas := Promoted(a.overseas, i))
    else if p.Only? && p.group == Overseas then a.(overseas := Promoted(a.overseas, i))
    else a.(cn := Promoted(a.cn, i))
  }

  lemma PromotedIs(cfg: Config, p: Policy, a: Arrivals, i: nat)
    requires ValidArrivals(cfg, a) && Undisturbed(a) && i < |Deciding(p, a)| && HasMessage(Deciding(p, a)[i])
    ensures var b := PromotedArrivals(p, a, i);
            Reordered(cfg, a, b) && FirstMessage(Deciding(p, b)) == Deciding(p, a)[i].resp
  {
    var events := Deciding(p, a);
    PromotedSame(events, i);
    SameMembers(Promoted(events, i), events);
    hide FirstMessage, Promoted;
  }

  /** Which way the first message of the deciding group points decides the class when the query is
      rewritable and nothing succeeded. */
  lemma OrderDecides(cfg: Config, req: Msg, a: Arrivals, check: Arrivals) returns (b: Arrivals)
    requires req.question != [] && ValidArrivals(cfg, a) && ValidArrivals(cfg, check)
    requires Undisturbed(a) && Undisturbed(check)
    requires !Answered(PolicyOf(cfg, req), a) && Rewritable(cfg, req, check)
    requires Mixed(Deciding(PolicyOf(cfg, req), a))
    ensures Reordered(cfg, a, b)
    ensures FirstIsNxdomain(Deciding(PolicyOf(cfg, req), b)) <==> !FirstIsNxdomain(Deciding(PolicyOf(cfg, req), a))
  {
    var p := PolicyOf(cfg, req);
    var events := Deciding(p, a);
    var e :| e in events && HasMessage(e) && (IsNxdomain(e) <==> !FirstIsNxdomain(events));
    var i :| 0 <= i < |events| && events[i] == e;
    PromotedIs(cfg, p, a, i);
    b := PromotedArrivals(p, a, i);
  }

  /** The order of arrival matters exactly when no upstream that was asked succeeded, the query is
      rewritable, and the deciding group holds both an NXDOMAIN and another negative message. */
  lemma OrderFreeIff(cfg: Config, req: Msg, a: Arrivals, check: Arrivals)
    requires req.question != [] && ValidArrivals(cfg, a) && ValidArrivals(cfg, check)
    requires Undisturbed(a) && Undisturbed(check)
    ensures OrderFree(cfg, req, a, check) <==>
            !(!Answered(PolicyOf(cfg, req), a) && Rewritable(cfg, req, check)
              && Mixed(Deciding(PolicyOf(cfg, req), a)))
  {
    var p := PolicyOf(cfg, req);
    hide PolicyOf, Delivers, Undisturbed, Answered, Heard, Deciding, FirstMessage, MatchList, IsServiceBinding;
    if !Answered(p, a) && Rewritable(cfg, req, check) && Mixed(Deciding(p, a)) {
      var b := OrderDecides(cfg, req, a, check);
      ReorderedSame(cfg, p, a, b);
      var o := SomeDelivered(cfg, req, a, check);
      var o' := SomeDelivered(cfg, req, b, check);
      EndToEnd(cfg, req, a, check, o);
      EndToEnd(cfg, req, b, check, o');
      assert Reordered(cfg, check, check);
      assert ClassOf(o) != ClassOf(o');
    } else {
      forall b, check', o, o' |
        Reordered(cfg, a, b) && Reordered(cfg, check, check')
        && Delivers(cfg, req, a, check, o) && Delivers(cfg, req, b, check', o')
        ensures ClassOf(o) == ClassOf(o')
      {
        SameClass(cfg, req, a, check, b, check', o, o');
      }
    }
  }

  lemma SameClass(cfg: Config, req: Msg, a: Arrivals, check: Arrivals, b: Arrivals, check': Arrivals,
                  o: Outcome, o': Outcome)
    requires req.question != [] && ValidArrivals(cfg, a) && ValidArrivals(cfg, check)
    requires Undisturbed(a) && Undisturbed(check) && Reordered(cfg, a, b) && Reordered(cfg, check, check')
    requires Answered(PolicyOf(cfg, req), a) || !Rewritable(cfg, req, check) || !Mixed(Deciding(PolicyOf(cfg, req), a))
    requires Delivers(cfg, req, a, check, o) && Delivers(cfg, req, b, check', o')
    ensures ClassOf(o) == ClassOf(o')
  {
    var p := PolicyOf(cfg, req);
    EndToEnd(cfg, req, a, check, o);
    EndToEnd(cfg, req, b, check', o');
    ReorderedSame(cfg, p, a, b);
    if IsServiceBinding(req) && |MatchList(req.question[0].name)| > 1 {
      ReorderedSame(cfg, PolicyOf(cfg, CheckRequest(req, Origin(req.question[0].name))), check, check');
    }
    if !Mixed(Deciding(p, a)) {
      FirstOfUnmixed(Deciding(p, a));
      FirstOfUnmixed(Deciding(p, b));
    }
  }

  // ---------------------------------------------------------------- two orders that differ

  function Coded(rcode: int): Event {
    Result(Some(Msg(0, rcode, true, false, [], [], [], [])), None)
  }

  /** Two domestic upstreams, and one rule. */
  function TwoUpstreams(): Config {
    Config(map[], map["b" := "cn"], [], (_: string) => None, (_: string, _: string) => false,
           (_: string) => false, (_: IP) => false, 2, 0)
  }

  function FromTwo(first: int, second: int): Arrivals {
    Arrivals([Coded(first), Coded(second)], [], [DualEvent.FromOverseas, DualEvent.FromCN])
  }

  lemma ServiceChain()
    ensures MatchList("_a.b") == ["_a.b", "b"] && Canonical("_a.b") == "_a.b"
    ensures Canonical("b") == "b" && MatchList("b") == ["b"]
  {
    var n := "_a.b";
    assert ToLower(n) == n && ToLower("b") == "b";
    assert n == "_a" + ['.'] + "b";
    Sequences.SplitAt("_a", "b", '.');
    Sequences.JoinSplit(["_a"], '.');
    Sequences.JoinSplit(["b"], '.');
    assert Labels(n) == ["_a", "b"];
    assert ["_a", "b"][1..] == ["b"];
    assert Stripped(["b"]) == [];
    assert Stripped(["_a", "b"]) == ["b"];
    assert Labels("b") == ["b"];
  }

  lemma ServicePolicy(req: Msg)
    requires req.question == [Question("_a.b", TYPE_HTTPS)]
    ensures PolicyOf(TwoUpstreams(), req) == Only(CN, "Rule(CN)")
    ensures PolicyOf(TwoUpstreams(), CheckRequest(req, Origin("_a.b"))) == Only(CN, "Rule(CN)")
  {
    ServiceChain();
    var names := ["_a.b", "b"];
    FirstRuleIs(names, TwoUpstreams().rules, 1);
    assert ToLower("cn") == "cn";
    hide MatchList, Canonical;
    CheckAsksAlike(TwoUpstreams(), req);
  }

  /** Two upstreams, an HTTPS query for _a.b, and an origin that resolves: with the NXDOMAIN first
      the client gets NOERROR, with the SERVFAIL first it gets SERVFAIL. */
  lemma OrderCanMatter(req: Msg, o: Outcome, o': Outcome)
    requires req.question == [Question("_a.b", TYPE_HTTPS)]
    requires Delivers(TwoUpstreams(), req, FromTwo(NXDOMAIN, SERVFAIL), FromTwo(NOERROR, NOERROR), o)
    requires Delivers(TwoUpstreams(), req, FromTwo(SERVFAIL, NXDOMAIN), FromTwo(NOERROR, NOERROR), o')
    ensures Reordered(TwoUpstreams(), FromTwo(NXDOMAIN, SERVFAIL), FromTwo(SERVFAIL, NXDOMAIN))
    ensures o.Success() && !o'.Success()
  {
    ServicePolicy(req);
    TwoResults(NXDOMAIN, SERVFAIL);
    TwoResults(SERVFAIL, NXDOMAIN);
    TwoResults(NOERROR, NOERROR);
    ServiceRewritable(req);
    TwoOrders(NXDOMAIN, SERVFAIL);
    hide PolicyOf, Delivers, MatchList, CheckRequest, Answered, Rewritable, Deciding, FirstIsNxdomain, Undisturbed,
      FromTwo, TwoUpstreams, ValidArrivals, Reordered, Heard;
    EndToEnd(TwoUpstreams(), req, FromTwo(NXDOMAIN, SERVFAIL), FromTwo(NOERROR, NOERROR), o);
    EndToEnd(TwoUpstreams(), req, FromTwo(SERVFAIL, NXDOMAIN), FromTwo(NOERROR, NOERROR), o');
  }

  lemma TwoOrders(first: int, second: int)
    ensures ValidArrivals(TwoUpstreams(), FromTwo(first, second))
    ensures Reordered(TwoUpstreams(), FromTwo(first, second), FromTwo(second, first))
  {
    var x, y := Coded(first), Coded(second);
    assert multiset([x, y]) == multiset([y, x]);
    TwoResults(second, first);
    hide Undisturbed, Answered, Deciding, FirstIsNxdomain, Coded;
  }

  lemma TwoResults(first: int, second: int)
    ensures var a := FromTwo(first, second);
            && ValidArrivals(TwoUpstreams(), a) && Undisturbed(a)
            && (Answered(Only(CN, "Rule(CN)"), a) <==> first == NOERROR || second == NOERROR)
            && (FirstIsNxdomain(Deciding(Only(CN, "Rule(CN)"), a)) <==> first == NXDOMAIN)
  {
    var a := FromTwo(first, second);
    assert a.cn[0] in a.cn && a.cn[1] in a.cn;
  }

  lemma ServiceRewritable(req: Msg)
    requires req.question == [Question("_a.b", TYPE_HTTPS)]
    ensures Rewritable(TwoUpstreams(), req, FromTwo(NOERROR, NOERROR))
  {
    ServicePolicy(req);
    ServiceChain();
    TwoResults(NOERROR, NOERROR);
    hide PolicyOf, MatchList, Answered, CheckRequest;
  }
}
