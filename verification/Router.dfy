/** The router: first-match policy, the dual path, and the negative-answer rewrite.

    Databases, pattern matching and address parsing are function parameters of `Config`; what
    upstreams answer, and in which order, is an `Arrivals` value that every result is stated for. */
module Router {
  import opened Dns
  import opened Names
  import opened Options
  import opened Race
  import opened Text

  datatype RegexRule = RegexRule(pattern: string, target: string)

  datatype Config = Config(
    hosts: map<string, string>,
    rules: map<string, string>,
    regexRules: seq<RegexRule>,
    parseIP: string -> Option<IP>,
    matches: (string, string) -> bool,
    geoSiteCN: string -> bool,
    isCNIP: IP -> bool,
    cnClients: nat,
    overseasClients: nat)

  datatype Group = CN | Overseas

  /** Who answers a query, and the tag the log shows for it. */
  datatype Policy =
    | InvalidHost
    | HostReply(ip: IP)
    | Only(group: Group, tag: string)
    | Both

  datatype DualEvent = FromOverseas | FromCN | DualDone(reason: string)

  /** What the races of one query see, and in which order the two races of the dual path end. */
  datatype Arrivals = Arrivals(cn: seq<Event>, overseas: seq<Event>, dual: seq<DualEvent>)

  /** One event per client and race; each of the two goroutines sends once. */
  predicate ValidArrivals(cfg: Config, a: Arrivals) {
    && |a.cn| == cfg.cnClients
    && |a.overseas| == cfg.overseasClients
    && |a.dual| == 2
    && (a.dual[0] != a.dual[1] || a.dual[0].DualDone?)
  }

  // ---------------------------------------------------------------- lookups

  function FirstRule(names: seq<string>, rules: map<string, string>): Option<string> {
    if names == [] then None
    else if names[0] in rules then Some(rules[names[0]])
    else FirstRule(names[1..], rules)
  }

  /** A rule for an earlier name of the chain wins over every later name. */
  lemma {:induction false} FirstRuleIs(names: seq<string>, rules: map<string, string>, i: nat)
    requires i <= |names| && forall k :: 0 <= k < i ==> names[k] !in rules
    ensures i == |names| ==> FirstRule(names, rules) == None
    ensures i < |names| && names[i] in rules ==> FirstRule(names, rules) == Some(rules[names[i]])
    ensures FirstRule(names, rules) == FirstRule(names[i..], rules)
  {
    if i > 0 {
      FirstRuleIs(names[1..], rules, i - 1);
      assert names[1..][i - 1..] == names[i..];
    } else {
      assert names[0..] == names;
    }
  }

  method LookupRule(names: seq<string>, rules: map<string, string>) returns (rule: string, ok: bool)
    ensures (if ok then Some(rule) else None) == FirstRule(names, rules)
    ensures !ok ==> rule == ""
  {
    for i := 0 to |names|
      invariant forall k :: 0 <= k < i ==> names[k] !in rules
    {
      if names[i] in rules {
        FirstRuleIs(names, rules, i);
        return rules[names[i]], true;
      }
    }
    FirstRuleIs(names, rules, |names|);
    return "", false;
  }

  /** Index of the first pattern that matches, or the number of patterns. */
  function FirstPattern(name: string, regexRules: seq<RegexRule>, matches: (string, string) -> bool): (n: nat)
    ensures n <= |regexRules|
    ensures n < |regexRules| ==> matches(regexRules[n].pattern, name)
    ensures forall j :: 0 <= j < n ==> !matches(regexRules[j].pattern, name)
  {
    if regexRules == [] || matches(regexRules[0].pattern, name) then 0
    else 1 + FirstPattern(name, regexRules[1..], matches)
  }

  function FirstRegex(names: seq<string>, regexRules: seq<RegexRule>, matches: (string, string) -> bool)
      : Option<string>
  {
    if names == [] then None
    else
      var n := FirstPattern(names[0], regexRules, matches);
      if n < |regexRules| then Some(regexRules[n].target) else FirstRegex(names[1..], regexRules, matches)
  }

  /** No pattern matches this name. */
  predicate Unmatched(name: string, regexRules: seq<RegexRule>, matches: (string, string) -> bool) {
    forall j :: 0 <= j < |regexRules| ==> !matches(regexRules[j].pattern, name)
  }

  /** Names before patterns: every pattern is tried on a name before the next name is looked at. */
  lemma {:induction false} FirstRegexIs(names: seq<string>, regexRules: seq<RegexRule>,
                                        matches: (string, string) -> bool, i: nat)
    requires i <= |names| && forall k :: 0 <= k < i ==> Unmatched(names[k], regexRules, matches)
    ensures i == |names| ==> FirstRegex(names, regexRules, matches) == None
    ensures FirstRegex(names, regexRules, matches) == FirstRegex(names[i..], regexRules, matches)
  {
    if i > 0 {
      var n := FirstPattern(names[0], regexRules, matches);
      assert Unmatched(names[0], regexRules, matches);
      assert n == |regexRules|;
      FirstRegexIs(names[1..], regexRules, matches, i - 1);
      assert names[1..][i - 1..] == names[i..];
    } else {
      assert names[0..] == names;
    }
  }

  lemma FirstPatternIs(name: string, regexRules: seq<RegexRule>, matches: (string, string) -> bool, j: nat)
    requires j < |regexRules| && matches(regexRules[j].pattern, name)
    requires forall k :: 0 <= k < j ==> !matches(regexRules[k].pattern, name)
    ensures FirstPattern(name, regexRules, matches) == j
  {
    var n := FirstPattern(name, regexRules, matches);
    assert !(j < n) && !(n < j);
  }

  method LookupRegexRule(names: seq<string>, regexRules: seq<RegexRule>, matches: (string, string) -> bool)
      returns (target: string, ok: bool)
    ensures (if ok then Some(target) else None) == FirstRegex(names, regexRules, matches)
    ensures !ok ==> target == ""
  {
    for i := 0 to |names|
      invariant forall k :: 0 <= k < i ==> Unmatched(names[k], regexRules, matches)
    {
      for j := 0 to |regexRules|
        invariant forall k :: 0 <= k < j ==> !matches(regexRules[k].pattern, names[i])
      {
        if matches(regexRules[j].pattern, names[i]) {
          FirstRegexIs(names, regexRules, matches, i);
          FirstPatternIs(names[i], regexRules, matches, j);
          return regexRules[j].target, true;
        }
      }
    }
    FirstRegexIs(names, regexRules, matches, |names|);
    return "", false;
  }

  predicate AnyGeoSite(names: seq<string>, geoSiteCN: string -> bool) {
    exists i :: 0 <= i < |names| && geoSiteCN(names[i])
  }

  /** The database lookup answers "cn" or nothing. */
  method LookupGeoSite(names: seq<string>, geoSiteCN: string -> bool) returns (code: string)
    ensures code == if AnyGeoSite(names, geoSiteCN) then "cn" else ""
  {
    for i := 0 to |names|
      invariant forall k :: 0 <= k < i ==> !geoSiteCN(names[k])
    {
      if geoSiteCN(names[i]) {
        return "cn";
      }
    }
    return "";
  }

  // ---------------------------------------------------------------- hosts

  /** A reply that keeps the id, the flags and the first question of the request. */
  function Reply(req: Msg): Msg
    requires req.question != []
  {
    Msg(req.id, NOERROR, req.recursionDesired, req.checkingDisabled, [req.question[0]], [], [], [])
  }

  function HostOverride(req: Msg, ip: IP): Option<Msg> {
    if req.question == [] then None
    else
      var qtype := req.question[0].qtype;
      if qtype != TYPE_ANY
         && ((qtype == TYPE_A && !ip.V4?)
             || (qtype == TYPE_AAAA && ip.V4?)
             || (qtype != TYPE_A && qtype != TYPE_AAAA))
      then None
      else
        var rrtype := if ip.V4? then TYPE_A else TYPE_AAAA;
        Some(Reply(req).(answer := [Record(req.question[0].name, rrtype, 60, Address(ip))]))
  }

  /** The override answers exactly queries of the address's own type, and ANY, with one address
      record of that type and nothing else; the types and the TTL are written out. */
  lemma HostOverrideIff(req: Msg, ip: IP)
    requires req.question != []
    ensures var q := req.question[0];
            var own := if ip.V4? then 1 else 28;
            && (HostOverride(req, ip).Some? <==> q.qtype == own || q.qtype == 255)
            && (HostOverride(req, ip).Some? ==>
                  HostOverride(req, ip).value ==
                  Msg(req.id, 0, req.recursionDesired, req.checkingDisabled, [q],
                      [Record(q.name, own, 60, Address(ip))], [], []))
  {
  }

  // ---------------------------------------------------------------- policy

  function GroupOf(target: string): Option<Group> {
    var t := ToLower(target);
    if t == "cn" then Some(CN) else if t == "overseas" then Some(Overseas) else None
  }

  /** Every character is the one of either spelling at its place. */
  predicate Spells(s: string, lower: string, upper: string)
    requires |lower| == |upper|
  {
    |s| == |lower| && forall k :: 0 <= k < |s| ==> s[k] == lower[k] || s[k] == upper[k]
  }

  /** Targets in any mix of case; every other target is no decision. */
  lemma GroupIs(target: string)
    ensures GroupOf(target) == Some(CN) <==> Spells(target, "cn", "CN")
    ensures GroupOf(target) == Some(Overseas) <==> Spells(target, "overseas", "OVERSEAS")
  {
    LowerIs(target, "cn", "CN");
    LowerIs(target, "overseas", "OVERSEAS");
    assert ToLower(target) == "overseas" ==> ToLower(target) != "cn";
  }

  lemma LowerIs(s: string, lower: string, upper: string)
    requires |lower| == |upper|
    requires forall k :: 0 <= k < |lower| ==> 'a' <= lower[k] <= 'z' && lower[k] as int == upper[k] as int + 32
    ensures ToLower(s) == lower <==> Spells(s, lower, upper)
  {
    if Spells(s, lower, upper) {
      assert forall k :: 0 <= k < |s| ==> ToLower(s)[k] == lower[k];
    }
  }

  /** The policy of a name chain: rules first, then patterns, then the database. A target other
      than cn and overseas is no decision: the next stage decides. */
  function ByName(cfg: Config, names: seq<string>): Policy {
    var rule := FirstRule(names, cfg.rules);
    var regex := FirstRegex(names, cfg.regexRules, cfg.matches);
    if rule.Some? && GroupOf(rule.value).Some? then
      Only(GroupOf(rule.value).value, if GroupOf(rule.value).value.CN? then "Rule(CN)" else "Rule(Overseas)")
    else if regex.Some? && GroupOf(regex.value).Some? then
      Only(GroupOf(regex.value).value,
          if GroupOf(regex.value).value.CN? then "Rule(Regex/CN)" else "Rule(Regex/Overseas)")
    else if AnyGeoSite(names, cfg.geoSiteCN) then Only(CN, "GeoSite(CN)")
    else Both
  }

  /** An exact hosts entry comes first, when it can answer this type of query. */
  function PolicyOf(cfg: Config, req: Msg): Policy
    requires req.question != []
  {
    var name := Canonical(req.question[0].name);
    if name in cfg.hosts && cfg.parseIP(cfg.hosts[name]) == None then InvalidHost
    else if name in cfg.hosts && HostOverride(req, cfg.parseIP(cfg.hosts[name]).value).Some? then
      HostReply(cfg.parseIP(cfg.hosts[name]).value)
    else ByName(cfg, MatchList(name))
  }

  /** The first name of the chain that has a rule sends the query to `g`. */
  ghost predicate RuledTo(cfg: Config, names: seq<string>, g: Group) {
    exists i :: 0 <= i < |names| && names[i] in cfg.rules && GroupOf(cfg.rules[names[i]]) == Some(g)
                && forall k :: 0 <= k < i ==> names[k] !in cfg.rules
  }

  /** The first pattern that matches the first name any pattern matches sends the query to `g`. */
  ghost predicate MatchedTo(cfg: Config, names: seq<string>, g: Group) {
    exists i, j :: 0 <= i < |names| && 0 <= j < |cfg.regexRules|
                   && IsFirstMatch(cfg, names, i, j) && GroupOf(cfg.regexRules[j].target) == Some(g)
  }

  ghost predicate IsFirstMatch(cfg: Config, names: seq<string>, i: nat, j: nat)
    requires i < |names| && j < |cfg.regexRules|
  {
    && cfg.matches(cfg.regexRules[j].pattern, names[i])
    && (forall k :: 0 <= k < j ==> !cfg.matches(cfg.regexRules[k].pattern, names[i]))
    && forall k :: 0 <= k < i ==> Unmatched(names[k], cfg.regexRules, cfg.matches)
  }

  lemma {:induction false} FirstRuleFound(names: seq<string>, rules: map<string, string>) returns (i: nat)
    ensures i <= |names| && forall k :: 0 <= k < i ==> names[k] !in rules
    ensures i < |names| ==> names[i] in rules && FirstRule(names, rules) == Some(rules[names[i]])
    ensures i == |names| ==> FirstRule(names, rules) == None
  {
    i := 0;
    if names != [] && names[0] !in rules {
      var n := FirstRuleFound(names[1..], rules);
      i := n + 1;
      assert forall k :: 0 < k < i ==> names[k] == names[1..][k - 1];
    }
  }

  lemma {:induction false} FirstRegexFound(cfg: Config, names: seq<string>) returns (i: nat, j: nat)
    ensures i <= |names| && forall k :: 0 <= k < i ==> Unmatched(names[k], cfg.regexRules, cfg.matches)
    ensures i < |names| ==> j < |cfg.regexRules| && IsFirstMatch(cfg, names, i, j)
                            && FirstRegex(names, cfg.regexRules, cfg.matches) == Some(cfg.regexRules[j].target)
    ensures i == |names| ==> FirstRegex(names, cfg.regexRules, cfg.matches) == None
  {
    i, j := 0, 0;
    if names != [] {
      j := FirstPattern(names[0], cfg.regexRules, cfg.matches);
      if j == |cfg.regexRules| {
        var n;
        n, j := FirstRegexFound(cfg, names[1..]);
        i := n + 1;
        assert forall k :: 0 < k < |names| ==> names[k] == names[1..][k - 1];
      }
    }
  }

  /** Which stage decides, and for whom: an effective rule before any pattern, an effective
      pattern before the database, the database before the dual path. */
  lemma FirstMatch(cfg: Config, names: seq<string>)
    ensures ByName(cfg, names) == Only(CN, "Rule(CN)") <==> RuledTo(cfg, names, CN)
    ensures ByName(cfg, names) == Only(Overseas, "Rule(Overseas)") <==> RuledTo(cfg, names, Overseas)
    ensures ByName(cfg, names) == Only(CN, "Rule(Regex/CN)") <==>
            !(exists g :: RuledTo(cfg, names, g)) && MatchedTo(cfg, names, CN)
    ensures ByName(cfg, names) == Only(Overseas, "Rule(Regex/Overseas)") <==>
            !(exists g :: RuledTo(cfg, names, g)) && MatchedTo(cfg, names, Overseas)
    ensures ByName(cfg, names) == Only(CN, "GeoSite(CN)") <==>
            !(exists g :: RuledTo(cfg, names, g) || MatchedTo(cfg, names, g)) && AnyGeoSite(names, cfg.geoSiteCN)
    ensures ByName(cfg, names) == Both <==>
            !(exists g :: RuledTo(cfg, names, g) || MatchedTo(cfg, names, g)) && !AnyGeoSite(names, cfg.geoSiteCN)
  {
    var i := FirstRuleFound(names, cfg.rules);
    var m, n := FirstRegexFound(cfg, names);
    RuledIff(cfg, names, i);
    MatchedIff(cfg, names, m, n);
    hide RuledTo, MatchedTo, GroupOf, AnyGeoSite, FirstRule, FirstRegex, IsFirstMatch;
  }

  lemma RuledIff(cfg: Config, names: seq<string>, i: nat)
    requires i <= |names| && forall k :: 0 <= k < i ==> names[k] !in cfg.rules
    requires i < |names| ==> names[i] in cfg.rules
    ensures forall g :: RuledTo(cfg, names, g) <==> i < |names| && GroupOf(cfg.rules[names[i]]) == Some(g)
  {
    hide GroupOf;
    forall g | RuledTo(cfg, names, g)
      ensures i < |names| && GroupOf(cfg.rules[names[i]]) == Some(g)
    {
      var k :| 0 <= k < |names| && names[k] in cfg.rules && GroupOf(cfg.rules[names[k]]) == Some(g)
               && forall k' :: 0 <= k' < k ==> names[k'] !in cfg.rules;
      assert k == i;
    }
  }

  lemma MatchedIff(cfg: Config, names: seq<string>, i: nat, j: nat)
    requires i <= |names| && forall k :: 0 <= k < i ==> Unmatched(names[k], cfg.regexRules, cfg.matches)
    requires i < |names| ==> j < |cfg.regexRules| && IsFirstMatch(cfg, names, i, j)
    ensures forall g :: MatchedTo(cfg, names, g) <==> i < |names| && GroupOf(cfg.regexRules[j].target) == Some(g)
  {
    hide GroupOf;
    forall g | MatchedTo(cfg, names, g)
      ensures i < |names| && GroupOf(cfg.regexRules[j].target) == Some(g)
    {
      var i', j' :| 0 <= i' < |names| && 0 <= j' < |cfg.regexRules|
                    && IsFirstMatch(cfg, names, i', j') && GroupOf(cfg.regexRules[j'].target) == Some(g);
      assert i' == i && j' == j;
    }
  }

  /** Hosts come before everything else, but only to answer an address query of the address's
      family (or ANY), or to report an address that does not parse. */
  lemma HostsFirst(cfg: Config, req: Msg)
    requires req.question != []
    ensures var q := req.question[0];
            var name := Canonical(q.name);
            && (PolicyOf(cfg, req) == InvalidHost <==> name in cfg.hosts && cfg.parseIP(cfg.hosts[name]) == None)
            && (forall ip :: PolicyOf(cfg, req) == HostReply(ip) <==>
                  && name in cfg.hosts && cfg.parseIP(cfg.hosts[name]) == Some(ip)
                  && (q.qtype == TYPE_ANY || q.qtype == (if ip.V4? then TYPE_A else TYPE_AAAA)))
            && (PolicyOf(cfg, req).InvalidHost? || PolicyOf(cfg, req).HostReply?
                || PolicyOf(cfg, req) == ByName(cfg, MatchList(name)))
  {
    hide MatchList, FirstRule, FirstRegex, GroupOf, Canonical;
  }

  /** Nothing in the configuration speaks about this name. */
  predicate Silent(cfg: Config, name: string) {
    && name !in cfg.rules
    && Unmatched(name, cfg.regexRules, cfg.matches)
    && !cfg.geoSiteCN(name)
  }

  /** Names the configuration is silent about can be dropped from the front of a chain. */
  lemma SilentPrefix(cfg: Config, names: seq<string>, k: nat)
    requires k <= |names| && forall i :: 0 <= i < k ==> Silent(cfg, names[i])
    ensures ByName(cfg, names) == ByName(cfg, names[k..])
  {
    FirstRuleIs(names, cfg.rules, k);
    FirstRegexIs(names, cfg.regexRules, cfg.matches, k);
    if AnyGeoSite(names, cfg.geoSiteCN) {
      var i :| 0 <= i < |names| && cfg.geoSiteCN(names[i]);
      assert names[k..][i - k] == names[i];
    }
  }

  /** Service names inherit: when the configuration is silent about the first k names of the
      chain, the query is routed as a query for chain[k] itself would be. */
  lemma PolicyInherited(cfg: Config, req: Msg, k: nat, origin: Msg)
    requires req.question != [] && origin.question != []
    requires !EndsInTwoDots(req.question[0].name)
    requires k < |MatchList(req.question[0].name)|
    requires Canonical(origin.question[0].name) == MatchList(req.question[0].name)[k]
    requires forall i :: 0 <= i < k ==> Silent(cfg, MatchList(req.question[0].name)[i])
    requires Canonical(req.question[0].name) !in cfg.hosts && Canonical(origin.question[0].name) !in cfg.hosts
    ensures PolicyOf(cfg, req) == PolicyOf(cfg, origin)
  {
    var q := req.question[0].name;
    var chain := MatchList(q);
    ChainOfChainIff(q);
    TrimmedTwice(q);
    SilentPrefix(cfg, chain, k);
    ChainNameCanonical(q, k);
  }

  // ---------------------------------------------------------------- the dual path

  function FirstAddress(answer: seq<Record>): Option<IP> {
    if answer == [] then None
    else if answer[0].data.Address? then Some(answer[0].data.ip)
    else FirstAddress(answer[1..])
  }

  method FindAddress(answer: seq<Record>) returns (ip: Option<IP>)
    ensures ip == FirstAddress(answer)
    ensures ip == None <==> forall r :: r in answer ==> !r.data.Address?
  {
    assert answer[0..] == answer;
    for i := 0 to |answer|
      invariant forall k :: 0 <= k < i ==> !answer[k].data.Address?
      invariant FirstAddress(answer) == FirstAddress(answer[i..])
    {
      assert answer[i..][1..] == answer[i + 1..];
      if answer[i].data.Address? {
        return Some(answer[i].data.ip);
      }
    }
    return None;
  }

  predicate AddressInCN(cfg: Config, o: Outcome)
    requires o.Success()
  {
    var ip := FirstAddress(o.resp.value.answer);
    ip.Some? && cfg.isCNIP(ip.value)
  }

  /** The domestic answer is taken when it is NOERROR and the overseas one is not, or points
      into CN. */
  predicate PrefersCN(cfg: Config, overseas: Outcome, cn: Outcome) {
    cn.Success() && (overseas.Success() ==> AddressInCN(cfg, overseas))
  }

  function DualTag(cfg: Config, overseas: Outcome, cn: Outcome): string {
    if overseas.Success() then
      if !AddressInCN(cfg, overseas) then "GeoIP(Overseas)"
      else if cn.Success() then "GeoIP(CN)" else "GeoIP(CN/Fallback-Overseas)"
    else if cn.Success() then "GeoIP(Fallback/CN)"
    else if overseas.err == None then "GeoIP(Overseas)"
    else if cn.err == None then "GeoIP(CN)"
    else "GeoIP(Error)"
  }

  /** Which of the two race results the client gets. */
  predicate DualChoice(cfg: Config, overseas: Outcome, cn: Outcome, o: Outcome) {
    if PrefersCN(cfg, overseas, cn) then o == cn
    else if overseas.err == None then o == overseas
    else if cn.err == None then o == cn
    else o.resp == None && o.err.Some?
  }

  /** The context ended before both races did. */
  predicate Abandoned(a: Arrivals, reason: string)
    requires |a.dual| == 2
  {
    if a.dual[0].DualDone? then reason == a.dual[0].reason
    else a.dual[1].DualDone? && reason == a.dual[1].reason
  }

  ghost predicate IsDual(cfg: Config, a: Arrivals, o: Outcome, tag: string)
    requires ValidArrivals(cfg, a)
  {
    if a.dual[0].DualDone? || a.dual[1].DualDone? then
      tag == "GeoIP(Timeout)" && o.resp == None && o.err.Some? && Abandoned(a, o.err.value)
    else
      exists overseas, cn ::
        && IsRace(cfg.overseasClients, a.overseas, overseas)
        && IsRace(cfg.cnClients, a.cn, cn)
        && DualChoice(cfg, overseas, cn, o)
        && tag == DualTag(cfg, overseas, cn)
  }

  method Choose(cfg: Config, overseas: Outcome, cn: Outcome) returns (o: Outcome, tag: string)
    requires overseas.Proper() && cn.Proper()
    ensures DualChoice(cfg, overseas, cn, o) && tag == DualTag(cfg, overseas, cn) && o.Proper()
  {
    if overseas.err == None && overseas.resp.Some? && overseas.resp.value.rcode == NOERROR {
      var resolved := FindAddress(overseas.resp.value.answer);
      if resolved.Some? && cfg.isCNIP(resolved.value) {
        if cn.err == None && cn.resp.Some? && cn.resp.value.rcode == NOERROR {
          return Outcome(cn.resp, None), "GeoIP(CN)";
        }
        return Outcome(overseas.resp, None), "GeoIP(CN/Fallback-Overseas)";
      }
      return Outcome(overseas.resp, None), "GeoIP(Overseas)";
    }
    if cn.err == None && cn.resp.Some? && cn.resp.value.rcode == NOERROR {
      return Outcome(cn.resp, None), "GeoIP(Fallback/CN)";
    }
    if overseas.err == None && overseas.resp.Some? {
      return Outcome(overseas.resp, None), "GeoIP(Overseas)";
    }
    if cn.err == None && cn.resp.Some? {
      return Outcome(cn.resp, None), "GeoIP(CN)";
    }
    // Both races returned an error: the guards for anything else cannot fail here.
    return Outcome(None, Some("all queries failed: " + overseas.err.value + ", " + cn.err.value)), "GeoIP(Error)";
  }

  predicate NoError(o: Outcome) {
    o.err == None && o.resp.Some? && o.resp.value.rcode == 0
  }

  /** The first address record of the answer holds an address in CN. */
  predicate PointsIntoCN(cfg: Config, m: Msg) {
    exists i :: 0 <= i < |m.answer| && m.answer[i].data.Address? && cfg.isCNIP(m.answer[i].data.ip)
                && forall k :: 0 <= k < i ==> !m.answer[k].data.Address?
  }

  lemma {:induction false} FirstAddressAt(answer: seq<Record>, i: nat)
    requires i <= |answer| && forall k :: 0 <= k < i ==> !answer[k].data.Address?
    ensures i == |answer| ==> FirstAddress(answer) == None
    ensures i < |answer| && answer[i].data.Address? ==> FirstAddress(answer) == Some(answer[i].data.ip)
  {
    if i > 0 {
      FirstAddressAt(answer[1..], i - 1);
    }
  }

  lemma {:induction false} AddressFound(answer: seq<Record>) returns (i: nat)
    ensures i <= |answer| && forall k :: 0 <= k < i ==> !answer[k].data.Address?
    ensures i < |answer| ==> answer[i].data.Address?
  {
    i := 0;
    if answer != [] && !answer[0].data.Address? {
      var n := AddressFound(answer[1..]);
      i := n + 1;
      assert forall k :: 0 < k < i ==> answer[k] == answer[1..][k - 1];
    }
  }

  lemma AddressInCNIff(cfg: Config, o: Outcome)
    requires o.Success()
    ensures AddressInCN(cfg, o) <==> PointsIntoCN(cfg, o.resp.value)
  {
    var answer := o.resp.value.answer;
    var i := AddressFound(answer);
    FirstAddressAt(answer, i);
  }

  /** Of two NOERROR answers the client gets the domestic one exactly when the overseas answer
      points into CN; of one the one; of none the overseas message, else the domestic one. */
  lemma ChoiceIs(cfg: Config, overseas: Outcome, cn: Outcome, o: Outcome)
    requires overseas.Proper() && cn.Proper() && DualChoice(cfg, overseas, cn, o)
    ensures NoError(overseas) && NoError(cn) ==> o == if PointsIntoCN(cfg, overseas.resp.value) then cn else overseas
    ensures NoError(overseas) && !NoError(cn) ==> o == overseas
    ensures !NoError(overseas) && NoError(cn) ==> o == cn
    ensures !NoError(overseas) && !NoError(cn) ==>
              if overseas.resp.Some? then o == overseas
              else if cn.resp.Some? then o == cn
              else o.resp == None && o.err.Some?
  {
    hide AddressInCN, PointsIntoCN;
    if NoError(overseas) {
      AddressInCNIff(cfg, overseas);
    }
  }

  /** What the tag of the dual path says about the two races. */
  lemma TagIs(cfg: Config, overseas: Outcome, cn: Outcome)
    requires overseas.Proper() && cn.Proper()
    ensures DualTag(cfg, overseas, cn) ==
            if NoError(overseas) && PointsIntoCN(cfg, overseas.resp.value) && NoError(cn) then "GeoIP(CN)"
            else if NoError(overseas) && PointsIntoCN(cfg, overseas.resp.value) then "GeoIP(CN/Fallback-Overseas)"
            else if NoError(overseas) then "GeoIP(Overseas)"
            else if NoError(cn) then "GeoIP(Fallback/CN)"
            else if overseas.resp.Some? then "GeoIP(Overseas)"
            else if cn.resp.Some? then "GeoIP(CN)" else "GeoIP(Error)"
  {
    hide AddressInCN, PointsIntoCN;
    if NoError(overseas) {
      AddressInCNIff(cfg, overseas);
    }
  }

  method DualPath(cfg: Config, a: Arrivals) returns (o: Outcome, tag: string)
    requires ValidArrivals(cfg, a)
    ensures IsDual(cfg, a, o, tag) && o.Proper()
  {
    var overseasResult: Option<Outcome> := None;
    var cnResult: Option<Outcome> := None;
    var i := 0;
    while i < 2
      invariant 0 <= i <= 2
      invariant forall k :: 0 <= k < i ==> !a.dual[k].DualDone?
      invariant overseasResult.Some? <==> FromOverseas in a.dual[..i]
      invariant cnResult.Some? <==> FromCN in a.dual[..i]
      invariant overseasResult.Some? ==>
                  IsRace(cfg.overseasClients, a.overseas, overseasResult.value) && overseasResult.value.Proper()
      invariant cnResult.Some? ==> IsRace(cfg.cnClients, a.cn, cnResult.value) && cnResult.value.Proper()
    {
      assert a.dual[..i + 1] == a.dual[..i] + [a.dual[i]];
      match a.dual[i] {
        case FromOverseas =>
          var r := RaceResolve(cfg.overseasClients, a.overseas);
          overseasResult := Some(r);
        case FromCN =>
          var r := RaceResolve(cfg.cnClients, a.cn);
          cnResult := Some(r);
        case DualDone(reason) =>
          return Outcome(None, Some(reason)), "GeoIP(Timeout)";
      }
      i := i + 1;
    }
    assert a.dual == [a.dual[0], a.dual[1]] && a.dual[..2] == a.dual;
    if overseasResult == None || cnResult == None {
      // The incomplete-result branch: not reached, whichever race ends first.
      assert false;
      return Outcome(None, Some("incomplete result")), "GeoIP(Error)";
    }
    o, tag := Choose(cfg, overseasResult.value, cnResult.value);
  }

  // ---------------------------------------------------------------- one query

  /** The result the first-match policy prescribes for these arrivals. */
  ghost predicate Routed(cfg: Config, req: Msg, a: Arrivals, o: Outcome, tag: string)
    requires req.question != [] && ValidArrivals(cfg, a)
  {
    match PolicyOf(cfg, req)
    case InvalidHost => o.resp == None && o.err.Some? && tag == "Hosts"
    case HostReply(ip) => o == Outcome(HostOverride(req, ip), None) && tag == "Hosts"
    case Only(CN, t) => IsRace(cfg.cnClients, a.cn, o) && tag == t
    case Only(Overseas, t) => IsRace(cfg.overseasClients, a.overseas, o) && tag == t
    case Both => IsDual(cfg, a, o, tag)
  }

  method RouteInternal(cfg: Config, req: Msg, a: Arrivals) returns (o: Outcome, tag: string)
    requires req.question != [] && ValidArrivals(cfg, a)
    ensures Routed(cfg, req, a, o, tag) && o.Proper()
  {
    hide IsRace, IsDual, MatchList, FirstRule, FirstRegex, Canonical;
    var name := Canonical(req.question[0].name);
    var names := MatchNames(name);
    if name in cfg.hosts {
      var ip := cfg.parseIP(cfg.hosts[name]);
      if ip == None {
        return Outcome(None, Some("invalid address in hosts for " + name)), "Hosts";
      }
      var resp := HostOverride(req, ip.value);
      if resp.Some? {
        return Outcome(resp, None), "Hosts";
      }
    }
    var rule, ruleFound := LookupRule(names, cfg.rules);
    if ruleFound {
      match ToLower(rule) {
        case "cn" =>
          o := RaceResolve(cfg.cnClients, a.cn);
          return o, "Rule(CN)";
        case "overseas" =>
          o := RaceResolve(cfg.overseasClients, a.overseas);
          return o, "Rule(Overseas)";
        case _ =>
      }
    }
    var regexRule, regexFound := LookupRegexRule(names, cfg.regexRules, cfg.matches);
    if regexFound {
      match ToLower(regexRule) {
        case "cn" =>
          o := RaceResolve(cfg.cnClients, a.cn);
          return o, "Rule(Regex/CN)";
        case "overseas" =>
          o := RaceResolve(cfg.overseasClients, a.overseas);
          return o, "Rule(Regex/Overseas)";
        case _ =>
      }
    }
    var geoSiteRule := LookupGeoSite(names, cfg.geoSiteCN);
    if geoSiteRule != "" {
      assert ToLower("cn") == "cn";
      match ToLower(geoSiteRule) {
        case "cn" =>
          o := RaceResolve(cfg.cnClients, a.cn);
          return o, "GeoSite(CN)";
        case _ =>
          // The database lookup knows no other code.
          assert false;
      }
    }
    o, tag := DualPath(cfg, a);
  }
}
