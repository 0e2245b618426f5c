/** hosts.txt and rule.txt: a tolerant parser and a sorted printer that undo each other. */
module ConfigText {
  import opened Sequences
  import opened Text
  import opened Words

  /** hosts.txt holds "ip name name ..." lines, rule.txt "name target" lines. */
  datatype Format = Hosts | Rules

  const NEWLINE := '\n'

  // ---------------------------------------------------------------- parsing

  /** The assignments of one line, in order. Blank lines, lines whose first word starts with '#'
      and lines of one word have none. */
  function Entries(fmt: Format, fields: seq<string>): seq<(string, string)> {
    if |fields| < 2 || (fields[0] != "" && fields[0][0] == '#') then []
    else match fmt
      case Hosts => seq(|fields| - 1, i requires 0 <= i < |fields| - 1 => (ToLower(fields[i + 1]), fields[0]))
      case Rules => [(ToLower(fields[0]), ToLower(fields[1]))]
  }

  function Assign(m: map<string, string>, entries: seq<(string, string)>): map<string, string>
    decreases |entries|
  {
    if entries == [] then m else Assign(m[entries[0].0 := entries[0].1], entries[1..])
  }

  function LoadLine(fmt: Format, m: map<string, string>, line: string): map<string, string> {
    Assign(m, Entries(fmt, Fields(line)))
  }

  /** Lines are read in order, so the last assignment to a name wins. */
  function LoadLines(fmt: Format, m: map<string, string>, lines: seq<string>): map<string, string>
    decreases |lines|
  {
    if lines == [] then m else LoadLines(fmt, LoadLine(fmt, m, lines[0]), lines[1..])
  }

  function Load(fmt: Format, text: string): map<string, string> {
    LoadLines(fmt, map[], Split(text, NEWLINE))
  }

  lemma {:induction false} AssignSnoc(m: map<string, string>, entries: seq<(string, string)>, e: (string, string))
    ensures Assign(m, entries + [e]) == Assign(m, entries)[e.0 := e.1]
    decreases |entries|
  {
    if entries == [] {
      assert ([e])[1..] == [];
      assert [] + [e] == [e];
    } else {
      assert (entries + [e])[1..] == entries[1..] + [e];
      AssignSnoc(m[entries[0].0 := entries[0].1], entries[1..], e);
    }
  }

  lemma {:induction false} LoadConcat(fmt: Format, m: map<string, string>, a: seq<string>, b: seq<string>)
    ensures LoadLines(fmt, m, a + b) == LoadLines(fmt, LoadLines(fmt, m, a), b)
    decreases |a|
  {
    if a == [] {
      assert a + b == b;
    } else {
      assert (a + b)[0] == a[0] && (a + b)[1..] == a[1..] + b;
      LoadConcat(fmt, LoadLine(fmt, m, a[0]), a[1..], b);
    }
  }

  lemma LoadSnoc(fmt: Format, m: map<string, string>, lines: seq<string>, i: nat)
    requires i < |lines|
    ensures LoadLines(fmt, m, lines[..i + 1]) == LoadLine(fmt, LoadLines(fmt, m, lines[..i]), lines[i])
  {
    assert lines[..i + 1] == lines[..i] + [lines[i]];
    LoadConcat(fmt, m, lines[..i], [lines[i]]);
    assert [lines[i]][1..] == [];
  }

  lemma LoadNothing(fmt: Format, lines: seq<string>)
    ensures LoadLines(fmt, map[], lines[..0]) == map[]
  {
  }

  /** A skipped line leaves the map as it is. */
  lemma SkippedLine(fmt: Format, m: map<string, string>, raw: string)
    ensures TrimSpace(raw) == "" || TrimSpace(raw)[0] == '#' ==> LoadLine(fmt, m, raw) == m
    ensures |Fields(TrimSpace(raw))| < 2 ==> LoadLine(fmt, m, raw) == m
  {
    FieldsOfTrimmed(raw);
  }

  method LoadHosts(text: string) returns (hosts: map<string, string>)
    ensures hosts == Load(Hosts, text)
  {
    hide Fields, TrimSpace, Split, LoadLine, LoadLines, Assign;
    hosts := map[];
    var lines := Split(text, NEWLINE);
    LoadNothing(Hosts, lines);
    for i := 0 to |lines|
      invariant hosts == LoadLines(Hosts, map[], lines[..i])
    {
      LoadSnoc(Hosts, map[], lines, i);
      SkippedLine(Hosts, hosts, lines[i]);
      var line := TrimSpace(lines[i]);
      if line == "" || line[0] == '#' {
        continue;
      }
      var parts := Fields(line);
      if |parts| >= 2 {
        hosts := AddNames(hosts, lines[i], line, parts);
      }
    }
    assert lines[..|lines|] == lines;
  }

  /** The inner loop of the hosts parser: one address, any number of names. */
  method AddNames(hosts: map<string, string>, raw: string, line: string, parts: seq<string>)
      returns (updated: map<string, string>)
    requires line == TrimSpace(raw) != "" && line[0] != '#' && parts == Fields(line) && |parts| >= 2
    ensures updated == LoadLine(Hosts, hosts, raw)
  {
    FieldsOfTrimmed(raw);
    hide Fields, TrimSpace;
    var entries := Entries(Hosts, parts);
    var ip := parts[0];
    updated := hosts;
    for j := 1 to |parts|
      invariant updated == Assign(hosts, entries[..j - 1])
    {
      assert entries[..j] == entries[..j - 1] + [entries[j - 1]];
      AssignSnoc(hosts, entries[..j - 1], entries[j - 1]);
      updated := updated[ToLower(parts[j]) := ip];
    }
    assert entries[..|parts| - 1] == entries;
  }

  method LoadRules(text: string) returns (rules: map<string, string>)
    ensures rules == Load(Rules, text)
  {
    hide Fields, TrimSpace, Split, LoadLine, LoadLines;
    rules := map[];
    var lines := Split(text, NEWLINE);
    LoadNothing(Rules, lines);
    for i := 0 to |lines|
      invariant rules == LoadLines(Rules, map[], lines[..i])
    {
      LoadSnoc(Rules, map[], lines, i);
      SkippedLine(Rules, rules, lines[i]);
      var line := TrimSpace(lines[i]);
      if line == "" || line[0] == '#' {
        continue;
      }
      var parts := Fields(line);
      if |parts| >= 2 {
        RuleLine(rules, lines[i], line, parts);
        var domain := ToLower(parts[0]);
        var target := ToLower(parts[1]);
        rules := rules[domain := target];
      }
    }
    assert lines[..|lines|] == lines;
  }

  lemma RuleLine(rules: map<string, string>, raw: string, line: string, parts: seq<string>)
    requires line == TrimSpace(raw) != "" && line[0] != '#' && parts == Fields(line) && |parts| >= 2
    ensures LoadLine(Rules, rules, raw) == rules[ToLower(parts[0]) := ToLower(parts[1])]
  {
    FieldsOfTrimmed(raw);
    var e := (ToLower(parts[0]), ToLower(parts[1]));
    assert Assign(rules, [e]) == Assign(rules[e.0 := e.1], [e][1..]);
  }

  /** A hosts line with an address gives it to every name on the line, and to no other name. */
  lemma HostsLineAssigns(m: map<string, string>, line: string, name: string)
    requires |Fields(line)| >= 2 && !("#" <= Fields(line)[0])
    ensures var fields := Fields(line);
            var r := LoadLine(Hosts, m, line);
            && (name in r <==> name in m || exists i :: 1 <= i < |fields| && ToLower(fields[i]) == name)
            && (name in r ==>
                  r[name] == if exists i :: 1 <= i < |fields| && ToLower(fields[i]) == name then fields[0] else m[name])
  {
    var fields := Fields(line);
    hide Fields;
    var entries := Entries(Hosts, fields);
    AssignedSame(m, entries, fields[0], name);
    if exists i :: 1 <= i < |fields| && ToLower(fields[i]) == name {
      var i :| 1 <= i < |fields| && ToLower(fields[i]) == name;
      assert entries[i - 1].0 == name;
    }
    if exists j :: 0 <= j < |entries| && entries[j].0 == name {
      var j :| 0 <= j < |entries| && entries[j].0 == name;
      assert ToLower(fields[j + 1]) == name;
    }
  }

  /** A hosts line may be written with tabs and may end in a carriage return; so may a rule line. */
  lemma TabsAndReturns(fmt: Format, m: map<string, string>, first: string, second: string)
    requires Solid(first) && Solid(second) && first[0] != '#'
    ensures var line := first + "\t" + second + "\r";
            LoadLine(fmt, m, line) ==
            if fmt == Hosts then m[ToLower(second) := first] else m[ToLower(first) := ToLower(second)]
  {
    AnySpaceSeparates(first, '\t', second, '\r');
    hide Fields;
    var es := Entries(fmt, [first, second]);
    assert es == [es[0]];
    assert Assign(m, es) == Assign(m[es[0].0 := es[0].1], es[1..]);
  }

  lemma {:induction false} AssignedSame(m: map<string, string>, entries: seq<(string, string)>, value: string,
      name: string)
    requires forall i :: 0 <= i < |entries| ==> entries[i].1 == value
    ensures var r := Assign(m, entries);
            var named := exists j :: 0 <= j < |entries| && entries[j].0 == name;
            && (name in r <==> name in m || named)
            && (name in r ==> r[name] == if named then value else m[name])
    decreases |entries|
  {
    if entries != [] {
      var rest := entries[1..];
      AssignedSame(m[entries[0].0 := entries[0].1], rest, value, name);
      if exists j :: 0 <= j < |rest| && rest[j].0 == name {
        var j :| 0 <= j < |rest| && rest[j].0 == name;
        assert entries[j + 1].0 == name;
      }
      if exists j :: 0 < j < |entries| && entries[j].0 == name {
        var j :| 0 < j < |entries| && entries[j].0 == name;
        assert rest[j - 1].0 == name;
      }
    }
  }

  // ---------------------------------------------------------------- printing

  function Line(fmt: Format, name: string, value: string): string {
    match fmt
    case Hosts => value + " " + name
    case Rules => name + " " + value
  }

  function Print(fmt: Format, m: map<string, string>, keys: seq<string>): string
    requires forall i :: 0 <= i < |keys| ==> keys[i] in m
  {
    if keys == [] then "" else Line(fmt, keys[0], m[keys[0]]) + [NEWLINE] + Print(fmt, m, keys[1..])
  }

  lemma PrintCons(fmt: Format, m: map<string, string>, key: string, rest: seq<string>)
    requires key in m && forall j :: 0 <= j < |rest| ==> rest[j] in m
    ensures Print(fmt, m, [key] + rest) == Line(fmt, key, m[key]) + [NEWLINE] + Print(fmt, m, rest)
  {
    assert ([key] + rest)[1..] == rest;
  }

  lemma PrintNothing(fmt: Format, m: map<string, string>)
    ensures Print(fmt, m, []) == ""
  {
  }

  lemma {:induction false} PrintSnoc(fmt: Format, m: map<string, string>, keys: seq<string>, i: nat)
    requires i < |keys| && forall j :: 0 <= j < |keys| ==> keys[j] in m
    ensures Print(fmt, m, keys[..i + 1]) == Print(fmt, m, keys[..i]) + (Line(fmt, keys[i], m[keys[i]]) + [NEWLINE])
  {
    hide Print, Line;
    PrintNothing(fmt, m);
    var last := Line(fmt, keys[i], m[keys[i]]) + [NEWLINE];
    if i == 0 {
      assert keys[..1] == [keys[0]] + [] && keys[..0] == [];
      PrintCons(fmt, m, keys[0], []);
    } else {
      PrintSnoc(fmt, m, keys[1..], i - 1);
      var tail := keys[1..][..i - 1];
      assert keys[..i] == [keys[0]] + tail && keys[1..][..i] == keys[1..i + 1];
      assert keys[..i + 1] == [keys[0]] + keys[1..i + 1];
      PrintCons(fmt, m, keys[0], tail);
      PrintCons(fmt, m, keys[0], keys[1..i + 1]);
      ConcatAssociative(Line(fmt, keys[0], m[keys[0]]) + [NEWLINE], Print(fmt, m, tail), last);
    }
  }

  /** The saved text: one line a name, in ascending order of names. */
  ghost function Save(fmt: Format, m: map<string, string>): string {
    Print(fmt, m, SavedKeys(m))
  }

  ghost function SavedKeys(m: map<string, string>): (keys: seq<string>)
    ensures Ascending(keys) && Members(keys) == m.Keys
    ensures forall i :: 0 <= i < |keys| ==> keys[i] in m
  {
    var keys := SortedKeys(m.Keys);
    assert forall i :: 0 <= i < |keys| ==> keys[i] in Members(keys);
    keys
  }

  /** `order` is the order in which the map happens to hand out its keys; the bytes do not
      depend on it. */
  method MarshalPairs(fmt: Format, m: map<string, string>, order: seq<string>) returns (buf: string)
    requires forall i, j :: 0 <= i < j < |order| ==> order[i] != order[j]
    requires Members(order) == m.Keys
    ensures buf == Save(fmt, m)
  {
    var keys := SortStrings(order);
    AscendingUnique(keys, SavedKeys(m));
    hide Print, Ascending;
    buf := "";
    assert Print(fmt, m, keys[..0]) == "" by { PrintNothing(fmt, m); }
    for i := 0 to |keys|
      invariant forall j :: 0 <= j < |keys| ==> keys[j] in m
      invariant buf == Print(fmt, m, keys[..i])
    {
      PrintSnoc(fmt, m, keys, i);
      buf := buf + (Line(fmt, keys[i], m[keys[i]]) + [NEWLINE]);
    }
    assert keys[..|keys|] == keys;
  }

  // ---------------------------------------------------------------- round trips

  predicate Lowered(s: string) {
    ToLower(s) == s
  }

  /** What a pair must look like to survive a save and a load. */
  predicate GoodPair(fmt: Format, name: string, value: string) {
    && IsWord(name) && IsWord(value) && Lowered(name)
    && match fmt
       case Hosts => value[0] != '#'
       case Rules => name[0] != '#' && Lowered(value)
  }

  predicate WellFormed(fmt: Format, m: map<string, string>) {
    forall k :: k in m ==> GoodPair(fmt, k, m[k])
  }

  lemma LowerWord(s: string)
    requires IsWord(s)
    ensures IsWord(ToLower(s)) && Lowered(ToLower(s)) && (ToLower(s)[0] == '#' <==> s[0] == '#')
  {
    ToLowerTwice(s);
  }

  lemma EntriesGood(fmt: Format, line: string, i: nat)
    requires i < |Entries(fmt, Fields(line))|
    ensures var e := Entries(fmt, Fields(line))[i]; GoodPair(fmt, e.0, e.1)
  {
    var fields := Fields(line);
    FieldsAreWords(line);
    hide Fields;
    LowerWord(fields[0]);
    match fmt
    case Hosts => LowerWord(fields[i + 1]);
    case Rules => LowerWord(fields[1]);
  }

  lemma {:induction false} AssignGood(fmt: Format, m: map<string, string>, entries: seq<(string, string)>)
    requires WellFormed(fmt, m)
    requires forall i :: 0 <= i < |entries| ==> GoodPair(fmt, entries[i].0, entries[i].1)
    ensures WellFormed(fmt, Assign(m, entries))
    decreases |entries|
  {
    if entries != [] {
      hide GoodPair;
      AssignGood(fmt, m[entries[0].0 := entries[0].1], entries[1..]);
    }
  }

  /** Whatever the text, only well-formed pairs are loaded. */
  lemma {:induction false} LoadedGood(fmt: Format, m: map<string, string>, lines: seq<string>)
    requires WellFormed(fmt, m)
    ensures WellFormed(fmt, LoadLines(fmt, m, lines))
    decreases |lines|
  {
    if lines != [] {
      hide GoodPair, Fields;
      forall i | 0 <= i < |Entries(fmt, Fields(lines[0]))|
        ensures GoodPair(fmt, Entries(fmt, Fields(lines[0]))[i].0, Entries(fmt, Fields(lines[0]))[i].1)
      {
        EntriesGood(fmt, lines[0], i);
      }
      AssignGood(fmt, m, Entries(fmt, Fields(lines[0])));
      LoadedGood(fmt, LoadLine(fmt, m, lines[0]), lines[1..]);
    }
  }

  /** A printed line is one line, and reading it back assigns exactly its pair. */
  lemma PrintedLine(fmt: Format, name: string, value: string, m: map<string, string>)
    requires GoodPair(fmt, name, value)
    ensures NEWLINE !in Line(fmt, name, value)
    ensures LoadLine(fmt, m, Line(fmt, name, value)) == m[name := value]
  {
    if fmt.Hosts? {
      FieldsOfPair(value, name);
    } else {
      FieldsOfPair(name, value);
    }
    hide Fields;
    assert Entries(fmt, Fields(Line(fmt, name, value))) == [(name, value)];
    assert Assign(m, [(name, value)]) == Assign(m[name := value], [(name, value)][1..]);
  }

  lemma SplitOneLine(line: string, rest: string)
    requires NEWLINE !in line
    ensures Split(line + [NEWLINE] + rest, NEWLINE) == [line] + Split(rest, NEWLINE)
  {
    SplitAt(line, rest, NEWLINE);
    JoinSplit([line], NEWLINE);
  }

  /** `r` is `start` with the pairs of `m` for `keys` written over it. */
  ghost predicate Overwritten(r: map<string, string>, start: map<string, string>, m: map<string, string>,
                              keys: set<string>) {
    && keys <= m.Keys
    && r.Keys == start.Keys + keys
    && forall k :: k in r ==> r[k] == if k in keys then m[k] else start[k]
  }

  lemma OverwrittenMore(r: map<string, string>, start: map<string, string>, m: map<string, string>,
                        k: string, keys: set<string>)
    requires k in m && Overwritten(r, start[k := m[k]], m, keys)
    ensures Overwritten(r, start, m, keys + {k})
  {
  }

  /** Reading a printed selection of pairs updates the map with exactly those. */
  lemma {:induction false} LoadPrint(fmt: Format, m: map<string, string>, keys: seq<string>, start: map<string, string>)
    requires WellFormed(fmt, m) && forall i :: 0 <= i < |keys| ==> keys[i] in m
    ensures Overwritten(LoadLines(fmt, start, Split(Print(fmt, m, keys), NEWLINE)), start, m, Members(keys))
    decreases |keys|
  {
    hide GoodPair, LoadLine, Split, Overwritten, Members;
    if keys == [] {
      EmptyText(fmt, start);
      NoKeys(start, m);
    } else {
      var k := keys[0];
      var line := Line(fmt, k, m[k]);
      var rest := Print(fmt, m, keys[1..]);
      PrintedLine(fmt, k, m[k], start);
      SplitOneLine(line, rest);
      LoadPrint(fmt, m, keys[1..], start[k := m[k]]);
      MembersCons(keys);
      assert ([line] + Split(rest, NEWLINE))[1..] == Split(rest, NEWLINE);
      OverwrittenMore(LoadLines(fmt, start[k := m[k]], Split(rest, NEWLINE)), start, m, k, Members(keys[1..]));
    }
  }

  lemma NoKeys(start: map<string, string>, m: map<string, string>)
    ensures Overwritten(start, start, m, Members([]))
  {
  }

  lemma EmptyText(fmt: Format, start: map<string, string>)
    ensures LoadLines(fmt, start, Split("", NEWLINE)) == start
  {
    assert Split("", NEWLINE) == [""] && [""][1..] == [];
    assert LoadLine(fmt, start, "") == start;
  }

  lemma MembersCons(keys: seq<string>)
    requires keys != []
    ensures Members(keys) == Members(keys[1..]) + {keys[0]}
  {
    assert keys == [keys[0]] + keys[1..];
  }

  /** Saving and loading gives a map back exactly when it is well-formed: non-empty names and
      values without white space, lower case, and no '#' at the start of a line. */
  lemma LoadSaveIff(fmt: Format, m: map<string, string>)
    ensures Load(fmt, Save(fmt, m)) == m <==> WellFormed(fmt, m)
  {
    hide GoodPair, Split, LoadLines, Print;
    LoadedGood(fmt, map[], Split(Save(fmt, m), NEWLINE));
    if WellFormed(fmt, m) {
      LoadPrint(fmt, m, SavedKeys(m), map[]);
    }
  }

  /** For every text: load, save and load again gives the same map. */
  lemma LoadSaveLoad(fmt: Format, text: string)
    ensures Load(fmt, Save(fmt, Load(fmt, text))) == Load(fmt, text)
  {
    LoadedGood(fmt, map[], Split(text, NEWLINE));
    LoadSaveIff(fmt, Load(fmt, text));
  }

  /** What is saved after a load is a normal form: saving and loading it again changes no byte. */
  lemma NormalForm(fmt: Format, text: string)
    ensures var saved := Save(fmt, Load(fmt, text)); Save(fmt, Load(fmt, saved)) == saved
  {
    LoadSaveLoad(fmt, text);
  }

  /** Two maps that both survive are told apart by their files. */
  lemma SaveInjective(fmt: Format, a: map<string, string>, b: map<string, string>)
    requires WellFormed(fmt, a) && WellFormed(fmt, b) && Save(fmt, a) == Save(fmt, b)
    ensures a == b
  {
    LoadSaveIff(fmt, a);
    LoadSaveIff(fmt, b);
  }

  /** A comment or a one-word line may stand anywhere. */
  lemma CommentIgnored(fmt: Format, before: string, comment: string, after: string)
    requires NEWLINE !in comment
    requires TrimSpace(comment) == "" || TrimSpace(comment)[0] == '#' || |Fields(comment)| < 2
    ensures Load(fmt, before + [NEWLINE] + (comment + [NEWLINE] + after)) == Load(fmt, before + [NEWLINE] + after)
  {
    SplitAt(before, comment + [NEWLINE] + after, NEWLINE);
    SplitAt(before, after, NEWLINE);
    SplitOneLine(comment, after);
    FieldsOfTrimmed(comment);
    var a, b := Split(before, NEWLINE), Split(after, NEWLINE);
    var m := LoadLines(fmt, map[], a);
    LoadConcat(fmt, map[], a, [comment] + b);
    LoadConcat(fmt, map[], a, b);
    SkippedLine(fmt, m, comment);
    assert ([comment] + b)[1..] == b;
  }

  /** Upper-case letters of a rule target do not survive; a pattern rule with an upper-case
      letter is read back as another pattern. */
  lemma PatternCaseIsLost()
    ensures var m := map["regexp:^A" := "cn"]; Load(Rules, Save(Rules, m)) != m
  {
    var m := map["regexp:^A" := "cn"];
    LoadSaveIff(Rules, m);
    var k := "regexp:^A";
    assert k in m && ToLower(k)[8] == 'a' && k[8] == 'A';
    assert !GoodPair(Rules, k, m[k]);
  }
}
