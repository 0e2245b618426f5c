/** matchNames: the query name followed by the names left after stripping leading
    underscore labels, whose routing policy the query inherits. */
module Names {
  import opened Sequences
  import opened Text

  /** Removes one trailing dot. */
  function TrimDot(s: string): string {
    if s != [] && s[|s| - 1] == '.' then s[..|s| - 1] else s
  }

  /** Labels of a name without escaped dots; a trailing dot does not add a label. */
  function Labels(s: string): seq<string> {
    if s == "" || s == "." then [] else Split(TrimDot(s), '.')
  }

  predicate Underscore(part: string) {
    part != [] && part[0] == '_'
  }

  /** What remains of `labels` after dropping one underscore label, two, and so on. */
  function Stripped(labels: seq<string>): seq<string> {
    if |labels| <= 1 || !Underscore(labels[0]) then []
    else
      var candidate := Join(labels[1..], '.');
      (if candidate == "" then [] else [candidate]) + Stripped(labels[1..])
  }

  function Canonical(q: string): string {
    ToLower(TrimDot(q))
  }

  function MatchList(q: string): seq<string> {
    var n := Canonical(q);
    if n == "" then [] else [n] + Stripped(Labels(n))
  }

  /** The candidates met while stripping the first `n` labels. */
  function StrippedUpTo(labels: seq<string>, n: nat): seq<string>
    requires n < |labels| || n == 0
  {
    if n == 0 then []
    else
      var candidate := Join(labels[n..], '.');
      StrippedUpTo(labels, n - 1) + (if candidate == "" then [] else [candidate])
  }

  lemma {:induction false} StrippedSplit(labels: seq<string>, i: nat)
    requires i < |labels| && forall j :: 0 <= j < i ==> Underscore(labels[j])
    ensures Stripped(labels) == StrippedUpTo(labels, i) + Stripped(labels[i..])
  {
    if i == 0 {
      assert labels[0..] == labels;
    } else {
      StrippedSplit(labels, i - 1);
      var rest := labels[i - 1..];
      assert rest[0] == labels[i - 1] && rest[1..] == labels[i..];
      var candidate := Join(labels[i..], '.');
      hide Stripped, Join;
      ConcatAssociative(StrippedUpTo(labels, i - 1), if candidate == "" then [] else [candidate],
                        Stripped(labels[i..]));
    }
  }

  /** Where the loop stops: at a label without underscore, or at the last label. */
  lemma StrippedEnd(labels: seq<string>, i: nat)
    requires i < |labels| && forall j :: 0 <= j < i ==> Underscore(labels[j])
    requires i == |labels| - 1 || !Underscore(labels[i])
    ensures Stripped(labels) == StrippedUpTo(labels, i)
  {
    StrippedSplit(labels, i);
    assert labels[i..][0] == labels[i];
  }

  lemma ShorterCandidate(labels: seq<string>, i: nat)
    requires i + 1 < |labels|
    ensures |Join(labels[i + 1..], '.')| < |Join(labels[i..], '.')|
  {
    assert labels[i..][1..] == labels[i + 1..];
  }

  lemma CanonicalLength(name: string)
    requires Labels(name) != []
    ensures |Join(Labels(name)[0..], '.')| <= |name|
  {
    assert Labels(name)[0..] == Labels(name);
    SplitJoin(TrimDot(name), '.');
  }

  method MatchNames(q: string) returns (names: seq<string>)
    ensures names == MatchList(q)
  {
    hide Stripped, Join, Labels, Split, TrimDot;
    var name := ToLower(TrimDot(q));
    if name == "" {
      return [];
    }
    names := [name];
    var seen := {name};
    var labels := Labels(name);
    if labels == [] {
      assert Stripped(labels) == [] by { StrippedOfNone(); }
      return;
    }
    CanonicalLength(name);
    var i := 0;
    while i < |labels| - 1
      invariant 0 <= i < |labels|
      invariant forall j :: 0 <= j < i ==> Underscore(labels[j])
      invariant names == [name] + StrippedUpTo(labels, i)
      invariant forall x :: x in seen ==> |Join(labels[i..], '.')| <= |x|
    {
      if !Underscore(labels[i]) {
        StrippedEnd(labels, i);
        return;
      }
      ShorterCandidate(labels, i);
      var candidate := Join(labels[i + 1..], '.');
      i := i + 1;
      if candidate == "" {
        continue;
      }
      if candidate in seen {
        // Never taken: a candidate is shorter than everything seen before it.
        assert false;
        continue;
      }
      names := names + [candidate];
      seen := seen + {candidate};
    }
    StrippedEnd(labels, i);
  }

  lemma StrippedOfNone()
    ensures Stripped([]) == []
  {
  }

  // ---------------------------------------------------------------- what the chain is

  predicate EndsWithDot(s: string) {
    s != [] && s[|s| - 1] == '.'
  }

  predicate EndsInTwoDots(s: string) {
    |s| >= 2 && s[|s| - 1] == '.' && s[|s| - 2] == '.'
  }

  predicate IsLower(s: string) {
    forall i :: 0 <= i < |s| ==> s[i] == LowerChar(s[i])
  }

  /** A run of labels that a name without trailing dot can have. */
  ghost predicate LabelRun(labels: seq<string>) {
    && |labels| >= 1
    && (forall l :: l in labels ==> '.' !in l && IsLower(l))
    && labels[|labels| - 1] != ""
  }

  lemma RunSuffix(labels: seq<string>, k: nat)
    requires LabelRun(labels) && k < |labels|
    ensures LabelRun(labels[k..])
  {
    assert labels[k..][|labels| - k - 1] == labels[|labels| - 1];
    forall l | l in labels[k..]
      ensures l in labels
    {
    }
  }

  lemma {:induction false} JoinOfRun(labels: seq<string>)
    requires LabelRun(labels)
    ensures var c := Join(labels, '.'); c != "" && !EndsWithDot(c) && IsLower(c)
  {
    assert labels[0] in labels;
    if |labels| > 1 {
      RunSuffix(labels, 1);
      JoinOfRun(labels[1..]);
      JoinEnd(labels[0], Join(labels[1..], '.'));
    }
  }

  lemma JoinEnd(first: string, rest: string)
    requires rest != "" && !EndsWithDot(rest) && IsLower(first) && IsLower(rest)
    ensures var c := first + "." + rest; c != "" && !EndsWithDot(c) && IsLower(c)
  {
  }

  lemma LabelRunName(labels: seq<string>)
    requires LabelRun(labels)
    ensures var c := Join(labels, '.');
            c != "" && !EndsWithDot(c) && IsLower(c) && Canonical(c) == c && Labels(c) == labels
  {
    JoinOfRun(labels);
    JoinSplit(labels, '.');
    hide Join, Split;
    var c := Join(labels, '.');
    assert ToLower(c) == c;
  }

  lemma {:induction false} PiecesLower(s: string)
    requires IsLower(s)
    ensures forall i :: 0 <= i < |Split(s, '.')| ==> IsLower(Split(s, '.')[i])
  {
    if s != [] {
      assert IsLower(s[1..]);
      PiecesLower(s[1..]);
    }
  }

  /** The last piece is empty exactly when nothing follows the last dot. */
  lemma {:induction false} LastPiece(s: string)
    ensures var ls := Split(s, '.'); ls[|ls| - 1] == "" <==> s == "" || EndsWithDot(s)
  {
    if |s| > 1 {
      LastPiece(s[1..]);
      assert s[1..][|s| - 2] == s[|s| - 1];
    } else if |s| == 1 {
      assert Split(s[1..], '.') == [[]];
    }
  }

  lemma CanonicalIsRun(q: string)
    requires Canonical(q) != "" && !EndsWithDot(Canonical(q))
    ensures LabelRun(Labels(Canonical(q))) && Join(Labels(Canonical(q)), '.') == Canonical(q)
  {
    var n := Canonical(q);
    SplitJoin(n, '.');
    assert IsLower(n);
    PiecesLower(n);
    LastPiece(n);
    hide Split, Join;
    assert TrimDot(n) == n;
    assert n == "." ==> EndsWithDot(n);
  }

  lemma CanonicalDots(q: string)
    ensures EndsWithDot(Canonical(q)) <==> EndsInTwoDots(q)
  {
  }

  /** For names that do not end in two dots the chain is exactly the label suffixes reached by
      stripping underscore labels, and it stops only at another label or at the last one. */
  lemma {:induction false} ChainIs(labels: seq<string>)
    requires LabelRun(labels)
    ensures ChainShape(labels, [Join(labels, '.')] + Stripped(labels))
  {
    assert labels[0..] == labels;
    if |labels| > 1 && Underscore(labels[0]) {
      RunSuffix(labels, 1);
      LabelRunName(labels[1..]);
      ChainIs(labels[1..]);
      var first := Join(labels, '.');
      var tail := [Join(labels[1..], '.')] + Stripped(labels[1..]);
      assert Stripped(labels) == tail;
      ChainShapeCons(labels, first, tail);
    }
  }

  ghost predicate ChainShape(labels: seq<string>, chain: seq<string>) {
    && 1 <= |chain| <= |labels|
    && (forall k :: 0 <= k < |chain| ==> chain[k] == Join(labels[k..], '.'))
    && (forall k :: 0 <= k < |chain| - 1 ==> Underscore(labels[k]))
    && (|chain| < |labels| ==> !Underscore(labels[|chain| - 1]))
  }

  lemma ChainShapeCons(labels: seq<string>, first: string, tail: seq<string>)
    requires |labels| > 1 && Underscore(labels[0]) && first == Join(labels, '.')
    requires ChainShape(labels[1..], tail)
    ensures ChainShape(labels, [first] + tail)
  {
    hide Join, Underscore;
    var chain := [first] + tail;
    assert labels[0..] == labels;
    forall k | 0 <= k < |chain|
      ensures chain[k] == Join(labels[k..], '.')
    {
      if k > 0 {
        ChainShapeName(labels, tail, k);
      }
    }
    forall k | 0 <= k < |chain| - 1
      ensures Underscore(labels[k])
    {
      if k > 0 {
        assert labels[1..][k - 1] == labels[k];
      }
    }
    assert |chain| < |labels| ==> labels[1..][|tail| - 1] == labels[|chain| - 1];
  }

  lemma ChainShapeName(labels: seq<string>, tail: seq<string>, k: nat)
    requires |labels| > 1 && ChainShape(labels[1..], tail) && 0 < k <= |tail|
    ensures tail[k - 1] == Join(labels[k..], '.')
  {
    hide Join, Underscore;
    assert labels[1..][k - 1..] == labels[k..];
  }

  lemma MatchListIs(q: string)
    requires Canonical(q) != "" && !EndsWithDot(Canonical(q))
    ensures ChainShape(Labels(Canonical(q)), MatchList(q)) && MatchList(q)[0] == Canonical(q)
  {
    CanonicalIsRun(q);
    ChainIs(Labels(Canonical(q)));
  }

  /** The chain has more than the name itself exactly when the name has more than one label and
      starts with an underscore. */
  lemma ServiceNameIff(q: string)
    requires Canonical(q) != "" && !EndsWithDot(Canonical(q))
    ensures |MatchList(q)| > 1 <==> Canonical(q)[0] == '_' && '.' in Canonical(q)
    ensures |MatchList(q)| == 1 ==> MatchList(q) == [Canonical(q)]
  {
    var n := Canonical(q);
    var labels := Labels(n);
    MatchListIs(q);
    assert TrimDot(n) == n && n != ".";
    FirstPiece(n);
  }

  /** The first piece starts the text; there is another one exactly when there is a separator. */
  lemma {:induction false} FirstPiece(s: string)
    ensures var ls := Split(s, '.');
            && (|ls| > 1 <==> '.' in s)
            && (s != "" ==> if s[0] == '.' then ls[0] == "" else ls[0] != "" && ls[0][0] == s[0])
  {
    if s != "" {
      FirstPiece(s[1..]);
    }
  }

  // ---------------------------------------------------------------- the chain of a chain

  lemma {:induction false} ChainOfRun(labels: seq<string>, k: nat)
    requires LabelRun(labels) && k < 1 + |Stripped(labels)|
    ensures var chain := [Join(labels, '.')] + Stripped(labels); MatchList(chain[k]) == chain[k..]
  {
    LabelRunName(labels);
    if k > 0 {
      RunSuffix(labels, 1);
      LabelRunName(labels[1..]);
      ChainOfRun(labels[1..], k - 1);
      var chain := [Join(labels, '.')] + Stripped(labels);
      var tail := [Join(labels[1..], '.')] + Stripped(labels[1..]);
      assert chain[1..] == tail;
      assert chain[k] == tail[k - 1] && chain[k..] == tail[k - 1..];
    }
  }

  /** Every name of the chain has the rest of the chain as its own, unless the query name ends in
      two dots: then the first name keeps a dot that a second call would trim. */
  lemma ChainOfChainIff(q: string)
    ensures (forall k :: 0 <= k < |MatchList(q)| ==> MatchList(MatchList(q)[k]) == MatchList(q)[k..])
            <==> !EndsInTwoDots(q)
  {
    CanonicalDots(q);
    var n := Canonical(q);
    var chain := MatchList(q);
    if EndsWithDot(n) {
      assert chain[0] == n && chain[0..] == chain;
      var again := MatchList(n);
      assert |Canonical(n)| < |n|;
      assert again == [] || again[0] != n;
    } else if n != "" {
      CanonicalIsRun(q);
      forall k | 0 <= k < |chain|
        ensures MatchList(chain[k]) == chain[k..]
      {
        ChainOfRun(Labels(n), k);
      }
    }
  }

  /** The router trims a name before handing it to matchNames, which trims again; that changes
      the chain exactly for names ending in two dots. */
  lemma TrimmedTwice(q: string)
    ensures MatchList(Canonical(q)) == MatchList(q) <==> !EndsInTwoDots(q)
  {
    CanonicalDots(q);
    var n := Canonical(q);
    if !EndsWithDot(n) {
      assert TrimDot(n) == n;
      ToLowerTwice(TrimDot(q));
    } else {
      assert |Canonical(n)| < |n|;
      assert MatchList(q)[0] == n;
    }
  }

  /** The names of a chain are in the form the lookups compare with. */
  lemma ChainNameCanonical(q: string, k: nat)
    requires !EndsInTwoDots(q) && k < |MatchList(q)|
    ensures Canonical(MatchList(q)[k]) == MatchList(q)[k]
  {
    CanonicalDots(q);
    CanonicalIsRun(q);
    MatchListIs(q);
    var labels := Labels(Canonical(q));
    RunSuffix(labels, k);
    LabelRunName(labels[k..]);
  }
}
