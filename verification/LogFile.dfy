/** The persisted query log: a byte string of newline-terminated records, kept under a
    size limit by dropping a prefix before an append that would not fit. */
module LogFile {
  import opened Options
  import opened Sequences

  newtype byte = x: int | 0 <= x < 256

  const NEWLINE: byte := 10

  type Record = seq<byte>

  /** A marshalled record is never empty and never contains a raw newline. */
  predicate IsRecord(r: seq<byte>) {
    r != [] && NEWLINE !in r
  }

  /** Bytes looked at after the cut for the next line start. */
  const PROBE_SIZE := 1024

  /** `content` is None while the file does not exist; `count` is the cached line count. */
  datatype FileState = FileState(content: Option<seq<byte>>, count: int)

  function LimitBytes(maxSizeMB: nat): nat {
    maxSizeMB * 1024 * 1024
  }

  function TargetBytes(limit: nat): nat {
    limit * 8 / 10
  }

  function IndexByte(s: seq<byte>, b: byte): (i: int)
    ensures i == -1 ==> b !in s
    ensures i != -1 ==> 0 <= i < |s| && s[i] == b && b !in s[..i]
  {
    if s == [] then -1
    else if s[0] == b then 0
    else
      var j := IndexByte(s[1..], b);
      assert s == [s[0]] + s[1..];
      if j == -1 then -1 else
        assert s[..j + 1] == [s[0]] + s[1..][..j];
        j + 1
  }

  function Newlines(s: seq<byte>): nat {
    if s == [] then 0 else (if s[0] == NEWLINE then 1 else 0) + Newlines(s[1..])
  }

  lemma {:induction false} NewlinesConcat(a: seq<byte>, b: seq<byte>)
    ensures Newlines(a + b) == Newlines(a) + Newlines(b)
  {
    if a == [] {
      assert a + b == b;
    } else {
      assert (a + b)[1..] == a[1..] + b;
      NewlinesConcat(a[1..], b);
    }
  }

  lemma {:induction false} NewlinesOfRecord(r: seq<byte>)
    requires NEWLINE !in r
    ensures Newlines(r + [NEWLINE]) == 1
  {
    if r != [] {
      assert (r + [NEWLINE])[1..] == r[1..] + [NEWLINE];
      NewlinesOfRecord(r[1..]);
    }
  }

  // ---------------------------------------------------------------- lines

  predicate Terminated(s: seq<byte>) {
    s == [] || s[|s| - 1] == NEWLINE
  }

  /** The complete lines of `s`, without their newlines. */
  function Lines(s: seq<byte>): seq<seq<byte>> {
    var parts := Split(s, NEWLINE);
    parts[..|parts| - 1]
  }

  ghost predicate LinesClean(lines: seq<seq<byte>>) {
    forall i :: 0 <= i < |lines| ==> NEWLINE !in lines[i]
  }

  /** Every line is at most as long as the probe window. */
  ghost predicate LinesFit(lines: seq<seq<byte>>) {
    forall i :: 0 <= i < |lines| ==> |lines[i]| <= PROBE_SIZE
  }

  /** The records of a list of things. */
  function Marshalled<E>(marshal: E -> Record, es: seq<E>): (rs: seq<Record>)
    ensures |rs| == |es|
    ensures forall i :: 0 <= i < |es| ==> rs[i] == marshal(es[i])
  {
    seq(|es|, i requires 0 <= i < |es| => marshal(es[i]))
  }

  /** Each line followed by a newline. */
  function Encode(lines: seq<seq<byte>>): seq<byte> {
    if lines == [] then [] else lines[0] + [NEWLINE] + Encode(lines[1..])
  }

  lemma {:induction false} EncodeConcat(a: seq<seq<byte>>, b: seq<seq<byte>>)
    ensures Encode(a + b) == Encode(a) + Encode(b)
  {
    if a == [] {
      assert a + b == b;
    } else {
      assert (a + b)[1..] == a[1..] + b;
      EncodeConcat(a[1..], b);
    }
  }

  lemma {:induction false} SplitEncode(lines: seq<seq<byte>>)
    requires LinesClean(lines)
    ensures Split(Encode(lines), NEWLINE) == lines + [[]]
  {
    if lines != [] {
      var l, rest := lines[0], lines[1..];
      SplitEncode(rest);
      SplitAt(l, Encode(rest), NEWLINE);
      assert Split(l, NEWLINE) == [l] by { JoinSplit([l], NEWLINE); }
      assert lines + [[]] == [l] + (rest + [[]]);
    }
  }

  /** Encoded lines are a terminated text with exactly those lines. */
  lemma {:induction false} LinesOfEncode(lines: seq<seq<byte>>)
    requires LinesClean(lines)
    ensures Lines(Encode(lines)) == lines
    ensures Terminated(Encode(lines))
    ensures Newlines(Encode(lines)) == |lines|
  {
    SplitEncode(lines);
    assert (lines + [[]])[..|lines|] == lines;
    if lines != [] {
      LinesOfEncode(lines[1..]);
      NewlinesOfRecord(lines[0]);
      NewlinesConcat(lines[0] + [NEWLINE], Encode(lines[1..]));
    }
  }

  /** A terminated text is the encoding of its lines. */
  lemma {:induction false} EncodeLines(s: seq<byte>)
    requires Terminated(s)
    ensures Encode(Lines(s)) == s
    ensures LinesClean(Lines(s))
    decreases |s|
  {
    if s != [] {
      var i := IndexByte(s, NEWLINE);
      assert s[|s| - 1] in s;
      var l, rest := s[..i], s[i + 1..];
      assert s == l + [NEWLINE] + rest;
      SplitAt(l, rest, NEWLINE);
      assert Split(l, NEWLINE) == [l] by { JoinSplit([l], NEWLINE); }
      assert Lines(s) == [l] + Lines(rest);
      EncodeLines(rest);
    }
  }

  // ---------------------------------------------------------------- pruning

  /** End of the window probed for a newline, which starts `target` bytes before the end. */
  function ProbeEnd(s: seq<byte>, target: nat): (end: nat)
    requires |s| > target
    ensures |s| - target <= end <= |s|
  {
    if |s| - target + PROBE_SIZE <= |s| then |s| - target + PROBE_SIZE else |s|
  }

  /** Where the kept part of an oversized file starts. */
  function CutPoint(s: seq<byte>, target: nat): (cut: nat)
    requires |s| > target
    ensures |s| - target <= cut <= |s|
  {
    var start := |s| - target;
    var i := IndexByte(s[start..ProbeEnd(s, target)], NEWLINE);
    if i != -1 then start + i + 1 else start
  }

  function Pruned(s: seq<byte>, target: nat): (kept: seq<byte>)
    ensures |kept| <= target && |kept| <= |s| && kept == s[|s| - |kept|..]
  {
    if |s| <= target then s else s[CutPoint(s, target)..]
  }

  /** Does a line of `s` start at `k`? */
  predicate LineStart(s: seq<byte>, k: nat)
    requires k <= |s|
  {
    k == 0 || s[k - 1] == NEWLINE
  }

  /** What pruning keeps, with the probe's 1024 bytes written out: the end behind the first newline
      at i of the probe, or the whole target when the probe holds none. */
  lemma PrunedIs(s: seq<byte>, target: nat, i: nat)
    requires |s| > target && i <= 1024 && |s| - target + i <= |s|
    requires NEWLINE !in s[|s| - target..|s| - target + i]
    ensures i < 1024 && |s| - target + i < |s| && s[|s| - target + i] == 10 ==>
              Pruned(s, target) == s[|s| - target + i + 1..]
    ensures i == 1024 || |s| - target + i == |s| ==> Pruned(s, target) == s[|s| - target..]
  {
    var start := |s| - target;
    var probe := s[start..ProbeEnd(s, target)];
    var j := IndexByte(probe, NEWLINE);
    forall m | start <= m < start + i
      ensures s[m] != NEWLINE
    {
      assert s[start..start + i][m - start] == s[m];
    }
    assert j != -1 ==> probe[j] == s[start + j];
    if i < |probe| {
      assert probe[i] == s[start + i];
      assert j > i ==> probe[..j][i] == probe[i];
    }
  }

  /** Pruning cuts no line in two exactly when a newline is in the probed window or
      directly before it. */
  lemma CutOnLineStartIff(s: seq<byte>, target: nat)
    requires |s| > target
    ensures LineStart(s, CutPoint(s, target)) <==> NEWLINE in s[|s| - target - 1..ProbeEnd(s, target)]
  {
    var start := |s| - target;
    var end := ProbeEnd(s, target);
    assert s[start - 1..end] == [s[start - 1]] + s[start..end];
    var i := IndexByte(s[start..end], NEWLINE);
    if i != -1 {
      assert s[start..end][i] == s[start + i] == NEWLINE;
    }
  }

  /** A newline-free run at the front is covered by the first piece. */
  lemma {:induction false} RunInFirstPiece(s: seq<byte>, j: nat)
    requires j <= |s| && NEWLINE !in s[..j]
    ensures |Split(s, NEWLINE)[0]| >= j
  {
    if j > 0 {
      assert s[0] == s[..j][0];
      assert s[1..][..j - 1] == s[..j][1..];
      RunInFirstPiece(s[1..], j - 1);
    }
  }

  /** A newline-free run lies inside one piece. */
  lemma {:induction false} RunInOnePiece(s: seq<byte>, i: nat, j: nat) returns (k: nat)
    requires i <= j <= |s| && NEWLINE !in s[i..j]
    ensures k < |Split(s, NEWLINE)| && |Split(s, NEWLINE)[k]| >= j - i
  {
    if i == 0 {
      assert s[..j] == s[0..j];
      RunInFirstPiece(s, j);
      k := 0;
    } else {
      assert s[1..][i - 1..j - 1] == s[i..j];
      var k' := RunInOnePiece(s[1..], i - 1, j - 1);
      k := if s[0] == NEWLINE then k' + 1 else k';
    }
  }

  /** In a terminated text a newline-free run lies inside one line. */
  lemma RunInOneLine(s: seq<byte>, i: nat, j: nat) returns (k: nat)
    requires Terminated(s) && i < j <= |s| && NEWLINE !in s[i..j]
    ensures k < |Lines(s)| && |Lines(s)[k]| >= j - i
  {
    k := RunInOnePiece(s, i, j);
    EncodeLines(s);
    SplitEncode(Lines(s));
    assert Split(s, NEWLINE) == Lines(s) + [[]];
  }

  /** With lines of at most PROBE_SIZE bytes in a terminated file the cut is a line start. */
  lemma ShortLinesCutOnLineStart(s: seq<byte>, target: nat)
    requires |s| > target && Terminated(s)
    requires LinesFit(Lines(s))
    ensures LineStart(s, CutPoint(s, target))
  {
    var start, end := |s| - target, ProbeEnd(s, target);
    CutOnLineStartIff(s, target);
    var run := s[start - 1..end];
    if end == |s| {
      assert run[|run| - 1] == s[|s| - 1];
    } else if NEWLINE !in run {
      var _ := RunInOneLine(s, start - 1, end);
      assert false;
    }
  }

  /** Cutting a terminated text at a line start keeps a suffix of its lines. */
  lemma CutKeepsLines(s: seq<byte>, cut: nat) returns (k: nat)
    requires Terminated(s) && cut <= |s| && LineStart(s, cut)
    ensures k <= |Lines(s)| && Lines(s[cut..]) == Lines(s)[k..]
    ensures s[cut..] == Encode(Lines(s)[k..])
    ensures Terminated(s[cut..])
  {
    var b := s[cut..];
    assert Terminated(b);
    if cut == 0 {
      k := 0;
      assert b == s;
    } else {
      var a := s[..cut - 1];
      assert s == a + [NEWLINE] + b;
      SplitAt(a, b, NEWLINE);
      k := |Split(a, NEWLINE)|;
      assert Lines(s) == Split(a, NEWLINE) + Lines(b);
      assert Lines(s)[k..] == Lines(b);
    }
    EncodeLines(b);
  }

  /** Pruning keeps whole lines when every line fits the probe window. */
  lemma PrunedKeepsWholeLines(s: seq<byte>, target: nat) returns (k: nat)
    requires Terminated(s)
    requires LinesFit(Lines(s))
    ensures k <= |Lines(s)| && Pruned(s, target) == Encode(Lines(s)[k..])
  {
    if |s| <= target {
      k := 0;
      EncodeLines(s);
      assert Lines(s)[0..] == Lines(s);
    } else {
      ShortLinesCutOnLineStart(s, target);
      k := CutKeepsLines(s, CutPoint(s, target));
    }
  }

  // ---------------------------------------------------------------- appending

  /** One append: prune first when the record would push the file over the limit. */
  function AppendRecord(f: FileState, r: Record, limit: nat): FileState {
    match f.content
    case None => FileState(Some(r + [NEWLINE]), f.count + 1)
    case Some(s) =>
      if |s| + |r| + 1 > limit && |s| > TargetBytes(limit) then
        var kept := Pruned(s, TargetBytes(limit));
        FileState(Some(kept + r + [NEWLINE]), Newlines(kept) + 1)
      else
        FileState(Some(s + r + [NEWLINE]), f.count + 1)
  }

  function AppendAll(f: FileState, rs: seq<Record>, limit: nat): FileState
    decreases |rs|
  {
    if rs == [] then f
    else AppendRecord(AppendAll(f, rs[..|rs| - 1], limit), rs[|rs| - 1], limit)
  }

  lemma {:induction false} AppendAllConcat(f: FileState, a: seq<Record>, b: seq<Record>, limit: nat)
    ensures AppendAll(f, a + b, limit) == AppendAll(AppendAll(f, a, limit), b, limit)
    decreases |b|
  {
    if b == [] {
      assert a + b == a;
    } else {
      assert (a + b)[..|a + b| - 1] == a + b[..|b| - 1];
      AppendAllConcat(f, a, b[..|b| - 1], limit);
    }
  }

  /** The file stays within the limit after an append from every starting content
      exactly when the record fits the slack between limit and target. */
  lemma FileBoundIff(r: Record, limit: nat)
    ensures (forall f: FileState :: f.content.Some? ==> |AppendRecord(f, r, limit).content.value| <= limit)
       <==> |r| + 1 <= limit - limit * 8 / 10
  {
    if |r| + 1 <= limit - TargetBytes(limit) {
      forall f: FileState | f.content.Some?
        ensures |AppendRecord(f, r, limit).content.value| <= limit
      {
        assert |Pruned(f.content.value, TargetBytes(limit))| <= TargetBytes(limit);
      }
    } else {
      var f := FileState(Some(seq(TargetBytes(limit), (_: int) => NEWLINE)), 0);
      assert |AppendRecord(f, r, limit).content.value| == TargetBytes(limit) + |r| + 1;
    }
  }

  /** Size bound over whole runs, from any starting file, missing or oversized. */
  lemma {:induction false} RunStaysWithinLimit(f: FileState, rs: seq<Record>, limit: nat)
    requires rs != []
    requires forall r :: r in rs ==> |r| + 1 <= limit - TargetBytes(limit)
    ensures AppendAll(f, rs, limit).content.Some?
    ensures |AppendAll(f, rs, limit).content.value| <= limit
  {
    var r := rs[|rs| - 1];
    assert r in rs;
    var before := AppendAll(f, rs[..|rs| - 1], limit);
    FileBoundIff(r, limit);
    if before.content.Some? {
      assert |AppendRecord(before, r, limit).content.value| <= limit;
    }
  }

  /** The cached count is the newline count of a terminated (or missing) file. */
  predicate CountExact(f: FileState) {
    match f.content
    case None => f.count == 0
    case Some(s) => Terminated(s) && f.count == Newlines(s)
  }

  lemma CountAfterRecord(s: seq<byte>, r: Record)
    requires NEWLINE !in r
    ensures Newlines(s + r + [NEWLINE]) == Newlines(s) + 1
  {
    NewlinesOfRecord(r);
    NewlinesConcat(s, r + [NEWLINE]);
    assert s + (r + [NEWLINE]) == s + r + [NEWLINE];
  }

  lemma CountExactStep(f: FileState, r: Record, limit: nat)
    requires CountExact(f) && NEWLINE !in r
    ensures CountExact(AppendRecord(f, r, limit))
  {
    var s := if f.content.Some? then f.content.value else [];
    var kept := Pruned(s, TargetBytes(limit));
    CountAfterRecord(s, r);
    CountAfterRecord(kept, r);
    assert [] + r + [NEWLINE] == r + [NEWLINE];
    var g := AppendRecord(f, r, limit).content.value;
    assert g[|g| - 1] == NEWLINE;
  }

  lemma {:induction false} CountStaysExact(f: FileState, rs: seq<Record>, limit: nat)
    requires CountExact(f) && LinesClean(rs)
    ensures CountExact(AppendAll(f, rs, limit))
    decreases |rs|
  {
    if rs != [] {
      CountStaysExact(f, rs[..|rs| - 1], limit);
      CountExactStep(AppendAll(f, rs[..|rs| - 1], limit), rs[|rs| - 1], limit);
    }
  }

  function EncodedSize(rs: seq<Record>): nat {
    |Encode(rs)|
  }

  /** Pruning a file of whole records. */
  lemma PruneRecords(kept: seq<Record>, target: nat) returns (m: nat)
    requires LinesClean(kept) && LinesFit(kept)
    ensures m <= |kept| && Pruned(Encode(kept), target) == Encode(kept[m..])
  {
    var s := Encode(kept);
    assert Lines(s) == kept && Terminated(s) by { LinesOfEncode(kept); }
    m := PrunedKeepsWholeLines(s, target);
  }

  lemma EncodeSnoc(rs: seq<Record>, r: Record)
    ensures Encode(rs + [r]) == Encode(rs) + r + [NEWLINE]
  {
    EncodeConcat(rs, [r]);
    assert Encode([r]) == r + [NEWLINE];
    assert Encode(rs) + r + [NEWLINE] == Encode(rs) + (r + [NEWLINE]);
  }

  /** One append to a file of whole records keeps its newest records and adds the new one. */
  lemma AppendKeepsNewest(kept: seq<Record>, r: Record, limit: nat) returns (m: nat)
    requires LinesClean(kept) && LinesFit(kept)
    ensures m <= |kept|
    ensures AppendRecord(FileState(Some(Encode(kept)), |kept|), r, limit) ==
            FileState(Some(Encode(kept[m..] + [r])), |kept| - m + 1)
    ensures |Encode(kept)| + |r| + 1 <= limit ==> m == 0
  {
    if |Encode(kept)| + |r| + 1 > limit && |Encode(kept)| > TargetBytes(limit) {
      m := PruneRecords(kept, TargetBytes(limit));
      assert Newlines(Encode(kept[m..])) == |kept| - m by { LinesOfEncode(kept[m..]); }
    } else {
      m := 0;
      assert kept[0..] == kept;
    }
    EncodeSnoc(kept[m..], r);
  }

  lemma AppendAllSnoc(f: FileState, init: seq<Record>, r: Record, limit: nat)
    ensures AppendAll(f, init + [r], limit) == AppendRecord(AppendAll(f, init, limit), r, limit)
  {
    assert (init + [r])[..|init|] == init;
  }

  lemma AppendFirst(r: Record, limit: nat)
    ensures AppendAll(FileState(None, 0), [r], limit) == FileState(Some(Encode([r])), 1)
  {
    assert [r] == [] + [r];
    AppendAllSnoc(FileState(None, 0), [], r, limit);
    assert Encode([r]) == r + [NEWLINE];
  }

  lemma EncodedSizeSnoc(init: seq<Record>, r: Record)
    ensures EncodedSize(init + [r]) == EncodedSize(init) + |r| + 1
  {
    EncodeSnoc(init, r);
  }

  /** One more record after a run that kept the records from `j` on. */
  lemma ExtendRun(f: FileState, init: seq<Record>, r: Record, j: nat, limit: nat) returns (k: nat)
    requires j <= |init| && f == FileState(Some(Encode(init[j..])), |init| - j)
    requires LinesClean(init) && LinesFit(init)
    ensures k <= |init|
    ensures AppendRecord(f, r, limit) == FileState(Some(Encode((init + [r])[k..])), |init| + 1 - k)
    ensures j == 0 && EncodedSize(init + [r]) <= limit ==> k == 0
  {
    EncodedSizeSnoc(init, r);
    var m := AppendKeepsNewest(init[j..], r, limit);
    k := j + m;
    assert (init + [r])[k..] == init[j..][m..] + [r];
    assert j == 0 ==> init[j..] == init;
  }

  /** A file of exactly these records, with an exact count; without records it may be missing. */
  ghost predicate IsFileOf(f: FileState, rs: seq<Record>) {
    f == FileState(Some(Encode(rs)), |rs|) || (rs == [] && f == FileState(None, 0))
  }

  lemma FirstOfRun(f: FileState, earlier: seq<Record>, r: Record, limit: nat) returns (k: nat)
    requires IsFileOf(f, earlier) && LinesClean(earlier) && LinesFit(earlier)
    ensures k <= |earlier|
    ensures AppendAll(f, [r], limit) == FileState(Some(Encode((earlier + [r])[k..])), |earlier| + 1 - k)
    ensures EncodedSize(earlier + [r]) <= limit ==> k == 0
  {
    assert [r] == [] + [r];
    AppendAllSnoc(f, [], r, limit);
    if f.content == None {
      AppendFirst(r, limit);
      k := 0;
      assert (earlier + [r])[0..] == [r];
    } else {
      assert earlier[0..] == earlier;
      k := ExtendRun(f, earlier, r, 0, limit);
    }
  }

  /** Appends to a file of whole records, or to a missing one: afterwards the file is exactly the
      newest of all records, whole and in order, the newest one included; the count is their
      number; and nothing is lost while everything fits. */
  lemma {:induction false} RunKeepsNewestRecords(f: FileState, earlier: seq<Record>, rs: seq<Record>, limit: nat)
      returns (k: nat)
    requires IsFileOf(f, earlier) && rs != []
    requires LinesClean(earlier + rs) && LinesFit(earlier + rs)
    ensures k < |earlier + rs|
    ensures AppendAll(f, rs, limit) == FileState(Some(Encode((earlier + rs)[k..])), |earlier + rs| - k)
    ensures EncodedSize(earlier + rs) <= limit ==> k == 0
    decreases |rs|
  {
    var init, r := rs[..|rs| - 1], rs[|rs| - 1];
    assert rs == init + [r];
    assert earlier + rs == (earlier + init) + [r];
    PrefixLines(earlier + init, [r]);
    PrefixLines(earlier, init);
    if init == [] {
      assert rs == [r];
      k := FirstOfRun(f, earlier, r, limit);
    } else {
      var j := RunKeepsNewestRecords(f, earlier, init, limit);
      AppendAllSnoc(f, init, r, limit);
      k := ExtendRun(AppendAll(f, init, limit), earlier + init, r, j, limit);
      EncodedSizeSnoc(earlier + init, r);
    }
  }

  lemma PrefixLines(a: seq<Record>, b: seq<Record>)
    requires LinesClean(a + b) && LinesFit(a + b)
    ensures LinesClean(a) && LinesFit(a)
  {
    forall l | l in a
      ensures l in a + b
    {
    }
    assert forall i :: 0 <= i < |a| ==> (a + b)[i] == a[i];
  }

  // ---------------------------------------------------------------- records longer than the probe

  function Copies(r: Record, n: nat): seq<Record> {
    seq(n, (_: int) => r)
  }

  lemma {:induction false} CopiesSize(r: Record, n: nat)
    ensures |Encode(Copies(r, n))| == n * (|r| + 1)
  {
    if n > 0 {
      CopiesSize(r, n - 1);
      assert Copies(r, n) == Copies(r, n - 1) + [r];
      EncodeSnoc(Copies(r, n - 1), r);
    }
  }

  lemma {:induction false} CopiesFit(r: Record, n: nat, limit: nat)
    requires 0 < n && n * (|r| + 1) <= limit
    ensures AppendAll(FileState(None, 0), Copies(r, n), limit) == FileState(Some(Encode(Copies(r, n))), n)
  {
    if n == 1 {
      assert Copies(r, 1) == [r];
      AppendFirst(r, limit);
    } else {
      assert (n - 1) * (|r| + 1) + |r| + 1 == n * (|r| + 1);
      CopiesFit(r, n - 1, limit);
      CopiesSize(r, n - 1);
      assert Copies(r, n) == Copies(r, n - 1) + [r];
      AppendAllSnoc(FileState(None, 0), Copies(r, n - 1), r, limit);
      EncodeSnoc(Copies(r, n - 1), r);
    }
  }

  lemma InsideRecord(front: seq<byte>, r: Record, behind: seq<byte>, skip: nat, n: nat)
    requires skip + n <= |r|
    ensures var s := front + (r + [NEWLINE] + behind);
            && s[|front| + skip..] == r[skip..] + [NEWLINE] + behind
            && s[|front| + skip..|front| + skip + n] == r[skip..skip + n]
  {
    var tail := r + [NEWLINE] + behind;
    assert (front + tail)[|front| + skip..] == tail[skip..];
    assert (front + tail)[|front| + skip..|front| + skip + n] == tail[skip..skip + n];
  }

  /** A cut that falls `skip` bytes into a record with no newline in reach keeps that record's rest. */
  lemma CutInRecord(front: seq<byte>, r: Record, behind: seq<byte>, skip: nat, target: nat)
    requires NEWLINE !in r && skip + PROBE_SIZE <= |r| && |front| + skip > 0
    requires target == |r| - skip + 1 + |behind|
    ensures Pruned(front + (r + [NEWLINE] + behind), target) == r[skip..] + [NEWLINE] + behind
  {
    var s := front + (r + [NEWLINE] + behind);
    InsideRecord(front, r, behind, skip, PROBE_SIZE);
    NothingToFind(s, |front| + skip, target);
  }

  lemma NothingToFind(s: seq<byte>, start: nat, target: nat)
    requires 0 < start && start + target == |s| && start + PROBE_SIZE <= |s|
    requires NEWLINE !in s[start..start + PROBE_SIZE]
    ensures Pruned(s, target) == s[start..]
  {
    assert ProbeEnd(s, target) == start + PROBE_SIZE;
  }

  /** Records longer than the probe are torn: the 980th record of 1069 bytes prunes a 1 MB file in
      the middle of a record, and the file then starts with that record's last 1049 bytes. */
  lemma LongRecordIsTorn(r: Record)
    requires |r| == 1069 && NEWLINE !in r
    ensures AppendAll(FileState(None, 0), Copies(r, 980), LimitBytes(1)) ==
            FileState(Some(Encode([r[20..]] + Copies(r, 784))), 785)
  {
    var limit := LimitBytes(1);
    var s := Encode(Copies(r, 979));
    CopiesFit(r, 979, limit);
    assert Copies(r, 980) == Copies(r, 979) + [r];
    AppendAllSnoc(FileState(None, 0), Copies(r, 979), r, limit);
    CopiesSize(r, 979);
    CopiesSize(r, 195);
    CopiesSize(r, 783);
    var front, behind := Encode(Copies(r, 195)), Encode(Copies(r, 783));
    assert Copies(r, 979) == Copies(r, 195) + ([r] + Copies(r, 783));
    EncodeConcat(Copies(r, 195), [r] + Copies(r, 783));
    EncodeCons(r, Copies(r, 783));
    CutInRecord(front, r, behind, 20, TargetBytes(limit));
    var torn := [r[20..]] + Copies(r, 783);
    EncodeCons(r[20..], Copies(r, 783));
    assert torn + [r] == [r[20..]] + Copies(r, 784);
    EncodeSnoc(torn, r);
    assert LinesClean(torn);
    LinesOfEncode(torn);
  }

  lemma EncodeCons(r: Record, rs: seq<Record>)
    ensures Encode([r] + rs) == r + [NEWLINE] + Encode(rs)
  {
    assert ([r] + rs)[1..] == rs;
  }
}
