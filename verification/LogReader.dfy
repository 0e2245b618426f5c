/** The backward log reader: fixed-size chunks from the end of the file, one byte at a
    time, with filtering, paging and an early stop. */
module LogReader {
  import opened LogFile
  import opened Options
  import opened Sequences

  predicate NonEmpty(l: seq<byte>) {
    l != []
  }

  predicate Anything<E>(e: E) {
    true
  }

  /** The non-empty lines of a text, the unterminated last one included. */
  function NonEmptyLines(content: seq<byte>): seq<seq<byte>> {
    Filter(NonEmpty, Split(content, NEWLINE))
  }

  /** What one line contributes: its entry, if it decodes and matches. */
  function PickOne<E>(decode: seq<byte> -> Option<E>, keep: E -> bool, line: seq<byte>): seq<E> {
    var e := decode(line);
    if e.Some? && keep(e.value) then [e.value] else []
  }

  function Pick<E>(decode: seq<byte> -> Option<E>, keep: E -> bool, lines: seq<seq<byte>>): seq<E> {
    if lines == [] then [] else PickOne(decode, keep, lines[0]) + Pick(decode, keep, lines[1..])
  }

  lemma PickSingle<E>(decode: seq<byte> -> Option<E>, keep: E -> bool, line: seq<byte>)
    ensures Pick(decode, keep, [line]) == PickOne(decode, keep, line)
  {
    assert [line][1..] == [];
    assert Pick(decode, keep, []) == [];
  }

  lemma {:induction false} PickConcat<E>(decode: seq<byte> -> Option<E>, keep: E -> bool,
                                        a: seq<seq<byte>>, b: seq<seq<byte>>)
    ensures Pick(decode, keep, a + b) == Pick(decode, keep, a) + Pick(decode, keep, b)
  {
    ConcatHead(a, b);
    ConcatHead(Pick(decode, keep, a), Pick(decode, keep, b));
    if a != [] {
      PickConcat(decode, keep, a[1..], b);
      ConcatAssociative(PickOne(decode, keep, a[0]), Pick(decode, keep, a[1..]), Pick(decode, keep, b));
    }
  }

  /** What a reader of the whole file should see: the matching entries, newest line first. */
  function NewestFirst<E>(decode: seq<byte> -> Option<E>, keep: E -> bool, content: seq<byte>): seq<E> {
    Pick(decode, keep, Reverse(NonEmptyLines(content)))
  }

  /** The entries of the complete lines behind an open first line. */
  function Behind<E>(decode: seq<byte> -> Option<E>, keep: E -> bool, content: seq<byte>): seq<E> {
    Pick(decode, keep, Reverse(Filter(NonEmpty, Split(content, NEWLINE)[1..])))
  }

  /** Reading one more byte to the left either extends the open line or closes it. */
  lemma BehindStep<E>(decode: seq<byte> -> Option<E>, keep: E -> bool, b: byte, rest: seq<byte>)
    ensures
      var line := Split(rest, NEWLINE)[0];
      Behind(decode, keep, [b] + rest) ==
      Behind(decode, keep, rest) + (if b == NEWLINE && line != [] then PickOne(decode, keep, line) else [])
  {
    var parts := Split(rest, NEWLINE);
    assert ([b] + rest)[1..] == rest;
    if b == NEWLINE {
      assert Split([b] + rest, NEWLINE)[1..] == parts;
      CloseFirst(decode, keep, parts);
    } else {
      assert Split([b] + rest, NEWLINE)[1..] == parts[1..];
    }
  }

  lemma CloseFirst<E>(decode: seq<byte> -> Option<E>, keep: E -> bool, parts: seq<seq<byte>>)
    requires |parts| >= 1
    ensures
        Pick(decode, keep, Reverse(Filter(NonEmpty, parts))) ==
      Pick(decode, keep, Reverse(Filter(NonEmpty, parts[1..]))) +
      (if parts[0] != [] then PickOne(decode, keep, parts[0]) else [])
  {
    var later := Filter(NonEmpty, parts[1..]);
    var head := if parts[0] != [] then [parts[0]] else [];
    assert Filter(NonEmpty, parts) == head + later;
    ReverseConcat(head, later);
    assert Reverse(head) == head;
    PickConcat(decode, keep, Reverse(later), head);
    PickSingle(decode, keep, parts[0]);
    assert parts[0] == [] ==> Reverse(later) + head == Reverse(later);
  }

  /** Once the whole file is behind, closing the open line gives the full list. */
  lemma BehindWhole<E>(decode: seq<byte> -> Option<E>, keep: E -> bool, content: seq<byte>)
    ensures
      var line := Split(content, NEWLINE)[0];
      NewestFirst(decode, keep, content) ==
      Behind(decode, keep, content) + (if line != [] then PickOne(decode, keep, line) else [])
  {
    CloseFirst(decode, keep, Split(content, NEWLINE));
  }

  /** Stopping early shows the page of the full scan exactly when the offset is not negative,
      or nothing was left to read. */
  lemma EarlyStopShowsFullPageIff<E>(all: seq<E>, offset: int, limit: int)
    requires 0 < offset + limit <= |all|
    ensures Page(all[..offset + limit], offset, limit) == Page(all, offset, limit)
       <==> offset >= 0 || |all| == offset + limit
  {
    if offset < 0 {
      assert |Page(all[..offset + limit], offset, limit)| == offset + limit;
    }
  }

  method ParseReverseLine<E>(decode: seq<byte> -> Option<E>, reversed: seq<byte>) returns (entry: Option<E>)
    ensures entry == decode(Reverse(reversed))
  {
    var n := |reversed|;
    var normal := [];
    for i := 0 to n
      invariant |normal| == i
      invariant forall k :: 0 <= k < i ==> normal[k] == reversed[n - 1 - k]
    {
      normal := normal + [reversed[n - 1 - i]];
    }
    assert normal == Reverse(reversed);
    entry := decode(normal);
  }

  lemma VisitedAll<E>(all: seq<E>, stopAfter: int, totalHint: int, unsearched: bool)
    requires stopAfter > 0 && totalHint >= 0 && unsearched ==> |all| <= stopAfter
    ensures Visited(all, stopAfter, totalHint, unsearched) == all
  {
  }

  lemma ReverseSnoc<T>(s: seq<T>, x: T)
    ensures Reverse(s + [x]) == [x] + Reverse(s)
  {
    ReverseConcat(s, [x]);
    assert Reverse([x]) == [x];
  }

  /** Where the scan stops: after `stopAfter` matches when a total is known and nothing is searched. */
  function Visited<E>(all: seq<E>, stopAfter: int, totalHint: int, unsearched: bool): seq<E> {
    if 0 < stopAfter <= |all| && totalHint >= 0 && unsearched then all[..stopAfter] else all
  }

  method ProcessLine<E>(decode: seq<byte> -> Option<E>, keep: E -> bool, line: seq<byte>,
                        offset: int, limit: int, stopAfter: int, totalHint: int, unsearched: bool,
                        result: seq<E>, matchCount: nat, ghost seen: seq<E>)
    returns (result': seq<E>, matchCount': nat, stop: bool)
    requires matchCount == |seen| && result == Page(seen, offset, limit)
    requires stopAfter > 0 && totalHint >= 0 && unsearched ==> |seen| < stopAfter
    ensures matchCount' == |seen + PickOne(decode, keep, Reverse(line))|
    ensures result' == Page(seen + PickOne(decode, keep, Reverse(line)), offset, limit)
    ensures stop <==> stopAfter > 0 && totalHint >= 0 && unsearched && matchCount' == stopAfter
    ensures !stop && stopAfter > 0 && totalHint >= 0 && unsearched ==> matchCount' < stopAfter
  {
    result', matchCount', stop := result, matchCount, false;
    var entry := ParseReverseLine(decode, line);
    if entry == None || !keep(entry.value) {
      assert seen + [] == seen;
      return;
    }
    PageSnoc(seen, entry.value, offset, limit);
    if matchCount >= offset && |result| < limit {
      result' := result + [entry.value];
    }
    matchCount' := matchCount + 1;
    stop := stopAfter > 0 && totalHint >= 0 && unsearched && matchCount' >= stopAfter;
  }

  /** What is behind a suffix is the front of what is behind the whole. */
  lemma {:induction false} BehindGrows<E>(decode: seq<byte> -> Option<E>, keep: E -> bool, content: seq<byte>, p: nat)
    requires p <= |content|
    ensures Behind(decode, keep, content[p..]) <= Behind(decode, keep, content)
  {
    if p == 0 {
      assert content[0..] == content;
    } else {
      BehindGrows(decode, keep, content, p - 1);
      assert content[p - 1..] == [content[p - 1]] + content[p..];
      BehindStep(decode, keep, content[p - 1], content[p..]);
    }
  }

  /** The reader's state after the bytes of `rest` have been read from the right. */
  ghost predicate Scanned<E>(decode: seq<byte> -> Option<E>, keep: E -> bool, rest: seq<byte>, line: seq<byte>,
                             result: seq<E>, matchCount: nat,
                             offset: int, limit: int, stopAfter: int, totalHint: int, unsearched: bool)
  {
    var seen := Behind(decode, keep, rest);
    && Reverse(line) == Split(rest, NEWLINE)[0]
    && matchCount == |seen| && result == Page(seen, offset, limit)
    && (stopAfter > 0 && totalHint >= 0 && unsearched ==> |seen| < stopAfter)
  }

  /** The scan has just found its last match. */
  ghost predicate Stopped<E>(decode: seq<byte> -> Option<E>, keep: E -> bool, rest: seq<byte>, result: seq<E>,
                             offset: int, limit: int, stopAfter: int, totalHint: int, unsearched: bool)
  {
    var seen := Behind(decode, keep, rest);
    result == Page(seen, offset, limit) && |seen| == stopAfter > 0 && totalHint >= 0 && unsearched
  }

  /** A stop after the suffix from `p` shows what was to be visited of the whole. */
  lemma StoppedPage<E>(decode: seq<byte> -> Option<E>, keep: E -> bool, content: seq<byte>, p: nat, result: seq<E>,
                       offset: int, limit: int, stopAfter: int, totalHint: int, unsearched: bool)
    requires p <= |content|
    requires Stopped(decode, keep, content[p..], result, offset, limit, stopAfter, totalHint, unsearched)
    ensures
      var all := NewestFirst(decode, keep, content);
      && result == Page(Visited(all, stopAfter, totalHint, unsearched), offset, limit)
      && totalHint >= 0 && unsearched
  {
    var seen := Behind(decode, keep, content[p..]);
    BehindGrows(decode, keep, content, p);
    BehindWhole(decode, keep, content);
    hide Behind, NewestFirst, Page;
    assert NewestFirst(decode, keep, content)[..|seen|] == seen;
  }

  lemma ScannedNothing<E>(decode: seq<byte> -> Option<E>, keep: E -> bool, content: seq<byte>,
                          offset: int, limit: int, stopAfter: int, totalHint: int, unsearched: bool)
    ensures Scanned(decode, keep, content[|content|..], [], [], 0, offset, limit, stopAfter, totalHint, unsearched)
  {
    assert content[|content|..] == [];
  }

  /** The loop body: one byte to the left of `rest`. */
  method ReadByte<E>(decode: seq<byte> -> Option<E>, keep: E -> bool, b: byte, ghost rest: seq<byte>, line: seq<byte>,
                     offset: int, limit: int, stopAfter: int, totalHint: int, unsearched: bool,
                     result: seq<E>, matchCount: nat)
    returns (line': seq<byte>, result': seq<E>, matchCount': nat, stop: bool)
    requires Scanned(decode, keep, rest, line, result, matchCount, offset, limit, stopAfter, totalHint, unsearched)
    ensures !stop ==> Scanned(decode, keep, [b] + rest, line', result', matchCount',
                              offset, limit, stopAfter, totalHint, unsearched)
    ensures stop ==> Stopped(decode, keep, [b] + rest, result', offset, limit, stopAfter, totalHint, unsearched)
  {
    line', result', matchCount', stop := line, result, matchCount, false;
    BehindStep(decode, keep, b, rest);
    assert ([b] + rest)[1..] == rest;
    if b == NEWLINE {
      if |line| > 0 {
        result', matchCount', stop := ProcessLine(decode, keep, line, offset, limit, stopAfter, totalHint, unsearched,
                                                  result, matchCount, Behind(decode, keep, rest));
        line' := [];
      }
    } else {
      ReverseSnoc(line, b);
      line' := line + [b];
    }
  }

  /** The inner loop: the bytes of one chunk from right to left. On a stop, `at` is the index
      in the chunk of the last byte read. */
  method ReadChunk<E>(decode: seq<byte> -> Option<E>, keep: E -> bool,
                      buf: seq<byte>, ghost rest: seq<byte>, line: seq<byte>,
                      offset: int, limit: int, stopAfter: int, totalHint: int, unsearched: bool,
                      result: seq<E>, matchCount: nat)
    returns (line': seq<byte>, result': seq<E>, matchCount': nat, stop: bool, at: nat)
    requires Scanned(decode, keep, rest, line, result, matchCount, offset, limit, stopAfter, totalHint, unsearched)
    ensures at <= |buf| && (!stop ==> at == 0)
    ensures !stop ==> Scanned(decode, keep, buf[at..] + rest, line', result', matchCount',
                              offset, limit, stopAfter, totalHint, unsearched)
    ensures stop ==> Stopped(decode, keep, buf[at..] + rest, result', offset, limit, stopAfter, totalHint, unsearched)
  {
    line', result', matchCount', stop := line, result, matchCount, false;
    var i := |buf|;
    at := i;
    assert buf[i..] + rest == rest;
    while i > 0
      invariant i == at <= |buf|
      invariant Scanned(decode, keep, buf[i..] + rest, line', result', matchCount',
                        offset, limit, stopAfter, totalHint, unsearched)
    {
      i := i - 1;
      at := i;
      assert [buf[i]] + (buf[i + 1..] + rest) == buf[i..] + rest;
      line', result', matchCount', stop :=
        ReadByte(decode, keep, buf[i], buf[i + 1..] + rest, line', offset, limit, stopAfter, totalHint, unsearched,
            result', matchCount');
      if stop {
        return;
      }
    }
    stop := false;
  }

  /** After the loop: the line still open at the start of the file. */
  method ReadFirstLine<E>(decode: seq<byte> -> Option<E>, keep: E -> bool, ghost content: seq<byte>, line: seq<byte>,
                          offset: int, limit: int, stopAfter: int, totalHint: int, unsearched: bool,
                          result: seq<E>, matchCount: nat)
    returns (result': seq<E>, total: int)
    requires Scanned(decode, keep, content, line, result, matchCount, offset, limit, stopAfter, totalHint, unsearched)
    ensures
      var all := NewestFirst(decode, keep, content);
      && result' == Page(Visited(all, stopAfter, totalHint, unsearched), offset, limit)
      && total == (if totalHint >= 0 && unsearched then totalHint else |all|)
  {
    BehindWhole(decode, keep, content);
    var count, stop := matchCount, false;
    ghost var all := NewestFirst(decode, keep, content);
    result' := result;
    if |line| > 0 {
      result', count, stop := ProcessLine(decode, keep, line, offset, limit, stopAfter, totalHint, unsearched,
                                          result, matchCount, Behind(decode, keep, content));
    }
    assert count == |all| && result' == Page(all, offset, limit);
    VisitedAll(all, stopAfter, totalHint, unsearched);
    if stop {
      return result', totalHint;
    }
    total := if totalHint >= 0 && unsearched then totalHint else count;
  }

  lemma SliceInChunk(content: seq<byte>, pos: nat, size: nat, at: nat)
    requires pos + size <= |content| && at <= size
    ensures content[pos + at..] == content[pos..pos + size][at..] + content[pos + size..]
  {
  }

  /** For every content, chunk size, offset and limit the reader shows the page of the
      newest-first list it visited; the total is the hint when one applies. */
  method ReadBackwards<E>(content: seq<byte>, chunk: nat, decode: seq<byte> -> Option<E>, keep: E -> bool,
                          offset: int, limit: int, stopAfter: int, totalHint: int, unsearched: bool)
    returns (result: seq<E>, total: int)
    requires chunk > 0
    ensures
      var all := NewestFirst(decode, keep, content);
      && result == Page(Visited(all, stopAfter, totalHint, unsearched), offset, limit)
      && total == (if totalHint >= 0 && unsearched then totalHint else |all|)
  {
    hide Scanned, Stopped, Visited, NewestFirst, Page;
    result := [];
    var matchCount: nat := 0;
    var pos := |content|;
    var line: seq<byte> := [];
    var stop := false;
    ScannedNothing(decode, keep, content, offset, limit, stopAfter, totalHint, unsearched);
    while pos > 0
      invariant 0 <= pos <= |content|
      invariant Scanned(decode, keep, content[pos..], line, result, matchCount,
                        offset, limit, stopAfter, totalHint, unsearched)
    {
      var readSize := if pos < chunk then pos else chunk;
      ghost var rest := content[pos..];
      pos := pos - readSize;
      var buf := content[pos..pos + readSize];
      var at: nat;
      line, result, matchCount, stop, at :=
        ReadChunk(decode, keep, buf, rest, line, offset, limit, stopAfter, totalHint, unsearched, result, matchCount);
      SliceInChunk(content, pos, readSize, at);
      if stop {
        StoppedPage(decode, keep, content, pos + at, result, offset, limit, stopAfter, totalHint, unsearched);
        return result, totalHint;
      }
    }
    assert content[0..] == content;
    result, total :=
      ReadFirstLine(decode, keep, content, line, offset, limit, stopAfter, totalHint, unsearched, result, matchCount);
  }

  // ------------------------------------------------- reading back what was appended

  /** The codec writes records and reads back what it wrote. */
  ghost predicate Faithful<E(!new)>(marshal: E -> Record, decode: seq<byte> -> Option<E>) {
    forall e :: IsRecord(marshal(e)) && decode(marshal(e)) == Some(e)
  }

  lemma {:induction false} NonEmptyAll(lines: seq<seq<byte>>)
    requires forall i :: 0 <= i < |lines| ==> lines[i] != []
    ensures Filter(NonEmpty, lines) == lines
  {
    if lines != [] {
      NonEmptyAll(lines[1..]);
    }
  }

  lemma EncodedNonEmptyLines(lines: seq<seq<byte>>)
    requires forall i :: 0 <= i < |lines| ==> IsRecord(lines[i])
    ensures NonEmptyLines(Encode(lines)) == lines
  {
    SplitEncode(lines);
    FilterConcat(NonEmpty, lines, [[]]);
    NonEmptyAll(lines);
    assert Filter(NonEmpty, [[]]) == [];
  }

  lemma {:induction false} PickMarshalled<E(!new)>(marshal: E -> Record, decode: seq<byte> -> Option<E>,
      keep: E -> bool, es: seq<E>)
    requires Faithful(marshal, decode)
    ensures Pick(decode, keep, Marshalled(marshal, es)) == Filter(keep, es)
  {
    if es != [] {
      PickMarshalled(marshal, decode, keep, es[1..]);
      assert Marshalled(marshal, es)[1..] == Marshalled(marshal, es[1..]);
      assert Marshalled(marshal, es)[0] == marshal(es[0]);
    }
  }

  /** Searching shows the searched entries of the unsearched list, in their order. */
  lemma {:induction false} PickFilter<E>(decode: seq<byte> -> Option<E>, keep: E -> bool, lines: seq<seq<byte>>)
    ensures Pick(decode, keep, lines) == Filter(keep, Pick(decode, Anything, lines))
  {
    if lines != [] {
      PickFilter(decode, keep, lines[1..]);
      var one := PickOne(decode, Anything, lines[0]);
      FilterConcat(keep, one, Pick(decode, Anything, lines[1..]));
      assert one != [] ==> one[1..] == [] && Filter(keep, one) == PickOne(decode, keep, lines[0]);
      assert one == [] ==> Filter(keep, one) == [];
    }
  }

  /** Round trip through the file: the reader's list of encoded entries is those entries,
      newest first and filtered. */
  lemma NewestFirstOfEncoded<E(!new)>(marshal: E -> Record, decode: seq<byte> -> Option<E>, keep: E -> bool, es: seq<E>)
    requires Faithful(marshal, decode)
    ensures NewestFirst(decode, keep, Encode(Marshalled(marshal, es))) == Filter(keep, Reverse(es))
  {
    var lines := Marshalled(marshal, es);
    assert forall i :: 0 <= i < |lines| ==> IsRecord(lines[i]);
    EncodedNonEmptyLines(lines);
    assert Reverse(lines) == Marshalled(marshal, Reverse(es));
    PickMarshalled(marshal, decode, keep, Reverse(es));
  }

  /** End to end: append any entries to a file of entries, or to a missing one, pruning as needed;
      the unsearched view is a page of the newest entries in newest-first order, the newest one
      among them, and the cached count is the number of entries a full scan finds. */
  lemma AppendedEntriesReadBack<E(!new)>(marshal: E -> Record, decode: seq<byte> -> Option<E>,
                                         f: FileState, earlier: seq<E>, es: seq<E>, limit: nat)
    returns (k: nat)
    requires Faithful(marshal, decode) && IsFileOf(f, Marshalled(marshal, earlier))
    requires forall i :: 0 <= i < |earlier + es| ==> |marshal((earlier + es)[i])| <= PROBE_SIZE
    requires es != []
    ensures k < |earlier + es|
    ensures
      var g := AppendAll(f, Marshalled(marshal, es), limit);
      && g.content.Some?
      && NewestFirst(decode, Anything, g.content.value) == Reverse((earlier + es)[k..])
      && g.count == |NewestFirst(decode, Anything, g.content.value)|
    ensures EncodedSize(Marshalled(marshal, earlier + es)) <= limit ==> k == 0
  {
    var rs := Marshalled(marshal, earlier + es);
    assert rs == Marshalled(marshal, earlier) + Marshalled(marshal, es);
    k := RunKeepsNewestRecords(f, Marshalled(marshal, earlier), Marshalled(marshal, es), limit);
    assert rs[k..] == Marshalled(marshal, (earlier + es)[k..]);
    NewestFirstOfEncoded(marshal, decode, Anything, (earlier + es)[k..]);
    FilterAll(Reverse((earlier + es)[k..]));
  }

  lemma {:induction false} FilterAll<E>(es: seq<E>)
    ensures Filter(Anything, es) == es
  {
    if es != [] {
      FilterAll(es[1..]);
    }
  }
}
