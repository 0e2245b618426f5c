/** Words of a line: white space, trimming, fields and the order sort.Strings uses. */
module Words {

  predicate IsSpace(c: char) {
    c == ' ' || '\t' <= c <= '\r'
  }

  predicate IsWord(s: string) {
    s != "" && forall i :: 0 <= i < |s| ==> !IsSpace(s[i])
  }

  function TrimLeft(s: string): string {
    if s != "" && IsSpace(s[0]) then TrimLeft(s[1..]) else s
  }

  function TrimRight(s: string): string {
    if s != "" && IsSpace(s[|s| - 1]) then TrimRight(s[..|s| - 1]) else s
  }

  function TrimSpace(s: string): string {
    TrimRight(TrimLeft(s))
  }

  /** Length of the leading run without white space. */
  function WordLength(s: string): (n: nat)
    ensures n <= |s|
    ensures forall i :: 0 <= i < n ==> !IsSpace(s[i])
    ensures n < |s| ==> IsSpace(s[n])
  {
    if s == "" || IsSpace(s[0]) then 0 else 1 + WordLength(s[1..])
  }

  function Fields(s: string): seq<string>
    decreases |s|
  {
    if s == "" then []
    else if IsSpace(s[0]) then Fields(s[1..])
    else
      var n := WordLength(s);
      [s[..n]] + Fields(s[n..])
  }

  lemma {:induction false} FieldsAreWords(s: string)
    ensures forall i :: 0 <= i < |Fields(s)| ==> IsWord(Fields(s)[i])
    decreases |s|
  {
    if s != "" {
      if IsSpace(s[0]) {
        FieldsAreWords(s[1..]);
      } else {
        FieldsAreWords(s[WordLength(s)..]);
      }
    }
  }

  /** A word before white space, or at the end, is the first field. */
  lemma WordFirst(w: string, rest: string)
    requires IsWord(w) && (rest == "" || IsSpace(rest[0]))
    ensures Fields(w + rest) == [w] + Fields(rest)
  {
    var s := w + rest;
    var n := WordLength(s);
    assert s[0] == w[0];
    assert forall i :: 0 <= i < |w| ==> s[i] == w[i];
    assert rest != "" ==> s[|w|] == rest[0];
    assert n == |w|;
    assert s[..n] == w && s[n..] == rest;
  }

  lemma FieldsOfPair(a: string, b: string)
    requires IsWord(a) && IsWord(b)
    ensures Fields(a + " " + b) == [a, b]
  {
    assert a + " " + b == a + (" " + b);
    WordFirst(a, " " + b);
    assert (" " + b)[1..] == b;
    WordFirst(b, "");
    assert b + "" == b;
  }

  /** No blank, tab, newline, vertical tab, form feed or carriage return. */
  predicate Solid(s: string) {
    s != "" && forall i :: 0 <= i < |s| ==> s[i] != ' ' && !(9 <= s[i] as int <= 13)
  }

  /** Any of the six separates two words. */
  lemma AnySpaceSeparates(a: string, c: char, b: string, d: char)
    requires Solid(a) && Solid(b)
    requires c == ' ' || 9 <= c as int <= 13
    requires d == ' ' || 9 <= d as int <= 13
    ensures Fields(a + [c] + b) == [a, b] && Fields(a + [c] + b + [d]) == [a, b]
  {
    assert IsWord(a) && IsWord(b) && IsSpace(c) && IsSpace(d);
    assert a + [c] + b == a + ([c] + b);
    WordFirst(a, [c] + b);
    assert ([c] + b)[1..] == b;
    WordFirst(b, "");
    assert b + "" == b;
    FieldsSnocSpace(a + [c] + b, d);
  }

  lemma {:induction false} FieldsSnocSpace(s: string, c: char)
    requires IsSpace(c)
    ensures Fields(s + [c]) == Fields(s)
    decreases |s|
  {
    if s == "" {
      assert (s + [c])[1..] == "";
    } else if IsSpace(s[0]) {
      assert (s + [c])[1..] == s[1..] + [c];
      FieldsSnocSpace(s[1..], c);
    } else {
      var n := WordLength(s);
      var w, rest := s[..n], s[n..];
      FieldsSnocSpace(rest, c);
      assert s + [c] == w + (rest + [c]) && s == w + rest;
      WordFirst(w, rest + [c]);
      WordFirst(w, rest);
    }
  }

  lemma {:induction false} FieldsTrimLeft(s: string)
    ensures Fields(TrimLeft(s)) == Fields(s)
    ensures TrimLeft(s) != "" ==> !IsSpace(TrimLeft(s)[0])
  {
    if s != "" && IsSpace(s[0]) {
      FieldsTrimLeft(s[1..]);
    }
  }

  lemma {:induction false} FieldsTrimRight(s: string)
    ensures Fields(TrimRight(s)) == Fields(s)
    ensures TrimRight(s) <= s
    ensures s != "" && !IsSpace(s[0]) ==> TrimRight(s) != ""
  {
    if s != "" && IsSpace(s[|s| - 1]) {
      FieldsTrimRight(s[..|s| - 1]);
      assert s == s[..|s| - 1] + [s[|s| - 1]];
      FieldsSnocSpace(s[..|s| - 1], s[|s| - 1]);
    }
  }

  /** Trimming keeps the fields, and a trimmed line starts with its first field. */
  lemma FieldsOfTrimmed(s: string)
    ensures Fields(TrimSpace(s)) == Fields(s)
    ensures TrimSpace(s) == "" <==> Fields(s) == []
    ensures TrimSpace(s) != "" ==> Fields(s)[0] != "" && TrimSpace(s)[0] == Fields(s)[0][0]
  {
    FieldsTrimLeft(s);
    FieldsTrimRight(TrimLeft(s));
    var t := TrimSpace(s);
    if t != "" {
      assert t[0] == TrimLeft(s)[0];
    }
  }

  // ---------------------------------------------------------------- order of strings

  /** Lexicographic order, the shorter string first. */
  predicate StringLE(a: string, b: string) {
    a == "" || (b != "" && (a[0] < b[0] || (a[0] == b[0] && StringLE(a[1..], b[1..]))))
  }

  /** The first difference decides; without one the shorter string comes first. */
  lemma {:induction false} StringLEIs(a: string, b: string, i: nat)
    requires i <= |a| && i <= |b| && forall k :: 0 <= k < i ==> a[k] == b[k]
    ensures i < |a| && i < |b| && a[i] != b[i] ==> (StringLE(a, b) <==> a[i] < b[i])
    ensures i == |a| ==> StringLE(a, b)
    ensures i == |b| && i < |a| ==> !StringLE(a, b)
  {
    if i > 0 {
      StringLEIs(a[1..], b[1..], i - 1);
    }
  }

  lemma {:induction false} StringLETotal(a: string, b: string)
    ensures StringLE(a, b) || StringLE(b, a)
  {
    if a != "" && b != "" {
      StringLETotal(a[1..], b[1..]);
    }
  }

  lemma {:induction false} StringLEAntisymmetric(a: string, b: string)
    requires StringLE(a, b) && StringLE(b, a)
    ensures a == b
  {
    if a != "" && b != "" {
      StringLEAntisymmetric(a[1..], b[1..]);
      assert a == [a[0]] + a[1..] && b == [b[0]] + b[1..];
    }
  }

  lemma {:induction false} StringLETransitive(a: string, b: string, c: string)
    requires StringLE(a, b) && StringLE(b, c)
    ensures StringLE(a, c)
  {
    if a != "" && a[0] == b[0] == c[0] {
      StringLETransitive(a[1..], b[1..], c[1..]);
    }
  }

  /** Sorted, without repetition. */
  ghost predicate Ascending(keys: seq<string>) {
    forall i, j :: 0 <= i < j < |keys| ==> keys[i] != keys[j] && StringLE(keys[i], keys[j])
  }

  ghost function Members(keys: seq<string>): set<string> {
    set k | k in keys
  }

  /** A set has one ascending enumeration. */
  lemma {:induction false} AscendingUnique(a: seq<string>, b: seq<string>)
    requires Ascending(a) && Ascending(b) && Members(a) == Members(b)
    ensures a == b
  {
    assert b != [] ==> b[0] in Members(b);
    if a != [] {
      assert a[0] in Members(a);
      HeadIsLeast(a, b[0]);
      HeadIsLeast(b, a[0]);
      StringLEAntisymmetric(a[0], b[0]);
      TailMembers(a);
      TailMembers(b);
      AscendingUnique(a[1..], b[1..]);
    }
  }

  lemma HeadIsLeast(a: seq<string>, x: string)
    requires Ascending(a) && x in a
    ensures StringLE(a[0], x)
  {
    if x == a[0] {
      StringLETotal(x, x);
    }
  }

  lemma TailMembers(a: seq<string>)
    requires a != [] && Ascending(a)
    ensures Members(a[1..]) == Members(a) - {a[0]} && Ascending(a[1..])
  {
    forall x
      ensures x in Members(a[1..]) <==> x in Members(a) - {a[0]}
    {
      if x in a && x != a[0] {
        var i :| 0 <= i < |a| && a[i] == x;
        assert a[1..][i - 1] == x;
      }
    }
  }

  function Insert(x: string, keys: seq<string>): seq<string> {
    if keys == [] || StringLE(x, keys[0]) then [x] + keys else [keys[0]] + Insert(x, keys[1..])
  }

  lemma {:induction false} InsertAscending(x: string, keys: seq<string>)
    requires Ascending(keys) && x !in keys
    ensures Ascending(Insert(x, keys)) && Members(Insert(x, keys)) == Members(keys) + {x}
  {
    if keys == [] {
    } else if StringLE(x, keys[0]) {
      forall j | 0 <= j < |keys|
        ensures StringLE(x, keys[j])
      {
        HeadIsLeast(keys, keys[j]);
        StringLETransitive(x, keys[0], keys[j]);
      }
      assert Members([x] + keys) == Members(keys) + {x};
    } else {
      TailMembers(keys);
      var tail := Insert(x, keys[1..]);
      InsertAscending(x, keys[1..]);
      StringLETotal(x, keys[0]);
      ConsAscending(keys[0], tail);
    }
  }

  lemma ConsAscending(first: string, tail: seq<string>)
    requires Ascending(tail)
    requires forall y :: y in Members(tail) ==> y != first && StringLE(first, y)
    ensures Ascending([first] + tail) && Members([first] + tail) == Members(tail) + {first}
  {
    forall j | 0 <= j < |tail|
      ensures tail[j] != first && StringLE(first, tail[j])
    {
      assert tail[j] in Members(tail);
    }
  }

  /** sort.Strings on the keys of a map, which come in any order but without repetition. */
  method SortStrings(order: seq<string>) returns (keys: seq<string>)
    requires forall i, j :: 0 <= i < j < |order| ==> order[i] != order[j]
    ensures Ascending(keys) && Members(keys) == Members(order)
  {
    keys := [];
    for i := 0 to |order|
      invariant Ascending(keys) && Members(keys) == Members(order[..i])
    {
      assert order[i] !in order[..i];
      assert order[i] !in Members(keys);
      assert order[..i + 1] == order[..i] + [order[i]];
      InsertAscending(order[i], keys);
      keys := Insert(order[i], keys);
    }
    assert order[..|order|] == order;
  }

  /** The ascending enumeration of a set. */
  ghost function SortedKeys(s: set<string>): (keys: seq<string>)
    ensures Ascending(keys) && Members(keys) == s
  {
    if s == {} then []
    else
      var x :| x in s;
      var rest := SortedKeys(s - {x});
      assert x !in Members(rest);
      InsertAscending(x, rest);
      Insert(x, rest)
  }
}
