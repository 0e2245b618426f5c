/** Sequence vocabulary shared by the models: splitting on a separator, pages,
    trailing windows and reversal. */
module Sequences {

  /** The last `n` elements, or everything when there are fewer. */
  function LastN<T>(s: seq<T>, n: nat): seq<T> {
    if |s| <= n then s else s[|s| - n..]
  }

  function Reverse<T>(s: seq<T>): (r: seq<T>)
    ensures |r| == |s|
    ensures forall i :: 0 <= i < |s| ==> r[i] == s[|s| - 1 - i]
  {
    if s == [] then [] else Reverse(s[1..]) + [s[0]]
  }

  lemma {:induction false} ReverseConcat<T>(a: seq<T>, b: seq<T>)
    ensures Reverse(a + b) == Reverse(b) + Reverse(a)
  {
    forall i | 0 <= i < |a| + |b|
      ensures Reverse(a + b)[i] == (Reverse(b) + Reverse(a))[i]
    {
    }
  }

  function Filter<T>(keep: T -> bool, s: seq<T>): (r: seq<T>)
    ensures |r| <= |s|
  {
    if s == [] then [] else (if keep(s[0]) then [s[0]] else []) + Filter(keep, s[1..])
  }

  lemma ConcatAssociative<T>(a: seq<T>, b: seq<T>, c: seq<T>)
    ensures (a + b) + c == a + (b + c)
  {
  }

  lemma ConcatHead<T>(a: seq<T>, b: seq<T>)
    ensures a == [] ==> a + b == b
    ensures a != [] ==> (a + b)[0] == a[0] && (a + b)[1..] == a[1..] + b
  {
  }

  lemma {:induction false} FilterConcat<T>(keep: T -> bool, a: seq<T>, b: seq<T>)
    ensures Filter(keep, a + b) == Filter(keep, a) + Filter(keep, b)
  {
    ConcatHead(a, b);
    ConcatHead(Filter(keep, a), Filter(keep, b));
    if a != [] {
      FilterConcat(keep, a[1..], b);
      ConcatAssociative(if keep(a[0]) then [a[0]] else [], Filter(keep, a[1..]), Filter(keep, b));
    }
  }

  lemma {:induction false} FilterMembers<T>(keep: T -> bool, s: seq<T>)
    ensures forall x :: x in Filter(keep, s) <==> x in s && keep(x)
  {
    if s != [] {
      FilterMembers(keep, s[1..]);
      assert s == [s[0]] + s[1..];
    }
  }

  lemma {:induction false} FilterCounts<T>(keep: T -> bool, s: seq<T>)
    ensures forall x :: multiset(Filter(keep, s))[x] == if keep(x) then multiset(s)[x] else 0
  {
    if s != [] {
      FilterCounts(keep, s[1..]);
      assert s == [s[0]] + s[1..];
      assert multiset(s) == multiset{s[0]} + multiset(s[1..]);
      var rest := Filter(keep, s[1..]);
      assert keep(s[0]) ==> multiset(Filter(keep, s)) == multiset{s[0]} + multiset(rest);
    }
  }

  /** The indices of the elements with this property. */
  ghost function Places<T>(p: T -> bool, s: seq<T>): set<nat> {
    set i: nat | i < |s| && p(s[i])
  }

  lemma PlacesSnoc<T>(p: T -> bool, s: seq<T>, x: T)
    ensures |Places(p, s + [x])| == |Places(p, s)| + (if p(x) then 1 else 0)
  {
    var longer, before := s + [x], Places(p, s);
    assert forall i :: 0 <= i < |s| ==> longer[i] == s[i];
    assert longer[|s|] == x;
    if p(x) {
      assert Places(p, longer) == before + {|s|};
    } else {
      assert Places(p, longer) == before;
    }
  }

  lemma PlacesNone<T>(p: T -> bool)
    ensures Places(p, []) == {}
  {
  }

  /** Elements [offset, offset + limit) of `s`, clamped to what exists. A negative
      offset reads as 0 and a negative limit as an empty page. */
  function Page<T>(s: seq<T>, offset: int, limit: int): seq<T> {
    var from := if offset < 0 then 0 else if offset > |s| then |s| else offset;
    var to := if limit < 0 then from else if from + limit > |s| then |s| else from + limit;
    s[from..to]
  }

  lemma PageIs<T>(s: seq<T>, offset: nat, limit: nat, n: nat)
    requires offset + n <= |s| && n <= limit && (n == limit || offset + n == |s|)
    ensures Page(s, offset, limit) == s[offset..offset + n]
  {
  }

  lemma PageBeyond<T>(s: seq<T>, offset: nat, limit: int)
    requires offset >= |s|
    ensures Page(s, offset, limit) == []
  {
  }

  /** Appending one element to the list extends exactly the page that has room at that index. */
  lemma PageSnoc<T>(s: seq<T>, x: T, offset: int, limit: int)
    ensures Page(s + [x], offset, limit) ==
            Page(s, offset, limit) + (if offset <= |s| && |Page(s, offset, limit)| < limit then [x] else [])
  {
  }

  /** Consecutive pages of size `limit` starting at `offset`, glued together. */
  function Pages<T>(s: seq<T>, offset: nat, limit: nat): seq<T>
    requires limit > 0
    decreases |s| - offset
  {
    if offset >= |s| then [] else Page(s, offset, limit) + Pages(s, offset + limit, limit)
  }

  lemma PagesStep<T>(s: seq<T>, offset: nat, limit: nat)
    requires limit > 0
    ensures Pages(s, offset, limit) ==
            if offset >= |s| then [] else Page(s, offset, limit) + Pages(s, offset + limit, limit)
  {
  }

  lemma {:induction false} PagesCover<T>(s: seq<T>, offset: nat, limit: nat)
    requires limit > 0 && offset <= |s|
    ensures Pages(s, offset, limit) == s[offset..]
    decreases |s| - offset
  {
    if offset + limit < |s| {
      PagesCover(s, offset + limit, limit);
      PageIs(s, offset, limit, limit);
      hide Page;
      assert s[offset..] == s[offset..offset + limit] + s[offset + limit..];
    } else if offset < |s| {
      PageIs(s, offset, limit, |s| - offset);
      hide Page;
    }
  }

  /** The pieces of `s` between occurrences of `sep`; n separators give n + 1 pieces. */
  function Split<T(==)>(s: seq<T>, sep: T): (parts: seq<seq<T>>)
    ensures |parts| >= 1
  {
    if s == [] then [[]]
    else
      var rest := Split(s[1..], sep);
      if s[0] == sep then [[]] + rest else [[s[0]] + rest[0]] + rest[1..]
  }

  function Join<T>(parts: seq<seq<T>>, sep: T): seq<T>
    requires |parts| >= 1
  {
    if |parts| == 1 then parts[0] else parts[0] + [sep] + Join(parts[1..], sep)
  }

  lemma JoinCons<T>(first: seq<T>, rest: seq<seq<T>>, sep: T)
    requires |rest| >= 1
    ensures Join([first] + rest, sep) == first + [sep] + Join(rest, sep)
  {
    assert ([first] + rest)[1..] == rest;
  }

  /** Prefixing the first piece prefixes the whole text. */
  lemma JoinPrefix<T>(x: T, parts: seq<seq<T>>, sep: T)
    requires |parts| >= 1
    ensures Join([[x] + parts[0]] + parts[1..], sep) == [x] + Join(parts, sep)
  {
    var longer := [[x] + parts[0]] + parts[1..];
    assert longer[0] == [x] + parts[0] && longer[1..] == parts[1..];
    if |parts| > 1 {
      ConcatAssociative([x] + parts[0], [sep], Join(parts[1..], sep));
      ConcatAssociative([x], parts[0], [sep] + Join(parts[1..], sep));
      ConcatAssociative(parts[0], [sep], Join(parts[1..], sep));
    }
  }

  lemma {:induction false} SplitPieces<T>(s: seq<T>, sep: T)
    ensures forall i :: 0 <= i < |Split(s, sep)| ==> sep !in Split(s, sep)[i]
  {
    if s != [] {
      SplitPieces(s[1..], sep);
    }
  }

  /** Split is the inverse of Join: the pieces hold no separator and glue back to the text. */
  lemma {:induction false} SplitJoin<T>(s: seq<T>, sep: T)
    ensures Join(Split(s, sep), sep) == s
    ensures forall p :: p in Split(s, sep) ==> sep !in p
  {
    SplitPieces(s, sep);
    if s != [] {
      SplitJoin(s[1..], sep);
      var rest := Split(s[1..], sep);
      hide Join;
      JoinCons([], rest, sep);
      JoinPrefix(s[0], rest, sep);
      assert s == [s[0]] + s[1..];
    }
  }

  lemma {:induction false} JoinSplit<T>(parts: seq<seq<T>>, sep: T)
    requires |parts| >= 1
    requires forall p :: p in parts ==> sep !in p
    ensures Split(Join(parts, sep), sep) == parts
    decreases |parts|, |parts[0]|
  {
    var s := Join(parts, sep);
    assert parts[0] in parts;
    if parts[0] == [] {
      if |parts| > 1 {
        assert s[1..] == Join(parts[1..], sep);
        JoinSplit(parts[1..], sep);
        assert parts == [[]] + parts[1..];
      } else {
        assert parts == [[]];
      }
    } else {
      var shorter := [parts[0][1..]] + parts[1..];
      assert forall p :: p in parts[1..] ==> p in parts;
      assert shorter[1..] == parts[1..];
      assert s[1..] == Join(shorter, sep);
      JoinSplit(shorter, sep);
      assert s[0] == parts[0][0];
      assert parts[0] == [s[0]] + shorter[0];
      assert parts == [parts[0]] + shorter[1..];
    }
  }

  /** Splitting a concatenation at a separator splits each side on its own. */
  lemma {:induction false} SplitAt<T>(a: seq<T>, b: seq<T>, sep: T)
    ensures Split(a + [sep] + b, sep) == Split(a, sep) + Split(b, sep)
  {
    var s := a + [sep] + b;
    if a == [] {
      assert s[0] == sep && s[1..] == b;
    } else {
      assert s[0] == a[0] && s[1..] == a[1..] + [sep] + b;
      SplitAt(a[1..], b, sep);
      var x, y := Split(a[1..], sep), Split(b, sep);
      ConcatHead(x, y);
      ConcatAssociative([[]], x, y);
      ConcatAssociative([[a[0]] + x[0]], x[1..], y);
    }
  }
}
