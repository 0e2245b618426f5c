/** The server rotation of lookupWithRetry, with the 64-bit wrap-around of its counter. */
module BootstrapRetry {

  const WRAP := 0x1_0000_0000_0000_0000

  /** What one LookupIPAddr call gave: an address first in its list, no address, or an error. */
  datatype Reply = Address(ip: string) | NoAddress | Failed(error: string)

  datatype Answer = Ok(ip: string) | Err(last: Reply)

  /** The server index of attempt `i` when the counter stands at `start`. */
  function ServerAt(start: nat, i: nat, n: nat): nat
    requires n > 0
  {
    ((start + i) % WRAP) % n
  }

  ghost predicate AllTried(start: nat, n: nat)
    requires n > 0
  {
    forall j :: 0 <= j < n ==> Tried(start, n, j)
  }

  ghost predicate Tried(start: nat, n: nat, j: nat)
    requires n > 0
  {
    exists i :: 0 <= i < n && ServerAt(start, i, n) == j
  }

  class Bootstrapper {
    const servers: nat
    var counter: nat

    constructor (servers: nat)
      ensures this.servers == servers && counter == 0
    {
      this.servers := servers;
      counter := 0;
    }

    /** Takes the next start, then asks one server after another until one has an address.
        `replies[i]` is what the server asked in attempt `i` answers, `system` what the default
        resolver would; a server asked twice in one loop may answer differently. */
    method LookupWithRetry(replies: seq<Reply>, system: Reply) returns (answer: Answer, tried: seq<nat>)
      requires |replies| == servers && counter < WRAP
      modifies `counter
      ensures counter < WRAP
      ensures servers == 0 ==> counter == old(counter) && tried == []
      ensures servers == 0 ==> answer == if system.Address? then Ok(system.ip) else Err(system)
      ensures servers > 0 ==> counter == (old(counter) + 1) % WRAP && 0 < |tried| <= servers
      ensures servers > 0 ==> forall i :: 0 <= i < |tried| ==> tried[i] == ServerAt(counter, i, servers)
      ensures servers > 0 ==> forall i :: 0 <= i < |tried| - 1 ==> !replies[i].Address?
      ensures servers > 0 ==>
                var last := replies[|tried| - 1];
                if last.Address? then answer == Ok(last.ip) else answer == Err(last) && |tried| == servers
    {
      tried := [];
      if servers == 0 {
        return if system.Address? then Ok(system.ip) else Err(system), tried;
      }
      counter := (counter + 1) % WRAP;
      var startIdx := counter;
      var lastErr := NoAddress;
      var i := 0;
      while i < servers
        invariant 0 <= i == |tried| <= servers
        invariant counter == startIdx
        invariant forall k :: 0 <= k < i ==> tried[k] == ServerAt(startIdx, k, servers)
        invariant forall k :: 0 <= k < i ==> !replies[k].Address?
        invariant i > 0 ==> lastErr == replies[i - 1]
      {
        var server := ServerAt(startIdx, i, servers);
        tried := tried + [server];
        var reply := replies[i];
        i := i + 1;
        if reply.Address? {
          return Ok(reply.ip), tried;
        }
        lastErr := reply;
      }
      answer := Err(lastErr);
    }
  }

  lemma MulLe(a: int, b: int, n: nat)
    requires a <= b
    ensures a * n <= b * n
  {
    assert (b - a) * n >= 0;
    assert (b - a) * n == b * n - a * n;
  }

  lemma DivModUnique(a: int, q: int, n: nat, x: nat)
    requires x < n && a == q * n + x
    ensures a / n == q && a % n == x
  {
    var q', x' := a / n, a % n;
    assert a == q' * n + x';
    if q' < q {
      MulLe(q' + 1, q, n);
      assert false;
    } else if q < q' {
      MulLe(q + 1, q', n);
      assert false;
    }
  }

  lemma ModOf(q: nat, n: nat, x: nat)
    requires x < n
    ensures (q * n + x) % n == x
  {
    DivModUnique(q * n + x, q, n, x);
  }

  /** Residue of the place `back` steps before a multiple of `n` plus `r`. */
  lemma ResidueBefore(q: nat, r: nat, back: nat, n: nat)
    requires 0 < n && r < n && back < n && back <= q * n + r
    ensures (q * n + r - back) % n == if back <= r then r - back else r - back + n
  {
    if back <= r {
      ModOf(q, n, r - back);
    } else {
      assert q * n + r - back == (q - 1) * n + (r - back + n);
      DivModUnique(q * n + r - back, q - 1, n, r - back + n);
    }
  }

  /** Without a wrap every server is asked: attempt i asks the residue of start + i. */
  lemma TriedInPlainRotation(start: nat, n: nat, j: nat)
    requires 0 < n && j < n
    requires forall i :: 0 <= i < n ==> ServerAt(start, i, n) == (start + i) % n
    ensures Tried(start, n, j)
  {
    var q, r := start / n, start % n;
    assert start == q * n + r;
    var i := if j >= r then j - r else j - r + n;
    if j >= r {
      ModOf(q, n, j);
      assert start + i == q * n + j;
    } else {
      ModOf(q + 1, n, j);
      assert start + i == (q + 1) * n + j;
    }
    assert ServerAt(start, i, n) == j;
  }

  /** Indices asked before the wrap. */
  lemma BeforeWrap(start: nat, n: nat, i: nat)
    requires 0 < n < WRAP && start < WRAP < start + n && start + i < WRAP
    ensures
      var back, r := WRAP - start - i, WRAP % n;
      ServerAt(start, i, n) == if back <= r then r - back else r - back + n
  {
    var q, r := WRAP / n, WRAP % n;
    assert WRAP == q * n + r;
    DivModUnique(start + i, 0, WRAP, start + i);
    ResidueBefore(q, r, WRAP - start - i, n);
  }

  /** Indices asked after the wrap start again at server 0. */
  lemma AfterWrap(start: nat, n: nat, i: nat)
    requires 0 < n < WRAP && start < WRAP <= start + i && i < n
    ensures ServerAt(start, i, n) == start + i - WRAP
  {
    DivModUnique(start + i, 1, WRAP, start + i - WRAP);
    DivModUnique(start + i - WRAP, 0, n, start + i - WRAP);
  }

  /** With a wrap inside the loop and a server count not dividing 2^64 some server is skipped. */
  lemma WrapSkipsServer(start: nat, n: nat) returns (j: nat)
    requires 0 < n < WRAP && start < WRAP < start + n && WRAP % n != 0
    ensures j < n && !Tried(start, n, j)
  {
    var w, r := WRAP - start, WRAP % n;
    j := if r <= w then n + r - w - 1 else n - 1;
    forall i | 0 <= i < n
      ensures ServerAt(start, i, n) != j
    {
      if start + i < WRAP {
        BeforeWrap(start, n, i);
      } else {
        AfterWrap(start, n, i);
      }
    }
  }

  /** The wrap is invisible when it is outside the loop or a multiple of the server count. */
  lemma PlainRotation(start: nat, n: nat, i: nat)
    requires 0 < n < WRAP && start < WRAP && i < n
    requires start + n <= WRAP || WRAP % n == 0
    ensures ServerAt(start, i, n) == (start + i) % n
  {
    if start + i < WRAP {
      DivModUnique(start + i, 0, WRAP, start + i);
    } else {
      var q := WRAP / n;
      assert WRAP == q * n;
      AfterWrap(start, n, i);
      ModOf(q, n, start + i - WRAP);
    }
  }

  /** One loop asks every bootstrap server exactly when the counter does not wrap inside it or
      the number of servers divides 2^64. */
  lemma AllTriedIff(start: nat, n: nat)
    requires 0 < n < 0x1_0000_0000_0000_0000 && start < 0x1_0000_0000_0000_0000
    ensures AllTried(start, n) <==> start + n <= 0x1_0000_0000_0000_0000 || 0x1_0000_0000_0000_0000 % n == 0
  {
    hide ServerAt;
    if start + n <= WRAP || WRAP % n == 0 {
      forall i | 0 <= i < n
        ensures ServerAt(start, i, n) == (start + i) % n
      {
        PlainRotation(start, n, i);
      }
      forall j | 0 <= j < n
        ensures Tried(start, n, j)
      {
        TriedInPlainRotation(start, n, j);
      }
    } else {
      var j := WrapSkipsServer(start, n);
    }
  }
}
