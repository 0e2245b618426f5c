/** The parts of a DNS message the router looks at. */
module Dns {
  import opened Options

  const NOERROR := 0
  const SERVFAIL := 2
  const NXDOMAIN := 3

  const TYPE_A := 1
  const TYPE_AAAA := 28
  const TYPE_OPT := 41
  const TYPE_SVCB := 64
  const TYPE_HTTPS := 65
  const TYPE_ANY := 255

  datatype IP = V4(addr: int) | V6(addr: int)

  /** Record data: an address of an A or AAAA record, or anything else. */
  datatype Data = Address(ip: IP) | Opaque(bytes: string)

  datatype Record = Record(name: string, rrtype: int, ttl: int, data: Data)

  datatype Question = Question(name: string, qtype: int)

  datatype Msg = Msg(id: int, rcode: int, recursionDesired: bool, checkingDisabled: bool,
                     question: seq<Question>, answer: seq<Record>, ns: seq<Record>, extra: seq<Record>)

  /** A Go (response, error) pair; the code's contract is that exactly one is set. */
  datatype Outcome = Outcome(resp: Option<Msg>, err: Option<string>) {
    predicate Proper() {
      resp.Some? <==> err == None
    }

    predicate Success() {
      err == None && resp.Some? && resp.value.rcode == NOERROR
    }
  }
}
