/** The entities of the DNS wire format: header, question, resource record, message. */
module DnsMessage {
  import opened Bytes

  const MAX_LABEL := 63
  const MAX_NAME := 255
  const MAX_JUMPS: nat := 32
  const MAX_UDP := 512

  datatype Header = Header(
    id: nat, qr: bool, opcode: nat, aa: bool, tc: bool, rd: bool, ra: bool, z: nat, rcode: nat,
    qdcount: nat, ancount: nat, nscount: nat, arcount: nat)

  datatype Question = Question(name: Text, qtype: nat, qclass: nat)

  /** Record data by type. A and AAAA addresses are kept as text, like the original. */
  datatype RData =
    | A(address: Text)
    | NS(target: Text)
    | CNAME(target: Text)
    | SOA(mname: Text, rname: Text, serial: nat, refresh: nat, retry: nat, expire: nat, minimum: nat)
    | MX(preference: nat, exchange: Text)
    | TXT(strings: seq<Text>)
    | AAAA(address: Text)

  datatype Record = Record(name: Text, class_: nat, ttl: nat, data: RData)

  datatype Message = Message(
    header: Header, questions: seq<Question>,
    answers: seq<Record>, authorities: seq<Record>, additionals: seq<Record>)

  datatype DecodeError =
    | UnexpectedEof
    | NameEof
    | TruncatedPointer
    | PointerLoop
    | ReservedLabel
    | LabelExceedsBuffer
    | NameTooLong
    | RdataExceedsBuffer
    | BadLength
    | UnsupportedType

  datatype EncodeError =
    | EmptyLabel
    | LabelTooLong
    | EncodedNameTooLong
    | InvalidIPv4
    | InvalidIPv6
    | StringTooLong

  const TYPE_A := 1
  const TYPE_NS := 2
  const TYPE_CNAME := 5
  const TYPE_SOA := 6
  const TYPE_MX := 15
  const TYPE_TXT := 16
  const TYPE_AAAA := 28

  function TypeOf(d: RData): nat {
    match d
    case A(_) => TYPE_A
    case NS(_) => TYPE_NS
    case CNAME(_) => TYPE_CNAME
    case SOA(_, _, _, _, _, _, _) => TYPE_SOA
    case MX(_, _) => TYPE_MX
    case TXT(_) => TYPE_TXT
    case AAAA(_) => TYPE_AAAA
  }

  const NOERROR := 0
  const FORMERR := 1
  const SERVFAIL := 2
  const NXDOMAIN := 3
  const NOTIMP := 4
  const REFUSED := 5
}
