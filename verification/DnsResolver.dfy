/** Answering a question from a zone store, chasing CNAMEs. The store is the function `find` from an
    owner name and a type to the records it holds; it does not change during one query. */
module DnsResolver {
  import opened Wrappers
  import opened Bytes
  import opened DnsMessage
  import opened DnsUdp

  datatype StoreRecord = StoreRecord(ttl: Option<nat>, data: RData)

  type Find = (Text, nat) -> seq<StoreRecord>

  /** The store's contract: records found under a type have data of that type. */
  ghost predicate Consistent(find: Find) {
    forall name, rtype, i :: 0 <= i < |find(name, rtype)| ==> TypeOf(find(name, rtype)[i].data) == rtype
  }

  const CLASS_IN := 1

  function ToRR(owner: Text, r: StoreRecord, defaultTtl: nat): Record {
    Record(owner, CLASS_IN, if r.ttl.Some? then r.ttl.value else defaultTtl, r.data)
  }

  function ToRRs(owner: Text, rs: seq<StoreRecord>, defaultTtl: nat): seq<Record> {
    seq(|rs|, i requires 0 <= i < |rs| => ToRR(owner, rs[i], defaultTtl))
  }

  /** The chase from `current` with the owners in `seen` behind it and `left` rounds to go. */
  function Chase(find: Find, qtype: nat, ttl: nat, current: Text, seen: set<Text>, left: nat): seq<Record>
    decreases left
  {
    if left == 0 || current in seen then []
    else
      var direct := find(current, qtype);
      if direct != [] then ToRRs(current, direct, ttl)
      else if qtype == TYPE_CNAME then []
      else
        var cnames := find(current, TYPE_CNAME);
        if cnames == [] then []
        else if !cnames[0].data.CNAME? then [ToRR(current, cnames[0], ttl)]
        else [ToRR(current, cnames[0], ttl)]
             + Chase(find, qtype, ttl, Lower(cnames[0].data.target), seen + {current}, left - 1)
  }

  lemma Extend(before: seq<Record>, r: Record, rest: seq<Record>)
    ensures before + ([r] + rest) == before + [r] + rest
  {
  }

  method ResolveWithCnameChase(find: Find, name: Text, qtype: nat, ttl: nat, maxDepth: nat)
    returns (out: seq<Record>)
    ensures out == Chase(find, qtype, ttl, name, {}, maxDepth)
  {
    hide Lower, ToRR;
    out := [];
    var seen: set<Text> := {};
    var current := name;
    for i := 0 to maxDepth
      invariant out + Chase(find, qtype, ttl, current, seen, maxDepth - i)
             == Chase(find, qtype, ttl, name, {}, maxDepth)
    {
      if current in seen { break; }
      ghost var before := out;
      seen := seen + {current};

      var direct := find(current, qtype);
      if |direct| > 0 {
        for k := 0 to |direct|
          invariant out == before + ToRRs(current, direct[..k], ttl)
        {
          assert direct[..k + 1] == direct[..k] + [direct[k]];
          out := out + [ToRR(current, direct[k], ttl)];
        }
        assert direct[..|direct|] == direct;
        return;
      }
      if qtype == TYPE_CNAME { return; }

      var cnames := find(current, TYPE_CNAME);
      if |cnames| == 0 { return; }
      var firstCname := cnames[0];
      out := out + [ToRR(current, firstCname, ttl)];
      if !firstCname.data.CNAME? { return; }
      Extend(before, ToRR(current, firstCname, ttl),
             Chase(find, qtype, ttl, Lower(firstCname.data.target), seen, maxDepth - i - 1));
      current := Lower(firstCname.data.target);
    }
  }

  // ---------------------------------------------------------------- the shape of an answer

  /** A record of the zone as it is sent: in class IN, with its own TTL or else the default one. */
  ghost predicate Held(held: StoreRecord, ttl: nat, r: Record) {
    held.data == r.data && r.class_ == 1 && (held.ttl == Some(r.ttl) || (held.ttl == None && r.ttl == ttl))
  }

  /** The records are exactly those that the zone holds for the owner under the type, in its order. */
  ghost predicate AllHeld(find: Find, ttl: nat, owner: Text, rtype: nat, records: seq<Record>) {
    && |records| == |find(owner, rtype)|
    && forall k :: 0 <= k < |records| ==> records[k].name == owner && Held(find(owner, rtype)[k], ttl, records[k])
  }

  lemma AreHeld(find: Find, ttl: nat, owner: Text, rtype: nat)
    ensures AllHeld(find, ttl, owner, rtype, ToRRs(owner, find(owner, rtype), ttl))
  {
  }

  /** The first n answers are CNAMEs, each owned by the lower-cased target of the one before, from
      `start` on; `end` is where they lead. */
  ghost predicate Chain(answers: seq<Record>, n: nat, start: Text, end: Text)
    requires n <= |answers|
  {
    if n == 0 then start == end
    else
      && answers[0].name == start && answers[0].data.CNAME?
      && Chain(answers[1..], n - 1, Lower(answers[0].data.target), end)
  }

  /** The record is the zone's first CNAME for its owner. */
  ghost predicate IsCnameOf(find: Find, r: Record, ttl: nat) {
    var cnames := find(r.name, TYPE_CNAME);
    cnames != [] && Held(cnames[0], ttl, r)
  }

  /** One of the first n answers has that owner. */
  ghost predicate Owns(answers: seq<Record>, n: nat, owner: Text)
    requires n <= |answers|
  {
    exists i :: 0 <= i < n && answers[i].name == owner
  }

  ghost predicate Stops(find: Find, qtype: nat, name: Text) {
    find(name, qtype) == [] && (qtype == 5 || find(name, 5) == [])
  }

  /** Whatever the zone contains, cycles included: an answer is a chain of at most `left` CNAMEs, each the zone's first
      for its owner, with distinct owners outside `seen`, followed by all records of the asked type at the end of the
      chain. No owner on the chain has records of the asked type. It ends in no such records only because the limit
      is reached, an owner comes again, or the zone has neither them nor a CNAME there. */
  lemma {:induction false} ChaseShape(find: Find, qtype: nat, ttl: nat, start: Text, seen: set<Text>, left: nat)
    returns (n: nat, end: Text)
    requires Consistent(find)
    ensures var out := Chase(find, qtype, ttl, start, seen, left);
            && n <= |out| && n <= left && Chain(out, n, start, end)
            && (out[n..] != [] ==> AllHeld(find, ttl, end, qtype, out[n..]))
            && (out[n..] == [] ==> n == left || end in seen || Owns(out, n, end) || Stops(find, qtype, end))
            && (forall i :: 0 <= i < n ==> out[i].name !in seen && find(out[i].name, qtype) == [])
            && (forall i :: 0 <= i < n ==> IsCnameOf(find, out[i], ttl))
            && (forall i, j :: 0 <= i < j < n ==> out[i].name != out[j].name)
            && (qtype == TYPE_CNAME ==> n == 0)
    decreases left
  {
    hide Lower, AllHeld;
    var out := Chase(find, qtype, ttl, start, seen, left);
    if left == 0 || start in seen || find(start, qtype) != [] || qtype == TYPE_CNAME || find(start, TYPE_CNAME) == [] {
      n, end := 0, start;
      AreHeld(find, ttl, start, qtype);
      assert out[0..] == out;
    } else {
      assert TypeOf(find(start, TYPE_CNAME)[0].data) == TYPE_CNAME;
      var next := Lower(find(start, TYPE_CNAME)[0].data.target);
      n, end := ChaseShape(find, qtype, ttl, next, seen + {start}, left - 1);
      var rest := Chase(find, qtype, ttl, next, seen + {start}, left - 1);
      assert out[1..] == rest && out[n + 1..] == rest[n..];
      forall i | 0 < i < n + 1 ensures out[i].name !in seen + {start} && find(out[i].name, qtype) == [] {
        assert out[i] == rest[i - 1];
      }
      n := n + 1;
      forall i | 0 <= i < n ensures IsCnameOf(find, out[i], ttl) {
        if i > 0 {
          assert out[i] == rest[i - 1];
        }
      }
      forall i, j | 0 <= i < j < n ensures out[i].name != out[j].name {
        if i > 0 {
          assert out[i] == rest[i - 1] && out[j] == rest[j - 1];
        }
      }
    }
  }

  // ---------------------------------------------------------------- section 3.6.2 of RFC 1034

  /** The recursive reading of section 3.6.2 of RFC 1034: the records of the asked type; failing that,
      the CNAME and the query restarted at its canonical name. None when n restarts do not settle it. */
  function Restart(find: Find, qtype: nat, ttl: nat, name: Text, n: nat): Option<seq<Record>>
    decreases n
  {
    if n == 0 then None
    else
      var direct := find(name, qtype);
      var cnames := find(name, TYPE_CNAME);
      if direct != [] then Some(ToRRs(name, direct, ttl))
      else if qtype == TYPE_CNAME || cnames == [] then Some([])
      else if !cnames[0].data.CNAME? then Some([ToRR(name, cnames[0], ttl)])
      else
        match Restart(find, qtype, ttl, Lower(cnames[0].data.target), n - 1)
        case None => None
        case Some(rest) => Some([ToRR(name, cnames[0], ttl)] + rest)
  }

  lemma {:induction false} RestartMonotone(find: Find, qtype: nat, ttl: nat, name: Text, n: nat, m: nat)
    requires n <= m && Restart(find, qtype, ttl, name, n).Some?
    ensures Restart(find, qtype, ttl, name, m) == Restart(find, qtype, ttl, name, n)
    decreases n
  {
    var cnames := find(name, TYPE_CNAME);
    if find(name, qtype) == [] && qtype != TYPE_CNAME && cnames != [] && cnames[0].data.CNAME? {
      RestartMonotone(find, qtype, ttl, Lower(cnames[0].data.target), n - 1, m - 1);
    }
  }

  /** While the recursion settles in n restarts and no owner behind it does, the chase agrees with it:
      in particular it meets no owner twice. */
  lemma {:induction false} ChaseFollows(find: Find, qtype: nat, ttl: nat, name: Text, seen: set<Text>,
                                        n: nat, left: nat)
    requires n <= left && Restart(find, qtype, ttl, name, n).Some?
    requires Restart(find, qtype, ttl, name, n - 1).None?
    requires forall s :: s in seen ==> Restart(find, qtype, ttl, s, n).None?
    ensures Chase(find, qtype, ttl, name, seen, left) == Restart(find, qtype, ttl, name, n).value
    decreases n
  {
    var cnames := find(name, TYPE_CNAME);
    if find(name, qtype) == [] && qtype != TYPE_CNAME && cnames != [] && cnames[0].data.CNAME? {
      forall s | s in seen + {name} ensures Restart(find, qtype, ttl, s, n - 1).None? {
        if Restart(find, qtype, ttl, s, n - 1).Some? {
          RestartMonotone(find, qtype, ttl, s, n - 1, n);
        }
      }
      ChaseFollows(find, qtype, ttl, Lower(cnames[0].data.target), seen + {name}, n - 1, left - 1);
    }
  }

  /** On chains that end within the depth limit the answer is the recursive definition's. */
  lemma ChaseIsRestart(find: Find, qtype: nat, ttl: nat, name: Text, maxDepth: nat)
    requires Restart(find, qtype, ttl, name, maxDepth).Some?
    ensures Chase(find, qtype, ttl, name, {}, maxDepth) == Restart(find, qtype, ttl, name, maxDepth).value
  {
    var n: nat := maxDepth;
    while n > 0 && Restart(find, qtype, ttl, name, n - 1).Some?
      invariant n <= maxDepth && Restart(find, qtype, ttl, name, n).Some?
    {
      n := n - 1;
    }
    RestartMonotone(find, qtype, ttl, name, n, maxDepth);
    ChaseFollows(find, qtype, ttl, name, {}, n, maxDepth);
  }

  ghost predicate OnlyCnames(records: seq<Record>) {
    forall i :: 0 <= i < |records| ==> records[i].data.CNAME?
  }

  /** Otherwise, on a cycle or a longer chain, the answer is CNAMEs only. */
  lemma {:induction false} ChaseUnsettled(find: Find, qtype: nat, ttl: nat, name: Text, seen: set<Text>, left: nat)
    requires Restart(find, qtype, ttl, name, left).None?
    ensures OnlyCnames(Chase(find, qtype, ttl, name, seen, left))
    decreases left
  {
    if left > 0 && name !in seen {
      var next := Lower(find(name, TYPE_CNAME)[0].data.target);
      ChaseUnsettled(find, qtype, ttl, next, seen + {name}, left - 1);
    }
  }

  // ---------------------------------------------------------------- the whole resolution

  datatype Zone = Zone(find: Find, apex: Text -> Option<Text>, hasName: Text -> bool)

  datatype Resolution = Resolution(response: Message, minTtl: nat, rcode: nat, cacheable: bool)

  const MAX_SAFE_INTEGER := 0x1f_ffff_ffff_ffff

  /** The least TTL of the records and of the bound. */
  function MinTtl(records: seq<Record>, bound: nat): (t: nat)
    ensures t <= bound && forall i :: 0 <= i < |records| ==> t <= records[i].ttl
    ensures t == bound || exists i :: 0 <= i < |records| && t == records[i].ttl
  {
    if records == [] then bound
    else
      var rest := MinTtl(records[1..], bound);
      if records[0].ttl < rest then records[0].ttl else rest
  }

  function Refusal(request: Message, rcode: nat): Resolution {
    Resolution(BuildResponse(request, [], [], rcode, false), 0, rcode, false)
  }

  /** Which reply a request gets, and with which TTL it may be cached. */
  function Resolved(zone: Zone, request: Message, ttl: nat, maxDepth: nat): Resolution {
    if |request.questions| != 1 then Refusal(request, FORMERR)
    else if request.questions[0].qclass != CLASS_IN then Refusal(request, NOTIMP)
    else
      var owner := Lower(request.questions[0].name);
      match zone.apex(owner)
      case None => Refusal(request, REFUSED)
      case Some(apex) =>
        var answers := Chase(zone.find, request.questions[0].qtype, ttl, owner, {}, maxDepth);
        if answers != [] then
          Resolution(BuildResponse(request, answers, [], NOERROR, true), MinTtl(answers, MAX_SAFE_INTEGER),
                     NOERROR, true)
        else
          var soa := ToRRs(apex, zone.find(apex, TYPE_SOA), ttl);
          var rcode := if zone.hasName(owner) then NOERROR else NXDOMAIN;
          Resolution(BuildResponse(request, [], soa, rcode, true), if soa == [] then ttl else soa[0].ttl, rcode, true)
  }

  method Resolve(zone: Zone, request: Message, ttl: nat, maxDepth: nat) returns (r: Resolution)
    ensures r == Resolved(zone, request, ttl, maxDepth)
  {
    hide Chase, ToRR, BuildResponse, Lower;
    if |request.questions| != 1 {
      return Resolution(BuildResponse(request, [], [], FORMERR, false), 0, FORMERR, false);
    }
    var question := request.questions[0];
    if question.qclass != CLASS_IN {
      return Resolution(BuildResponse(request, [], [], NOTIMP, false), 0, NOTIMP, false);
    }
    var owner := Lower(question.name);
    var apex := zone.apex(owner);
    if apex.None? {
      return Resolution(BuildResponse(request, [], [], REFUSED, false), 0, REFUSED, false);
    }
    var answers := ResolveWithCnameChase(zone.find, owner, question.qtype, ttl, maxDepth);
    if |answers| > 0 {
      var response := BuildResponse(request, answers, [], NOERROR, true);
      return Resolution(response, MinTtl(answers, MAX_SAFE_INTEGER), NOERROR, true);
    }
    var authority := ToRRs(apex.value, zone.find(apex.value, TYPE_SOA), ttl);
    var minTtl := if |authority| > 0 then authority[0].ttl else ttl;
    if zone.hasName(owner) {
      return Resolution(BuildResponse(request, [], authority, NOERROR, true), minTtl, NOERROR, true);
    }
    r := Resolution(BuildResponse(request, [], authority, NXDOMAIN, true), minTtl, NXDOMAIN, true);
  }

  // ---------------------------------------------------------------- what a reply says

  /** The record is one that the zone holds for its owner. */
  ghost predicate InZone(find: Find, ttl: nat, r: Record) {
    exists k :: 0 <= k < |find(r.name, TypeOf(r.data))| && Held(find(r.name, TypeOf(r.data))[k], ttl, r)
  }

  /** Whatever the zone contains, every answer is one of its records. */
  lemma {:induction false} ChaseInZone(find: Find, qtype: nat, ttl: nat, start: Text, seen: set<Text>, left: nat)
    requires Consistent(find)
    ensures forall r :: r in Chase(find, qtype, ttl, start, seen, left) ==> InZone(find, ttl, r)
    decreases left
  {
    if left != 0 && start !in seen {
      var direct, cnames := find(start, qtype), find(start, TYPE_CNAME);
      if direct != [] {
        forall r | r in ToRRs(start, direct, ttl) ensures InZone(find, ttl, r) {
          var k :| 0 <= k < |direct| && r == ToRR(start, direct[k], ttl);
          assert Held(find(r.name, TypeOf(r.data))[k], ttl, r);
        }
      } else if qtype != TYPE_CNAME && cnames != [] {
        var first := ToRR(start, cnames[0], ttl);
        assert Held(find(first.name, TypeOf(first.data))[0], ttl, first);
        ChaseInZone(find, qtype, ttl, Lower(cnames[0].data.target), seen + {start}, left - 1);
      }
    }
  }

  /** Every reply echoes the request's id, opcode, RD bit and questions, is marked as a response that offers no
      recursion and is not truncated, and counts its sections; a request that asks for anything but one question of
      class IN in a zone served here gets no records. The reply codes are those of section 4.1.1 of RFC 1035. */
  lemma ReplyForm(zone: Zone, request: Message, ttl: nat, maxDepth: nat)
    ensures var r := Resolved(zone, request, ttl, maxDepth);
            var m, h := r.response, r.response.header;
            && h == Header(request.header.id, true, request.header.opcode, r.cacheable, false, request.header.rd, false,
                           0, r.rcode, |m.questions|, |m.answers|, |m.authorities|, |m.additionals|)
            && m.questions == request.questions && m.additionals == []
            && (r.rcode == 1 <==> |m.questions| != 1)
            && (r.rcode == 4 <==> |m.questions| == 1 && m.questions[0].qclass != 1)
            && (r.rcode == 5 <==> |m.questions| == 1 && m.questions[0].qclass == 1
                                  && zone.apex(Lower(m.questions[0].name)).None?)
            && (r.rcode in {0, 1, 3, 4, 5})
            && (r.cacheable <==> r.rcode in {0, 3})
            && (!r.cacheable ==> m.answers == [] && m.authorities == [] && r.minTtl == 0)
  {
    hide Chase;
  }

  /** One question of class IN in a zone served here: NXDOMAIN exactly when there is no answer and no such name, and
      NOERROR otherwise. The answers are records of the zone, those of the chase, and the TTL is their least; when
      there are none the authority section holds the zone's SOA records and the first of them gives the TTL. */
  lemma ResolveMeaning(zone: Zone, request: Message, ttl: nat, maxDepth: nat)
    requires Consistent(zone.find) && |request.questions| == 1 && request.questions[0].qclass == 1
    requires zone.apex(Lower(request.questions[0].name)).Some?
    ensures var name, qtype := Lower(request.questions[0].name), request.questions[0].qtype;
            var apex := zone.apex(name).value;
            var answers := Chase(zone.find, qtype, ttl, name, {}, maxDepth);
            var r := Resolved(zone, request, ttl, maxDepth);
            && r.cacheable && r.response.answers == answers
            && (forall a :: a in r.response.answers ==> InZone(zone.find, ttl, a))
            && (r.rcode == 3 <==> answers == [] && !zone.hasName(name))
            && (r.rcode == 0 <==> answers != [] || zone.hasName(name))
            && (answers != [] ==>
                  && r.response.authorities == []
                  && IsLeastTtl(answers, r.minTtl))
            && (answers == [] ==>
                  && AllHeld(zone.find, ttl, apex, 6, r.response.authorities)
                  && r.minTtl == if r.response.authorities == [] then ttl else r.response.authorities[0].ttl)
  {
    var name, qtype := Lower(request.questions[0].name), request.questions[0].qtype;
    ChaseInZone(zone.find, qtype, ttl, name, {}, maxDepth);
    AreHeld(zone.find, ttl, zone.apex(name).value, TYPE_SOA);
    hide Chase, InZone, Lower, AllHeld, ToRR;
  }

  /** t is the least TTL of the records, or the greatest safe integer if that is less than all of them. */
  ghost predicate IsLeastTtl(records: seq<Record>, t: nat) {
    && t <= 0x1f_ffff_ffff_ffff && (forall i :: 0 <= i < |records| ==> t <= records[i].ttl)
    && (t == 0x1f_ffff_ffff_ffff || exists i :: 0 <= i < |records| && t == records[i].ttl)
  }

  /** When the chain settles within the depth limit, the answers are those of section 3.6.2 of RFC 1034: following
      the zone's CNAMEs from the name, a restart for each, down to the records of the asked type. */
  lemma ResolvedIsRestart(zone: Zone, request: Message, ttl: nat, maxDepth: nat)
    requires |request.questions| == 1 && request.questions[0].qclass == 1
    requires zone.apex(Lower(request.questions[0].name)).Some?
    requires Restart(zone.find, request.questions[0].qtype, ttl, Lower(request.questions[0].name), maxDepth).Some?
    ensures Resolved(zone, request, ttl, maxDepth).response.answers
         == Restart(zone.find, request.questions[0].qtype, ttl, Lower(request.questions[0].name), maxDepth).value
  {
    ChaseIsRestart(zone.find, request.questions[0].qtype, ttl, Lower(request.questions[0].name), maxDepth);
    hide Chase, Restart;
  }
}
