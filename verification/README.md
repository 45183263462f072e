# Verified models of the platform's algorithms and protocols

This project models five clusters of the platform in Dafny and proves properties of the models.

- **The DNS engine**: the RFC 1035 message codec with compression pointers, bit-packed flags and back-patched
  lengths; reassembly of length-prefixed TCP messages by interleaving callbacks, and the handler they await; the
  CNAME chase and the choice of reply; the response cache; the UDP listener's id rewriting and truncation.
- **The audit log**: canonical JSON text, sealing and verifying the hash chain, and the promise lock that serialises
  concurrent appends.
- **The cron engine**: parsing of five-field expressions, the next-fire search with its jumps over days, and the
  tick/retry/dead-letter machine with everything that may happen between its awaits, run histories included.
- **The deploy orchestrator**: the per-tenant promise queue, and the deploy pipeline as a saga with an undo stack.
- **The bounds of the gateway and the edge runtime**: the token bucket, the LRU cache, and the race of an
  invocation against its time and memory limits.

Where the original updates state step by step, the model is a class or a loop whose methods are proved against
specification functions (`Follows(NameAt(..), r)`, `Abs() == Step(old(Abs()), e)`), and the properties are lemmas
about those functions. Asynchronous code is cut at its awaits: an event is the code between two awaits, and a run
is any sequence of events, so a theorem about all runs covers every interleaving. Clocks, replies of remote
services, heap readings and hashes are parameters. Verify everything with `dafny verify dfyconfig.toml`.

## Where the code falls short of what is written about it

The model follows the code. For each of these a lemma gives the exact condition under which the promise holds, or
inputs on which it fails, and most have both.

- A message whose questions cannot be encoded again makes the TCP handler reject, because its SERVFAIL reply echoes
  them outside any try block (tcp.ts:136-141); the callback that awaited it dies, and whole messages already in the
  buffer are not handed over until another chunk arrives (tcp.ts:60-76). `DnsHandler.RejectsExactly` says when a
  handler rejects, `DnsTcp.Reassembly` when messages are stranded; `DnsHandler.DotsStrand` is a query of 20 bytes
  that strands the message behind it.
- The decoder allows names of 255 characters, the encoder names of 255 bytes on the wire: with labels free of dots,
  decoded names of 254 or 255 characters cannot be encoded again (protocol.ts:210-211, 375-382;
  `DnsReencode.DecodedNameEncodes`, `DnsReencode.LongNameWitness`). With dots in labels shorter names fail too, such
  as `..` (`DnsHandler.DotsDecode`); `DnsRoundTrip.EncodableName` has the criterion for every ASCII text.
- With the default buffer limit of 65536 bytes the TCP listener refuses the longest messages, of 65535 bytes, whose
  frames have 65537 (tcp.ts:36, 53; `DnsTcp.LargestMessage`).
- A truncated UDP reply echoes all questions, so with many questions it may still be larger than 512 bytes
  (udp.ts:159-169; `DnsUdp.TruncationFitsExactly`, and `DnsUdp.TruncatedTooLong` for 101 questions).
- The next-fire search jumps to 02:00 of the day after a day that does not match (parser.ts:306-322), so it can skip
  00:00 to 01:59 of a matching day. It agrees with a minute-by-minute walk exactly when no matching day follows a
  day that does not match, or nothing is due before 02:00 (`CronNextFire.AgreesExactly`). `@monthly`, searched from
  any day but the first of a month, is never found (`CronExpression.MonthlyTextNeverFires`).
- The cron parser accepts more than its documented grammar (parser.ts:1-12, 176-234): `CronExpression.AcceptsExactly`
  says which texts it accepts and as which range, `CronExpression.GrammarExactly` which of them are documented.
  `CronExpression.AcceptsMore` gives five families that are not: nothing at all, anything behind a second dash,
  anything behind the digits of a step, a step after a lone value (`5/15`, which runs to the field's end), and
  aliases that are not in capitals (`CronExpression.MoreIsUndocumented`).
- When both day fields of a cron expression are written as anything but a bare star, either decides, so that a field
  that lists every day, such as `*/1` or `0-6`, makes the expression fire on every day whatever the other field says
  (parser.ts:421-432; `CronNextFire.FullField`).
- A job that is paused while a tick awaits another job can be given a next run by that tick, although pausing clears
  it (scheduler.ts:87-92, 115-123; `CronScheduler.PausedNextRunExactly`, `CronScheduler.PausedMeanwhile`).
- `triggerNow` reports a run only when the job's history grew. Once a job has 500 runs it executes and reports null,
  and so it does when the job is deleted during a backoff; when it is deleted during a dispatch, the promise rejects
  (scheduler.ts:105-112, 149-150, registry.ts:134-138, 171-180; `CronScheduler.TriggerReportsExactly`).
- A cached DNS reply echoes what the request that filled the cache said: its opcode, its RD bit and the letter case of
  its question. A request with several questions whose first is cached gets that reply, where the resolver would say
  FORMERR (cache.ts:41-43, tcp.ts:105-121; `DnsHandler.HitMeaning`).
- The gateway's LRU cache accepts an argument below 1 and rounds it down to a capacity of 0, yet holds one entry
  (services/ai-gateway/src/cache.ts:54-58, 74-84; `LruCache.SizeExceedsExactly`, `LruCache.HalfWitness`).
- A failed redeploy of a build deletes the tarball that an earlier deploy of that build stored, because the object
  key depends only on tenant and build (pipeline.ts:92-93, 133-140; `DeployPipeline.RedeployDeletes`). A call that
  took effect although its reply was lost is not undone (`DeployPipeline.RestoresExactly`), and a route may then lead
  to a bundle that the rollback deleted (`DeployPipeline.DanglesExactly`).

## Model

| member | source | states |
|---|---|---|
| Bytes.SplitJoin | services/dns-server/src/protocol.ts:375 | splitting undoes joining, for parts free of the separator |
| Bytes.JoinSplit | services/dns-server/src/protocol.ts:165-213 | joining undoes splitting, for every text |
| Bytes.ParsePrintDecimal | services/dns-server/src/protocol.ts:412-422 | parsing a printed decimal number gives the number back |
| Bytes.ParsePrintHex | services/dns-server/src/protocol.ts:424-446 | parsing a printed hexadecimal group gives the number back |
| Bytes.CaseFolds | services/dns-server/src/cache.ts:41-43 | two texts have the same lower case if and only if they have the same letters up to case, and the same for upper case |
| DnsDecoding.LabelsSound | services/dns-server/src/protocol.ts:165-213 | what the label loop reads is spelled by the buffer through no more pointers than allowed, and ends inside the buffer |
| DnsDecoding.LabelsComplete | services/dns-server/src/protocol.ts:165-213 | every spelling through at most the allowed pointers is read |
| DnsDecoding.DenotesUnique | services/dns-server/src/protocol.ts:165-213 | a position spells at most one name |
| DnsDecoding.NameMeaning | services/dns-server/src/protocol.ts:165-213 | a name decodes to a text and a position if and only if the buffer spells that text (section 4.1.4 of RFC 1035) through at most 32 pointers, it has at most 255 characters, and the position is the one after the terminator or first pointer; the position advances and stays inside the buffer |
| DnsDecoding.StringsForward | services/dns-server/src/protocol.ts:279-286 | TXT strings never leave the buffer, and stop at or past the end of the record data |
| DnsDecoding.RecordForward | services/dns-server/src/protocol.ts:304-312 | reading a record moves the cursor forward and never past the buffer, whatever the bytes |
| DnsWire.NameLayout | services/dns-server/src/protocol.ts:165-213 | a name decodes if and only if it is laid out as section 4.1.4 of RFC 1035 says: labels in place behind their lengths, then a zero byte or a two-byte pointer to the rest, through at most 32 pointers, with at most 255 characters; it ends behind the zero or the first pointer |
| DnsWire.DataLayout | services/dns-server/src/protocol.ts:242-302 | record data decodes if and only if it is laid out as section 3.3 of RFC 1035 says for its type number, addresses and numbers byte by byte |
| DnsWire.RecordLayout | services/dns-server/src/protocol.ts:304-312 | a record decodes if and only if its name is followed by the type number, class, TTL and length in network byte order, and the data |
| DnsWire.QuestionLayout | services/dns-server/src/protocol.ts:235-240 | a question decodes if and only if its name is followed by type and class |
| DnsWire.HeaderLayout | services/dns-server/src/protocol.ts:215-233 | the header decodes if and only if each field is in the bits that section 4.1.1 of RFC 1035 gives it |
| DnsWire.MessageLayout | services/dns-server/src/protocol.ts:314-335 | a buffer decodes to a message if and only if the message is laid out in it: header, then four sections of as many entries as the header counts |
| DnsWire.EncodingLaid | services/dns-server/src/protocol.ts:501-532 | the encoding of a well-formed message has that layout, for that message and no other |
| DnsCursor.Cursor.ReadUint8 | services/dns-server/src/protocol.ts:131-157 | the byte at the cursor, or the error at the end of the buffer; the cursor advances by one |
| DnsCursor.Cursor.ReadUint16 | services/dns-server/src/protocol.ts:131-157 | the big-endian 16-bit value at the cursor, or the error |
| DnsCursor.Cursor.ReadUint32 | services/dns-server/src/protocol.ts:131-157 | the big-endian 32-bit value at the cursor, or the error |
| DnsCursor.Cursor.ReadBytes | services/dns-server/src/protocol.ts:131-157 | the next n bytes, or the error |
| DnsCursor.Cursor.DecodeName | services/dns-server/src/protocol.ts:165-213 | terminates on every buffer, and returns the name, position or error that the recursive reading of labels gives |
| DnsCursor.Cursor.DecodeHeader | services/dns-server/src/protocol.ts:215-233 | the header fields unpacked from the flag word, or the error |
| DnsCursor.Cursor.DecodeQuestion | services/dns-server/src/protocol.ts:235-240 | the question at the cursor, or the error |
| DnsCursor.Cursor.DecodeStrings | services/dns-server/src/protocol.ts:279-286 | the character strings up to the end of the record data; the last may run past it |
| DnsCursor.Cursor.DecodeSoa | services/dns-server/src/protocol.ts:242-302 | the SOA fields in order, or the first error |
| DnsCursor.Cursor.DecodeRData | services/dns-server/src/protocol.ts:242-302 | the data of each record type, the errors of wrong lengths included |
| DnsCursor.Cursor.DecodeResourceRecord | services/dns-server/src/protocol.ts:304-312 | owner, type, class, TTL and data, or the first error |
| DnsCursor.Cursor.DecodeQuestions | services/dns-server/src/protocol.ts:314-335 | as many questions as counted, in order |
| DnsCursor.Cursor.DecodeRecords | services/dns-server/src/protocol.ts:314-335 | as many records as counted, in order |
| DnsCursor.DecodeMessage | services/dns-server/src/protocol.ts:314-335 | the imperative decoder computes the meaning of the buffer, for every buffer |
| DnsEncoding.Writer.PutU16 | services/dns-server/src/protocol.ts:346-410 | appends the two low bytes, big-endian, truncating as the masks do |
| DnsEncoding.Writer.PutU32 | services/dns-server/src/protocol.ts:346-410 | appends the four low bytes, big-endian |
| DnsEncoding.Writer.Name | services/dns-server/src/protocol.ts:369-391 | appends the wire form of the name, or fails on an empty or long label or a wire form over 255 bytes |
| DnsEncoding.Writer.LengthSlot | services/dns-server/src/protocol.ts:394-401 | reserves two bytes and remembers where |
| DnsEncoding.Writer.SetLength | services/dns-server/src/protocol.ts:394-401 | changes the two reserved bytes and nothing else |
| DnsEncoding.Writer.IPv4 | services/dns-server/src/protocol.ts:412-422 | appends the four octets, or fails |
| DnsEncoding.Writer.IPv6 | services/dns-server/src/protocol.ts:424-446 | appends the eight groups with `::` expanded, or fails |
| DnsEncoding.Writer.Strings | services/dns-server/src/protocol.ts:448-491 | appends the length-prefixed strings, or fails on one over 255 bytes |
| DnsEncoding.Writer.Soa | services/dns-server/src/protocol.ts:448-491 | appends the SOA fields in order, or fails |
| DnsEncoding.Writer.Body | services/dns-server/src/protocol.ts:448-491 | appends the data of each record type, or fails |
| DnsEncoding.Writer.RData | services/dns-server/src/protocol.ts:448-491 | writing first and patching the length afterwards gives the length-prefixed data |
| DnsEncoding.Writer.ResourceRecord | services/dns-server/src/protocol.ts:493-499 | appends the record's encoding, or fails |
| DnsEncoding.Writer.ResourceRecords | services/dns-server/src/protocol.ts:501-532 | appends the records of a section in order, or fails at the first that does |
| DnsEncoding.Writer.Questions | services/dns-server/src/protocol.ts:501-532 | appends the questions in order, or fails at the first that does |
| DnsEncoding.ComputeFlags | services/dns-server/src/protocol.ts:501-532 | setting the bits field by field gives the packed flag word |
| DnsEncoding.WriteHeader | services/dns-server/src/protocol.ts:501-532 | appends the twelve header bytes with the counts taken from the sections |
| DnsEncoding.EncodeMessage | services/dns-server/src/protocol.ts:501-532 | the imperative encoder computes the encoding of every message, errors included |
| DnsRoundTrip.WireLabelsRoundTrip | services/dns-server/src/protocol.ts:165-213 | the labels written are the labels read, anywhere in a buffer |
| DnsRoundTrip.EncodableName | services/dns-server/src/protocol.ts:369-391 | an ASCII text encodes if and only if it is the root or dot-separated labels of 1 to 63 characters within 255 wire bytes |
| DnsRoundTrip.NameRoundTrip | services/dns-server/src/protocol.ts:369-391 | a written name reads back, and the cursor stops after it |
| DnsRoundTrip.IPv4RoundTrip | services/dns-server/src/protocol.ts:412-422 | encoding the decoder's dotted quad gives back the four bytes |
| DnsRoundTrip.IPv4Exactly | services/dns-server/src/protocol.ts:412-422 | an address encodes if and only if it has four dot-separated parts, each of digits with a value below 256, and then as those values |
| DnsRoundTrip.IPv6RoundTrip | services/dns-server/src/protocol.ts:424-446 | encoding the decoder's eight groups gives back the sixteen bytes |
| DnsRoundTrip.IPv6Shorthand | services/dns-server/src/protocol.ts:424-446 | `left::right` encodes as the groups of left, zeros up to eight groups, and the groups of right |
| DnsRoundTrip.GroupsExactly | services/dns-server/src/protocol.ts:424-446 | groups encode if and only if each is hexadecimal digits with a value below 65536, and then as those values |
| DnsRoundTrip.StringsRoundTrip | services/dns-server/src/protocol.ts:279-286 | character strings of at most 255 bytes encode and read back |
| DnsRoundTrip.SoaRoundTrip | services/dns-server/src/protocol.ts:448-491 | SOA data reads back |
| DnsRoundTrip.RDataRoundTrip | services/dns-server/src/protocol.ts:242-302 | the data of every supported record type reads back |
| DnsRoundTrip.RecordRoundTrip | services/dns-server/src/protocol.ts:493-499 | a written record reads back, and the cursor stops after it |
| DnsRoundTrip.RecordsRoundTrip | services/dns-server/src/protocol.ts:501-532 | a section of records reads back in order |
| DnsRoundTrip.QuestionsRoundTrip | services/dns-server/src/protocol.ts:501-532 | the questions read back in order |
| DnsRoundTrip.FlagsRoundTrip | services/dns-server/src/protocol.ts:215-233 | unpacking the packed flag word gives every header field back |
| DnsRoundTrip.HeaderRoundTrip | services/dns-server/src/protocol.ts:215-233 | the header reads back from the first twelve bytes |
| DnsRoundTrip.MessageRoundTrip | services/dns-server/src/protocol.ts:501-532 | every well-formed message encodes, and decoding its encoding gives it back |
| DnsRoundTrip.CountsIgnored | services/dns-server/src/protocol.ts:501-532 | whatever counts the header holds, those of the sections are written and decoded |
| DnsReencode.DecodedNameEncodes | services/dns-server/src/protocol.ts:369-391 | a decoded name whose labels are ASCII and free of dots encodes again if and only if its text has at most 253 characters |
| DnsReencode.LongNameWitness | services/dns-server/src/protocol.ts:210-211 | a buffer of four labels of 63, 63, 63 and 62 bytes decodes to 254 characters that cannot be encoded again |
| DnsReencode.DecodedRData | services/dns-server/src/protocol.ts:242-302 | what the bytes guarantee of decoded record data: its address texts are canonical and its numbers fit their widths |
| DnsReencode.Reencode | services/dns-server/src/protocol.ts:314-335 | any accepted buffer, compressed or not, whose names and strings can be encoded means the same message as its uncompressed re-encoding |
| DnsUdp.RewriteId | services/dns-server/src/udp.ts:145-151 | a fresh copy with only the first two bytes replaced, for every length |
| DnsUdp.RewriteIsReencode | services/dns-server/src/udp.ts:145-151 | replacing the first two bytes of an encoding is encoding the message with the other id |
| DnsUdp.MaybeTruncateForUdp | services/dns-server/src/udp.ts:159-169 | the method computes the reply of which ReplyMeaning speaks, for every response and request |
| DnsUdp.ReplyMeaning | services/dns-server/src/udp.ts:102-106 | for every response to a request with one question, the reply has at most 512 bytes and decodes, with the request's id and question; TC is set if and only if the response did not fit, and then the reply is authoritative, NOERROR and without records; otherwise it is the response |
| DnsUdp.TruncatedLength | services/dns-server/src/udp.ts:159-169 | the truncated reply is the header and the echoed questions |
| DnsUdp.TruncationFits | services/dns-server/src/udp.ts:159-169 | with one encodable question the truncated reply has at most 271 bytes and decodes to an authoritative NOERROR reply with the question, the id, no records and TC set |
| DnsUdp.TruncationFitsExactly | services/dns-server/src/udp.ts:159-169 | with any questions, the truncated reply fits 512 bytes if and only if the questions take at most 500 |
| DnsUdp.TruncatedTooLong | services/dns-server/src/udp.ts:159-169 | the truncated reply to a request with 101 root questions has 517 bytes |
| ResponseCache.KeyInjective | services/dns-server/src/cache.ts:41-43 | two questions share a key if and only if they agree on the name up to case, the type and the class, even for names with bars |
| ResponseCache.Cache.Get | services/dns-server/src/cache.ts:45-62 | a live entry is returned and becomes the newest, an expired one is dropped; the counters say which |
| ResponseCache.Cache.Set | services/dns-server/src/cache.ts:65-77 | a positive TTL stores the entry as the newest and evicts the oldest one over the limit; others change nothing |
| ResponseCache.Contents | services/dns-server/src/cache.ts:45-77 | after every trace, keys are distinct, the size is within the limit, and each entry is the latest one set for its key |
| ResponseCache.HitIsLatest | services/dns-server/src/cache.ts:45-62 | after every trace, a hit is the response of the latest positive-TTL set of that key, still unexpired |
| ResponseCache.RecentAnswerStays | services/dns-server/src/cache.ts:45-77 | after every trace, an answer is served until it expires as long as fewer other keys than the cache holds have been used since it was set or last served |
| ResponseCache.FetchDrops | services/dns-server/src/cache.ts:45-62 | after every trace, a lookup leaves an entry for its key if and only if it is a hit, and all other entries as they are |
| DnsTcp.OneFrame | services/dns-server/src/tcp.ts:45-77 | a non-empty frame at the front is the first message, and the rest are those of the rest |
| DnsTcp.WriterInverse | services/dns-server/src/tcp.ts:151-160 | the frames of a stream of written messages are those messages |
| DnsTcp.OneMessage | services/dns-server/src/tcp.ts:151-160 | a written message reads back if and only if it is non-empty and shorter than 65536 bytes |
| DnsTcp.WriteWithLengthPrefix | services/dns-server/src/tcp.ts:151-160 | a fresh buffer with the 16-bit length and the message |
| DnsTcp.Connection.LoopPass | services/dns-server/src/tcp.ts:45-77 | one pass of the loop, up to its await or return, as a function of the shared state |
| DnsTcp.Connection.OnData | services/dns-server/src/tcp.ts:45-77 | a chunk arriving: overflow closes the connection, otherwise it is appended and a first pass made |
| DnsTcp.Connection.OnHandled | services/dns-server/src/tcp.ts:60-76 | a callback resuming after its handler returned goes on with whatever the buffer then holds |
| DnsTcp.Connection.OnRejected | services/dns-server/src/tcp.ts:75-76 | a callback whose handler rejected ends without another pass |
| DnsTcp.PassTakesFirst | services/dns-server/src/tcp.ts:45-77 | a pass hands over the first frame and removes exactly it, or finds none and changes nothing |
| DnsTcp.Reassembly | services/dns-server/src/tcp.ts:45-77 | for every split into chunks and every interleaving, rejections and overflow included, what was handed over and what the buffer still holds are exactly the frames of the received stream, in order; with no callback suspended and no overflow, all were handed over if and only if the last callback to end was not rejected with a whole frame waiting and no chunk after it |
| DnsTcp.EndedExactly | services/dns-server/src/tcp.ts:53-69 | in every run, the connection has overflowed if and only if some chunk did not fit, and is ended if and only if that or some callback found an empty message |
| DnsTcp.NoRejection | services/dns-server/src/tcp.ts:60-76 | in a run without rejections no frame is stranded |
| DnsTcp.RejectionStrands | services/dns-server/src/tcp.ts:60-76 | two messages in one chunk, the first rejected: the second is stranded in an open, idle connection without overflow |
| DnsTcp.SentIsDelivered | services/dns-server/src/tcp.ts:151-160 | at rest without overflow, what was handed over is a prefix of what was sent with the framing writer, and all of it if and only if no frame is stranded |
| DnsTcp.Drains | services/dns-server/src/tcp.ts:60-76 | between chunks, after as many callback ends as the buffer has bytes and the connection suspensions, returned or rejected in any mix, no callback is suspended |
| DnsTcp.LargestMessage | services/dns-server/src/tcp.ts:53-59 | a message that is all a connection receives, in whatever chunks and interleaving, is handed over if and only if its frame fits the buffer limit |
| DnsHandler.HandleMessage | services/dns-server/src/tcp.ts:85-142 | the steps of the handler, with decoding and encoding done by the codec's methods, lead to the reply, the silence or the rejection of which RejectsExactly speaks |
| DnsHandler.RejectsExactly | services/dns-server/src/tcp.ts:123-141 | the handler rejects if and only if the message decodes, nothing is cached for it, and its questions cannot be encoded again, whatever the resolver did; it stays silent if and only if the message does not decode |
| DnsHandler.UncachedReply | services/dns-server/src/tcp.ts:123-141 | without a cached reply, the reply decodes to exactly the resolver's message; if resolving threw or that message cannot be encoded, to an empty SERVFAIL reply with the request's id, opcode, RD bit and questions |
| DnsHandler.QueryAnswered | services/dns-server/src/tcp.ts:85-142 | from the bytes of a query to the bytes of its reply: the reply decodes to the query's id and question, authoritative and NOERROR, with the answers of section 3.6.2 of RFC 1034 |
| DnsHandler.CachedDecodes | services/dns-server/src/udp.ts:86-99 | the bytes of a cached response with the id replaced decode to the response with that id |
| DnsHandler.HitMeaning | services/dns-server/src/tcp.ts:100-121 | a hit decodes to the response to the earlier request, with its opcode and RD bit, under the new id; its questions are the new request's if and only if that has one question, spelled in the same letters |
| DnsHandler.DotsDecode | services/dns-server/src/protocol.ts:165-213 | a query of 20 bytes decodes to the name `..`, which cannot be encoded |
| DnsHandler.DotsStrand | services/dns-server/src/tcp.ts:60-76 | that query makes the handler reject and strands any message behind it |
| DnsResolver.ResolveWithCnameChase | services/dns-server/src/resolver.ts:168-200 | the loop with its set of seen owners computes the recursive chase, for every zone content |
| DnsResolver.ChaseShape | services/dns-server/src/resolver.ts:168-200 | every answer is a chain of at most the limit of CNAMEs from the queried owner, each the zone's own first one with its TTL, each target lower-cased the next owner, no owner twice, then all records of the asked type at its end; there are none only if the limit is reached, an owner comes again, or the zone has neither them nor a CNAME there |
| DnsResolver.ChaseIsRestart | services/dns-server/src/resolver.ts:168-200 | on chains that settle within the limit the answer is that of the recursive definition in section 3.6.2 of RFC 1034 |
| DnsResolver.ChaseUnsettled | services/dns-server/src/resolver.ts:168-200 | on cycles and longer chains the answer is CNAMEs only |
| DnsResolver.MinTtl | services/dns-server/src/resolver.ts:123-133 | a lower bound of all TTLs of the answer that one of them attains |
| DnsResolver.Resolve | services/dns-server/src/resolver.ts:89-166 | the steps of the resolver, with the chase done by its loop, lead to the resolution of which ReplyForm and ResolveMeaning speak |
| DnsResolver.ReplyForm | services/dns-server/src/protocol.ts:545-567 | every reply echoes id, opcode, RD bit and questions, with QR set, TC, RA and Z clear, AA for cacheable replies only, and the counts of its sections; FORMERR, NOTIMP and REFUSED each if and only if their case applies, and then no records; no other codes but NOERROR and NXDOMAIN |
| DnsResolver.ResolveMeaning | services/dns-server/src/resolver.ts:109-166 | for one question of class IN in a served zone: NOERROR if and only if there are answers or the name exists, else NXDOMAIN; the answers are the chase's and records of the zone, with the least of their TTLs; without answers the authority section is the zone's SOA records, and the TTL that of the first |
| DnsResolver.ChaseInZone | services/dns-server/src/resolver.ts:208-215 | every answer is a record that the zone holds for its owner, in class IN, with its own TTL or else the default |
| DnsResolver.ResolvedIsRestart | services/dns-server/src/resolver.ts:168-200 | when the chain settles within the limit, the reply's answers are those of section 3.6.2 of RFC 1034 |
| CanonicalJson.Lookup | packages/audit-log/src/hash-chain.ts:34-45 | the value of a property is that of a field with its key |
| CanonicalJson.Sort | packages/audit-log/src/hash-chain.ts:34-45 | sorting keeps exactly the keys |
| JsonReadability.UnitReadable | packages/audit-log/src/hash-chain.ts:34-45 | no character escape begins another |
| JsonReadability.QuotedReadable | packages/audit-log/src/hash-chain.ts:34-45 | a quoted string at the front of a text determines the string and the rest |
| JsonReadability.Readable | packages/audit-log/src/hash-chain.ts:34-45 | unique readability: the canonical text of a value at the front of a text determines the value and the rest, at every nesting |
| JsonReadability.SortSorts | packages/audit-log/src/hash-chain.ts:34-45 | distinct keys come out strictly ascending |
| JsonReadability.SortedUnique | packages/audit-log/src/hash-chain.ts:34-45 | ascending sequences of the same keys are equal |
| JsonReadability.CanonicalInjective | packages/audit-log/src/hash-chain.ts:34-45 | equal canonical texts come from the same value |
| JsonReadability.CanonicalDeterminate | packages/audit-log/src/hash-chain.ts:34-45 | the same value has one text, whatever the insertion order of keys at any level |
| JsonReadability.CanonicalIffSame | packages/audit-log/src/hash-chain.ts:34-45 | canonical texts are equal if and only if the values are the same |
| JsonText.CanonicalIsJson | packages/audit-log/src/hash-chain.ts:34-45 | the canonical text is a JSON text of the value by the grammar of RFC 8259, at every nesting, without white space and with the keys of each object ascending unit by unit |
| JsonText.QuotedText | packages/audit-log/src/hash-chain.ts:34-45 | a quoted string spells the string by the escapes of section 7 of RFC 8259 |
| JsonText.QuotedCoupled | packages/audit-log/src/hash-chain.ts:34-45 | no half of a surrogate pair stands alone in a quoted string |
| HashChain.VerifyChain | packages/audit-log/src/hash-chain.ts:95-160 | the loop with its `previous` reports every failure of every entry in order; ok if and only if there is none |
| HashChain.VerifiesExactlyChains | packages/audit-log/src/hash-chain.ts:95-160 | no failures if and only if every entry is valid, numbered by its index, linked to the one before, and hashed |
| HashChain.FailuresMeaning | packages/audit-log/src/hash-chain.ts:95-160 | each failure reported is one that is there, at its entry, and none is left out or reported twice; they come in the order of the entries |
| HashChain.SealGives | packages/audit-log/src/hash-chain.ts:72-82 | a sealed entry says what its base says, is linked to the entry before it or the genesis word, has the hash of its own text, and no token |
| HashChain.SealExtends | packages/audit-log/src/hash-chain.ts:72-80 | sealing on top of a chain's last entry extends the chain, whatever timestamp token is added |
| HashChain.TextBinds | packages/audit-log/src/hash-chain.ts:34-63 | entries with the same hashed text and hash agree on every hashed field |
| HashChain.HashBinds | packages/audit-log/src/hash-chain.ts:61-63 | with an injective hash, entries with the same correct hash agree on every hashed field |
| HashChain.AgreeUpTo | packages/audit-log/src/hash-chain.ts:95-160 | chains that share a hash at an index agree up to it, or two of their different texts have the same hash |
| HashChain.CollisionOrAgree | packages/audit-log/src/hash-chain.ts:95-160 | for any hash function: two logs that verify and end in the same hash have the same length and agree everywhere but in timestamp tokens, or hold a collision: two different canonical texts of entries with the same hash |
| HashChain.TamperEvidence | packages/audit-log/src/hash-chain.ts:95-160 | two logs that verify and end in the same hash have the same length and agree everywhere but in timestamp tokens |
| HashChain.ChainTail | packages/audit-log/src/audit-log.ts:129-135 | the tail check accepts every chain |
| AuditLog.Log.Append | packages/audit-log/src/audit-log.ts:59-102 | a call takes the current lock and installs its own behind it, before its first await |
| AuditLog.Log.ResolveLock | packages/audit-log/src/audit-log.ts:59-102 | the chained lock resolves after the prior one and the call's own gate |
| AuditLog.Log.AfterLock | packages/audit-log/src/audit-log.ts:59-102 | past the lock, the call asks for the tail |
| AuditLog.Log.AfterTail | packages/audit-log/src/audit-log.ts:59-102 | it remembers the tail and asks for the count |
| AuditLog.Log.AfterCount | packages/audit-log/src/audit-log.ts:59-102 | it seals the entry on the tail it read, numbered by the count |
| AuditLog.Log.AfterStamp | packages/audit-log/src/audit-log.ts:59-102 | it adds the timestamp token and hands the entry to the storage |
| AuditLog.Log.AfterStore | packages/audit-log/src/storage.ts:37-56 | the entry is appended, and the gate released |
| AuditLog.Log.AfterThrow | packages/audit-log/src/audit-log.ts:59-102 | a failed await releases the gate and leaves storage alone |
| AuditLog.OneInside | packages/audit-log/src/audit-log.ts:59-102 | while a call is past its lock, earlier calls are over and later ones wait |
| AuditLog.StepKeeps | packages/audit-log/src/audit-log.ts:59-102 | every event, failures included, keeps the invariant that what a call holds fits the storage |
| AuditLog.AlwaysAChain | packages/audit-log/src/audit-log.ts:59-102 | in every interleaving the storage verifies, is numbered 0, 1, 2 and so on in lock order, and at most one call is past its lock |
| AuditLog.Acknowledged | packages/audit-log/src/audit-log.ts:59-102 | in every interleaving, a call that returned an entry has stored exactly that entry |
| AuditLog.StoredAsGiven | packages/audit-log/src/audit-log.ts:59-102 | in every interleaving each stored entry says what its call gave, with the token that call was given; a call has stored an entry if and only if a store of it took effect, and returned one if and only if that store succeeded |
| AuditLog.StoredStays | packages/audit-log/src/storage.ts:37-56 | no event moves, changes or removes a stored entry |
| AuditLog.StepWorks | packages/audit-log/src/audit-log.ts:59-102 | between arrivals only finitely many events can happen |
| AuditLog.SomeoneMoves | packages/audit-log/src/audit-log.ts:59-102 | no deadlock: while a call is not over, that call or an earlier one can move |
| CronExpression.PartEnds | services/cron-scheduler/src/parser.ts:203-217 | the first and last value that the text before the slash gives, or its first error |
| CronExpression.ExpandPart | services/cron-scheduler/src/parser.ts:176-234 | adds the values of the part's range to the set, or reports the first error |
| CronExpression.ParseField | services/cron-scheduler/src/parser.ts:144-174 | the union over the comma-separated parts, or the error of the first bad part |
| CronExpression.FieldMeaning | services/cron-scheduler/src/parser.ts:144-234 | a field is accepted if and only if each part is; a value is in the set if and only if some part steps through it, 7 counting as Sunday; the set is non-empty and within bounds |
| CronExpression.TokenReads | services/cron-scheduler/src/parser.ts:236-254 | printed numbers and aliases in any case resolve to their values |
| CronExpression.PartReads | services/cron-scheduler/src/parser.ts:176-234 | a printed part parses to the range it stands for: every part of the documented grammar to its documented range, and a lone value with a step to the steps from it to the end of the field |
| CronExpression.GrammarReads | services/cron-scheduler/src/parser.ts:144-174 | every list of such parts, so every list of the documented grammar, parses to exactly the values it means |
| CronExpression.AcceptsExactly | services/cron-scheduler/src/parser.ts:176-254 | for every text: it is accepted as a range if and only if it is nothing, a star, a token, or two tokens with a dash and possibly another dash and anything; then possibly a slash, a plus sign, digits of a positive value and anything; within bounds, steps being exact numbers |
| CronExpression.PartErrors | services/cron-scheduler/src/parser.ts:176-234 | a part is rejected for its step if and only if it has none where it should, for its values if and only if it has a step and they are no tokens, and otherwise for bounds or order |
| CronExpression.GrammarExactly | services/cron-scheduler/src/parser.ts:4-12 | an accepted part is in the documented grammar if and only if something in capitals precedes the slash, with at most one dash, a slash comes only after a star or a span, and the step is in shortest form |
| CronExpression.AcceptsMore | services/cron-scheduler/src/parser.ts:176-254 | five families accepted beyond the grammar, and the range as which each is read |
| CronExpression.MoreIsUndocumented | services/cron-scheduler/src/parser.ts:4-12 | no part of those families has the documented form |
| CronExpression.WordsSpaced | services/cron-scheduler/src/parser.ts:86-107 | words with white space around and between them are the words read |
| CronExpression.CronMeaning | services/cron-scheduler/src/parser.ts:86-134 | without a shortcut, an expression is accepted if and only if it has five words and each is accepted in its field; each set is that of its word, and the restriction flag is set if and only if neither day field is a bare star |
| CronExpression.FirstBadField | services/cron-scheduler/src/parser.ts:109-130 | of several bad fields the one reported is the first of month, weekday, minute, hour and day of month |
| CronExpression.CronReads | services/cron-scheduler/src/parser.ts:86-134 | five printed lists, however spaced: a value is in the set of minutes, hours, days of month, months or weekdays if and only if the first, second, third, fourth or fifth list means it |
| CronExpression.DueByLists | services/cron-scheduler/src/parser.ts:415-432 | from the text to the minutes: minute m of hour h of a day is due if and only if the lists mean minute, hour and month, and day of month and weekday, of which one is enough when neither list is a bare star |
| CronExpression.ShortcutsMean | services/cron-scheduler/src/parser.ts:55-63 | each of the seven shortcuts, in any case and spacing, parses to the sets it stands for |
| CronExpression.ShortcutsOnly | services/cron-scheduler/src/parser.ts:136-142 | an expression that begins with an at sign is accepted if and only if it is one of the seven |
| CronExpression.AliasValues | services/cron-scheduler/src/parser.ts:30-53 | the names of months and weekdays resolve to their places from January, 1, and Sunday, 0 |
| CronExpression.ParsedInBounds | services/cron-scheduler/src/parser.ts:86-134 | every accepted expression has five non-empty sets within their bounds |
| CronExpression.MonthlyParses | services/cron-scheduler/src/parser.ts:55-63 | `@monthly` parses to minute 0, hour 0, day 1, every month, every weekday, unrestricted |
| CronExpression.MonthlyTextNeverFires | services/cron-scheduler/src/parser.ts:275-322 | `@monthly` searched from any day but the first of a month is never found |
| CronNextFire.JumpLands | services/cron-scheduler/src/parser.ts:306-322 | a jump ends at 02:00 of the next local day |
| CronNextFire.MatchesFields | services/cron-scheduler/src/parser.ts:415-432 | minute m of hour h of a day matches if and only if minute, hour and month are listed, and day of month and weekday are, of which a restricted expression needs only one |
| CronNextFire.EitherDay | services/cron-scheduler/src/parser.ts:421-432 | with both day fields restricted, a minute is due if and only if it is due by the day of month alone or by the weekday alone; otherwise if and only if by both |
| CronNextFire.FullField | services/cron-scheduler/src/parser.ts:421-432 | a field that lists every day leaves the decision to the other if the expression is not restricted, and otherwise makes it fire on every day |
| CronNextFire.NextFire | services/cron-scheduler/src/parser.ts:275-304 | the cursor loop computes the search function, for every calendar, anchor and horizon |
| CronNextFire.NextFireMeaning | services/cron-scheduler/src/parser.ts:275-304 | the result is the least matching minute in (after, deadline] on the search's first day, or after a matching day, or at or after 02:00; null if and only if there is none |
| CronNextFire.NextFireFields | services/cron-scheduler/src/parser.ts:275-304 | the same told by the fields: the result is due by its fields and no later than any other such minute that the search looks at; there is one if there is any such minute within the horizon |
| CronNextFire.WalkFinds | services/cron-scheduler/src/parser.ts:415-431 | the minute-by-minute walk finds the least matching minute |
| CronNextFire.GapMisses | services/cron-scheduler/src/parser.ts:306-322 | at every gap there is an anchor from which the search misses a minute that the walk finds |
| CronNextFire.AgreesExactly | services/cron-scheduler/src/parser.ts:275-322 | search and walk agree for all anchors and horizons if and only if there is no gap |
| CronNextFire.MonthlyNeverFires | services/cron-scheduler/src/parser.ts:306-322 | the parsed form of `@monthly` is never found from mid-month, at any horizon |
| CronNextFire.NextFires | services/cron-scheduler/src/parser.ts:325-346 | the loop computes the successive results |
| CronNextFire.FiresIncrease | services/cron-scheduler/src/parser.ts:325-346 | successive fires are due, after the anchor, strictly increasing |
| CronNextFire.FiresComplete | services/cron-scheduler/src/parser.ts:325-346 | without a gap no due minute is left out, and too few results mean nothing more is due within the horizon |
| CronScheduler.ParserIsLater | services/cron-scheduler/src/parser.ts:275-304 | the next-fire search only returns times after its anchor, as the scheduler's proofs require |
| CronRetry.WaitsDouble | services/cron-scheduler/src/dispatcher.ts:118-126 | the first wait is the backoff and each further one twice the one before, up to the cap |
| CronRetry.BackoffExactly | services/cron-scheduler/src/dispatcher.ts:118-126 | k waits of which the first j stay within the cap add up to exactly backoff * (2^j - 1) + (k - j) * cap |
| CronRetry.BackoffBound | services/cron-scheduler/src/dispatcher.ts:118-126 | k waits add up to at most backoff * (2^k - 1) and at most k caps |
| CronScheduler.Scheduler.ScheduleNextRun | services/cron-scheduler/src/scheduler.ts:125-137 | the job's next run is the parser's answer for the anchor, or none |
| CronScheduler.Scheduler.Refresh | services/cron-scheduler/src/scheduler.ts:115-123 | a job's next run is recomputed from now when it is active, cleared when it is paused |
| CronScheduler.Scheduler.SetJobStatus | services/cron-scheduler/src/server.ts:169-180 | a status change is followed by a refresh before anything else runs |
| CronScheduler.Scheduler.BeginExecution | services/cron-scheduler/src/scheduler.ts:139-213 | the first attempt is dispatched unless the job is paused |
| CronScheduler.Scheduler.VisitNextJob | services/cron-scheduler/src/scheduler.ts:85-102 | one round of the tick's loop, jobs deleted or paused during another job's await included |
| CronScheduler.Scheduler.AfterExecution | services/cron-scheduler/src/scheduler.ts:85-102 | after the awaited execution an active job is rescheduled and the loop goes on |
| CronScheduler.Scheduler.AfterDispatched | services/cron-scheduler/src/scheduler.ts:139-213 | recording the run, then finishing, writing the dead letter, or waiting before the next attempt |
| CronScheduler.Scheduler.AfterBackoff | services/cron-scheduler/src/scheduler.ts:139-213 | after the wait the next attempt is dispatched, unless the job was deleted or paused |
| CronScheduler.Scheduler.BeginTick | services/cron-scheduler/src/scheduler.ts:85-102 | the tick reads the time and the active jobs once |
| CronScheduler.Scheduler.TriggerJob | services/cron-scheduler/src/scheduler.ts:105-112 | a manual trigger starts an execution and leaves the schedule alone |
| CronScheduler.Scheduler.EndTrigger | services/cron-scheduler/src/scheduler.ts:105-112 | a trigger whose execution is over rejects if that threw, and else reports the last run of the history if it is longer than before |
| CronScheduler.Scheduler.RecordRun | services/cron-scheduler/src/registry.ts:171-180 | appends to the job's history and keeps the newest 500 |
| CronScheduler.Scheduler.RecordDeadLetter | services/cron-scheduler/src/registry.ts:188-193 | appends and keeps the newest 1000 dead letters |
| CronScheduler.Scheduler.CreateJob | services/cron-scheduler/src/registry.ts:100-132 | a new job starts with an empty history and, when active, its first next run |
| CronScheduler.Scheduler.DeleteJob | services/cron-scheduler/src/registry.ts:134-138 | the job and its history are dropped; what was executing for it goes on |
| CronScheduler.StepKeeps | services/cron-scheduler/src/scheduler.ts:85-137 | every event keeps each active job's next run later than all its fires |
| CronScheduler.NoFireTwice | services/cron-scheduler/src/scheduler.ts:85-137 | in every run the scheduled times at which ticks fire a job strictly increase |
| CronScheduler.NoFireLost | services/cron-scheduler/src/scheduler.ts:85-137 | an active job that is to run at t keeps that time, whatever happens to other jobs and however it is triggered by hand, until a tick fires it at exactly t |
| CronScheduler.TickFiresDue | services/cron-scheduler/src/scheduler.ts:85-102 | a tick does not end before it has fired every due job that it listed, unless a job is deleted or this one paused meanwhile |
| CronRetry.RetryDiscipline | services/cron-scheduler/src/scheduler.ts:139-213 | in every run and for every execution: at most as many runs as its maximum, numbered from 1, all but the last failed and not terminal, the last terminal if and only if it succeeded or was the last allowed; a dead letter if and only if all allowed attempts failed; the time slept is exactly that of a wait after each run but one that succeeded or was the last allowed |
| CronRetry.PolicyFollowed | services/cron-scheduler/src/scheduler.ts:139-213 | in every run an execution follows its job's retry policy, with at least one attempt |
| CronRetry.NoDispatchWhilePaused | services/cron-scheduler/src/scheduler.ts:146-158 | an attempt is dispatched only for an active job: the first when the execution begins, the next after a wait |
| CronRetry.OnlyPausesStop | services/cron-scheduler/src/scheduler.ts:146-158 | an execution of a job that is never paused or deleted ends only in success or after all its attempts |
| CronRetry.ExecutionMoves | services/cron-scheduler/src/scheduler.ts:139-213 | each event of an execution brings it closer to its end |
| CronRetry.TickListsDue | services/cron-scheduler/src/scheduler.ts:85-88 | a tick begins with the time and the active jobs of its beginning, among them every job that is due |
| CronRetry.TickMoves | services/cron-scheduler/src/scheduler.ts:85-102 | each round and each resumption brings the tick closer to its end; a round that begins an execution begins one of its job and waits for it |
| CronScheduler.NextRunChanges | services/cron-scheduler/src/scheduler.ts:85-137 | every way in which a next run can change: creation, a status change and the end of an awaited execution give the next fire after the present, a visit to a job without one the next fire after the start of the tick; nothing else does |
| CronScheduler.PausedNextRunExactly | services/cron-scheduler/src/scheduler.ts:85-123 | in every run, a paused job has a next run if and only if, since its status was last set, a tick that had listed it visited it and found a fire time |
| CronScheduler.PausedMeanwhile | services/cron-scheduler/src/scheduler.ts:85-102 | from every state in which a tick waits for one job with another listed behind it, pausing the other and letting the tick go on gives the paused job a next run |
| CronHistory.StoredIsNewest | services/cron-scheduler/src/registry.ts:171-193 | pushing one by one and splicing off the excess keeps the newest entries of all, up to the bound |
| CronScheduler.RunKept | services/cron-scheduler/src/registry.ts:171-180 | in every run of the machine, exactly the existing jobs have a history, and it is the newest 500 of all runs ever recorded for the job |
| CronScheduler.DeadLettersExactly | services/cron-scheduler/src/registry.ts:188-193 | in every run, the dead letters are the newest 1000 of the executions given up, each once, in the order in which they were |
| CronScheduler.TriggerReportsExactly | services/cron-scheduler/src/scheduler.ts:105-112 | whatever happens meanwhile, a manual trigger whose execution ended reports a run if and only if the job is still there, a run of it was recorded since, and its history was not full when the trigger began; it is the last one recorded, be it the trigger's or another execution's; if the job was deleted during a dispatch, the trigger rejects |
| TenantQueue.Queue.EnqueueTask | services/deploy-orchestrator/src/queue.ts:20-37 | a queued task waits for the key's tail and its chained promise becomes the tail |
| TenantQueue.Queue.RunTask | services/deploy-orchestrator/src/queue.ts:20-37 | a task starts once the promise before it has resolved |
| TenantQueue.Queue.TaskSettled | services/deploy-orchestrator/src/queue.ts:20-37 | resolution and rejection both settle a task |
| TenantQueue.Queue.ChainResolved | services/deploy-orchestrator/src/queue.ts:20-37 | the chained promise resolves after its task, rejected or not |
| TenantQueue.Queue.SweepTail | services/deploy-orchestrator/src/queue.ts:30-35 | the tail is dropped only if it is still the promise of the finished task |
| TenantQueue.Queue.ActiveKeys | services/deploy-orchestrator/src/queue.ts:40-42 | a key is listed if and only if its last task has not been swept: so every key with an unsettled task is, and none once all tasks are swept |
| TenantQueue.StepKeeps | services/deploy-orchestrator/src/queue.ts:20-37 | every event keeps the links between tasks and the tails in order |
| TenantQueue.SerialPerKey | services/deploy-orchestrator/src/queue.ts:20-37 | in every interleaving one task per key runs at a time, in enqueue order, after all earlier ones have settled, and exactly those are recorded as started that have begun; unsettled keys are tracked; at quiescence nothing is |
| TenantQueue.FirstMoves | services/deploy-orchestrator/src/queue.ts:20-37 | the first unfinished task of a key can always move, whatever other keys do |
| TenantQueue.TaskMoves | services/deploy-orchestrator/src/queue.ts:20-37 | every event moves one task on by one stage, rejected or not, and touches no other; an arrival queues one more |
| TenantQueue.UnguardedOverlaps | services/deploy-orchestrator/src/queue.ts:30-35 | without the `=== chained` guard there is a run, with callbacks in the order of their registration, in which two tasks of one key overlap |
| DeployPipeline.Services.Put | services/deploy-orchestrator/src/pipeline.ts:122-140 | the upload, which may be refused or take effect without a reply |
| DeployPipeline.Services.Register | services/deploy-orchestrator/src/pipeline.ts:159-172 | the registration of the bundle, likewise |
| DeployPipeline.Services.Swap | services/deploy-orchestrator/src/pipeline.ts:174-193 | the route swap, which also returns the route it replaced |
| DeployPipeline.Services.RunUndo | services/deploy-orchestrator/src/pipeline.ts:98-120 | one undo step, which may fail without effect |
| DeployPipeline.Services.Fail | services/deploy-orchestrator/src/pipeline.ts:98-120 | the undo steps run from the last pushed to the first whatever fails, between `rolling-back` and `failed` |
| DeployPipeline.Services.RunDeployPipeline | services/deploy-orchestrator/src/pipeline.ts:69-234 | result, remote state and emitted statuses are those of the recursive saga, for every failure pattern |
| DeployPipeline.StatusTrace | services/deploy-orchestrator/src/pipeline.ts:57-68 | live if and only if every forward call succeeds; a failed deploy emitted a prefix of the lifecycle before `swapping`, then the rollback statuses; once `swapping` is emitted the result is live |
| DeployPipeline.UndoneInReverse | services/deploy-orchestrator/src/pipeline.ts:98-120 | a failed deploy attempts the undo step of each call before the failing one once, the latest first, whatever becomes of the others; a live one attempts none |
| DeployPipeline.LiveServes | services/deploy-orchestrator/src/pipeline.ts:122-234 | a live deploy stored, registered and routed its own build and changed nothing else |
| DeployPipeline.RollbackLeaves | services/deploy-orchestrator/src/pipeline.ts:98-120 | for every failing call and every set of failing undo steps, what is left in each store depends only on its own call and undo step |
| DeployPipeline.RestoresExactly | services/deploy-orchestrator/src/pipeline.ts:98-120 | for each store, exactly when a failed deploy leaves it as it was |
| DeployPipeline.SagaRollback | services/deploy-orchestrator/src/pipeline.ts:92-120 | with fresh key and bundle id, a failed deploy differs from its start only where an undo step failed or the failing call took effect unseen, and never touches other resources |
| DeployPipeline.DanglesExactly | services/deploy-orchestrator/src/pipeline.ts:169-193 | from routes that all lead to registered bundles, a failed deploy leaves a route leading nowhere if and only if its swap stayed in place and its bundle was deleted |
| DeployPipeline.RedeployDeletes | services/deploy-orchestrator/src/pipeline.ts:92-93 | with a key already in use, a deploy that fails its health check deletes the earlier upload |
| DeployPipeline.RedeployWitness | services/deploy-orchestrator/src/pipeline.ts:133-140 | a concrete deploy in which only the probe fails and the rollback loses an object that was there before |
| RateLimiter.Limiter.Consume | services/ai-gateway/src/ratelimit.ts:53-95 | the bucket is created full or refilled, and the decision taken, with overrides or defaults |
| RateLimiter.Limiter.Reset | services/ai-gateway/src/ratelimit.ts:97-99 | forgets every bucket, so that AllowedExactly, which starts from a fresh limiter, applies again from there |
| RateLimiter.TokensBounded | services/ai-gateway/src/ratelimit.ts:53-95 | tokens stay between 0 and the capacity, for any clock and any change of configuration |
| RateLimiter.WindowBound | services/ai-gateway/src/ratelimit.ts:53-95 | in every window [s, t] at most burst + rps * (t - s) / 1000 requests of a key are allowed |
| RateLimiter.AllowedExactly | services/ai-gateway/src/ratelimit.ts:53-95 | from a fresh limiter, a request is allowed if and only if admitting it keeps every window ending at it within its budget |
| RateLimiter.RetryAfter | services/ai-gateway/src/ratelimit.ts:88-94 | after a denial, the key's next request is allowed if and only if the capacity is at least one token and the advised wait has passed |
| RateLimiter.RemainingMeaning | services/ai-gateway/src/ratelimit.ts:78-95 | `remaining` is exactly the number of further requests of the key that would be allowed at the same instant |
| LruCache.Cache.Create | services/ai-gateway/src/cache.ts:54-59 | an argument that is not positive is rejected; the capacity is any other rounded down, 0 included |
| LruCache.Cache.Lookup | services/ai-gateway/src/cache.ts:61-72 | a hit returns the value and makes it the newest; the counters say which |
| LruCache.Cache.Set | services/ai-gateway/src/cache.ts:74-84 | the key becomes the newest; a new key evicts the oldest of a full cache |
| LruCache.Contents | services/ai-gateway/src/cache.ts:61-84 | after every trace keys are distinct, the size is at most the capacity, or 1 if the capacity is 0, and entries are those last set |
| LruCache.SizeExceedsExactly | services/ai-gateway/src/cache.ts:54-84 | for every accepted argument and trace, the size exceeds the capacity if and only if the argument is below 1 and something was set since the last clear |
| LruCache.HalfWitness | services/ai-gateway/src/cache.ts:54-84 | a cache made with the argument 0.5 has capacity 0 and holds an entry |
| LruCache.RunsByRoom | services/ai-gateway/src/cache.ts:61-84 | a cache of capacity 0 behaves as one of capacity 1 on every trace |
| LruCache.HitIsLastSet | services/ai-gateway/src/cache.ts:61-72 | for every capacity and after every trace, a hit is the value last set for the key since the last clear |
| LruCache.RecentlyUsedStays | services/ai-gateway/src/cache.ts:61-84 | after every trace, a value that was set or found is found as long as fewer other keys have been used since than the cache has room for |
| LruCache.Inclusion | services/ai-gateway/src/cache.ts:61-94 | after the same trace, the smaller cache, of capacity 0 even, holds in recency order a subsequence of what the larger one holds |
| RunLimits.Race.Finish | services/edge-runtime/src/limits.ts:81-87 | the first call settles, cancels both timers and resolves; later calls change nothing |
| RunLimits.Race.OnTimeout | services/edge-runtime/src/limits.ts:89-95 | the timeout settles with the configured budget |
| RunLimits.Race.OnPoll | services/edge-runtime/src/limits.ts:97-111 | a sample raises the peak, and settles at the cap or rearms the poll |
| RunLimits.Race.OnSettled | services/edge-runtime/src/limits.ts:113-130 | a resolution or rejection of the invocation settles with it |
| RunLimits.SettlesOnce | services/edge-runtime/src/limits.ts:64-133 | the first callback that can end the race does, with its own result and the peak sampled up to it; nothing later changes that |
| RunLimits.RaceMeaning | services/edge-runtime/src/limits.ts:64-133 | in every order of callbacks: settled if and only if one could end the race; one resolution; no timer armed after it and both before it; `memory` only when the heap had grown by the limit, in units of 2^20 bytes, and then that growth is the peak |

## Left out

- Non-ASCII labels and strings: `TextEncoder`, and the `ascii` decoder's reading of bytes above 127, are not modelled; what the decoder yields for them is carried as bytes.
- DnsEncoding.Writer.IPv4: octet texts that `Number` accepts beyond plain digits (signs, spaces, exponents) are rejected by the model.
- DnsEncoding.Writer.IPv6: group texts that `parseInt` accepts with a sign or trailing characters are rejected by the model.
- The header's flag word is packed and unpacked by multiplication and division instead of shifts and masks; the fields occupy disjoint bits.
- DnsCursor.Cursor.DecodeName: after an error the cursor's position is left unspecified, because the decoder is abandoned then.
- CronNextFire.NextFireMeaning: zones are at a constant offset, without daylight saving; the calendar is an arbitrary function from days to dates.
- CronExpression.TokenReads: numbers are exact; above 2^53, where the original's rounding may make it report a bad value, the model reports one out of bounds. Both reject.
- CronExpression.AcceptsExactly: a step of more than 308 digits is accepted here and rejected by the original, which reads it as infinite.
- CronExpression.ParseField: errors of numbers above 2^53 may differ as for TokenReads; a step of more than 308 digits, which the original reads as infinite and rejects, is read as the number it is. White space other than ASCII is not modelled.
- CronRetry.RetryDiscipline: an attempt whose job was deleted meanwhile ends with an exception and records no run.
- CronScheduler.TriggerReportsExactly: a job created again under the id of a deleted one, while a trigger of that one waits, is not modelled.
- CronScheduler.NoFireTwice: job ids are not reused and the clock does not go back; hooks that throw, the start and stop timers, the transport of a dispatch and the outcome of a run that was abandoned by a stop are not modelled.
- HashChain.TamperEvidence: SHA-256 is a parameter, here assumed injective; CollisionOrAgree assumes nothing of it. Schema validation is a parameter, and timestamp tokens are opaque texts.
- JsonReadability.CanonicalIffSame: finite trees of null, booleans, strings, lists, objects and finite numbers other than -0, a number being its printed text. The schema admits any value in `detail`; `undefined`, infinite numbers and objects with their own serialisation are assumed away.
- The UDP listener's handler around its replies: its FORMERR reply to bytes that do not decode, and its SERVFAIL reply, which is built like the TCP handler's.
- DnsHandler.HandleMessage: the cache lookup, the resolver's answer or its failure, and writing to the socket are parameters or left out; the answer is assumed to echo the request's questions, as DnsResolver.ReplyForm proves.
- AuditLog.Log.AfterStore: a store whose reply is lost after it took effect is covered in the state machine, not by a method of its own.
- DeployPipeline.Services.RunDeployPipeline: the warming of the previous bundle, whose failure is caught and which changes none of the three stores, is left out, as are timestamps and messages in the records; the registry is assumed to echo the bundle id; parsing of the artefact and `resolveEntrypoint` count as part of the calls beside them.
- RateLimiter.WindowBound: tokens and clock readings are real numbers, so floating-point rounding is not covered; a reset of the limiter inside the window is excluded.
- LruCache.Cache.Create: arguments are real numbers, so the rejected infinities and NaN have no counterpart.
- RunLimits.RaceMeaning: an invocation that throws before returning a promise, and a timer that fires while it is being set, are excluded.
- The semantic cache of the gateway, whose lookups compare embeddings in floating point.
- Sockets, HTTP routes, authentication, metrics, logging, Web UI, build runner, providers and storage adapters: plumbing around what is modelled.
