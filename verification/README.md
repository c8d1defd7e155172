# A verified model of the bind9 SDK

This project models the wire formats, text formats and connection machinery of the bind9 SDK in Dafny and proves what they promise, for every input, every record and every interleaving. `dafny verify dfyconfig.toml` checks everything.

Code that fills buffers or moves a cursor is modelled as methods and classes with the same loops and fields; each is proved equal to a specification function, and the laws are lemmas about those functions. A member named here states a promise; the lemmas around it are steps of its proof.

**Dynamic updates and transaction signatures** (`bytes`, `utf8`, `domain`, `records`, `update`, `update_laws`, `tsig`, `tsig_laws`, `builder`, `nsupdate`, `nsupdate_laws`). The RFC 2136 encoder with its counted sections and patched-in RDLENGTH, an independent reader that knows only header counts and RFC layouts, a server's classification of records into updates and prerequisites by class, type, TTL and data, the RFC 8945 signer and verifier, and the walk that finds and strips the TSIG record of a response. A response is accepted only if it is signed, whatever bytes arrive. An update is understood as it was meant exactly when its type is no meta type and, for an addition, its class is the zone's; the class is not checked, and an addition of class ANY without data is read as a deletion. Three facts about key names came out: a name survives the wire form of a TSIG record, in any letter case, exactly when all its labels are graphic ASCII without dot or backslash; a record carrying the key's own wire name is never accepted if the key has any other name; and yet a record whose owner holds the printed labels of that name, escapes and all, is accepted if the rest is right.

**The control channel** (`isc`, `decimal`, `base64`, `isc_auth`). The nested table codec with its depth limit, the signed request, the bytes an HMAC covers, and the checks on a reply. A table is an association list whose keys ascend.

**The connection pool** (`reconnect`, `pool`). One job on a worker's connection (serials, late replies, one retry), and the pool as a state machine: callers, worker tasks, one-slot channels, the availability queue and its separately updated counter. Two boundaries came out: `available()` wraps to a number just below 2^64 exactly while more workers have given back their index without counting it than there are indices queued or taken without counting; and a success can answer another job's request only once a connection has carried more than 2^32 requests, which a run of that length and a reply stamped within 60 seconds of the new request bring about.

**Dates, serials and type bitmaps** (`calendar`, `timestamp`, `serials`, `bitmap`, `record_types`). Day numbers against a definition of the Gregorian calendar, RRSIG times, zone serials, and the windowed type bitmap with its text form.

**Zone differences** (`zone_diff`, `zone_diff_laws`, `zone_apply_laws`, `zone_wire_laws`). Computing, applying and exporting a difference, up to the records a server of the old zone holds after it has read the exported message from its bytes.

**Zone text** (`charstring`, `hex`, `tokenizer`, `serializer`, `lexing_laws`, `generic_rdata`). The printer, the lexer and the character-string decoder. A byte string printed in quotes and read by lexer and decoder in turn comes back exactly when it holds no backslash.

**named.conf** (`named_conf`, `named_conf_parser`, `named_conf_laws`, `named_conf_printing`, `named_conf_round_trip`, `named_conf_grammar`). The recursive descent over tokens, the transparency of statements it does not know, writers in every spelling the parser allows whose output parses back, and the grammar of the access lists it accepts.

Conventions: text is a sequence of bytes; record types and classes are 16-bit numbers; error values carry no message; the HMAC is an arbitrary function of the key whose verification accepts exactly its output; clocks, random numbers and network outcomes are parameters. Machine widths are explicit wherever a value can reach them.

Where code and documentation differ the model follows the code: `DomainName` is documented as limited to 253 characters of text, but only the wire length is checked; the documentation of `SerialStrategy::next` excludes a boundary case from its promise, but the promise holds there too.

## Model

| member | source | states |
|---|---|---|
| Domain.DecodeLabel | crates/bind9-sdk-core/src/domain.rs:64-106 | The cursor loop decodes backslash and three-digit escapes, refuses bare dots and non-graphic bytes, and reports incomplete or too large escapes, as the recursive definition of label text says |
| Domain.SplitDomainLabels | crates/bind9-sdk-core/src/domain.rs:110-149 | Splitting at unescaped dots, with the same view of escapes as the label decoder |
| Domain.New | crates/bind9-sdk-core/src/domain.rs:181-212 | Accepts exactly the names whose labels are non-empty, decodable, at most 63 bytes, and at most 255 bytes on the wire |
| Domain.SplitLabel | crates/bind9-sdk-core/src/domain.rs:110-149 | No escape straddles a label boundary: whatever text decodes as a label, the splitter ends it exactly at the dot after it |
| Domain.DisplayRoundTrip | crates/bind9-sdk-core/src/domain.rs:309-321 | Parsing the printed form of any name gives the same labels, text and bytes alike |
| Domain.AcceptedNamesRoundTrip | crates/bind9-sdk-core/src/domain.rs:181-212 | Every accepted text prints to a form that parses to the same name, with labels of 1 to 63 bytes and at most 255 bytes in all |
| Domain.Unescaped | crates/bind9-sdk-core/src/domain.rs:64-106 | Label text without a backslash stands for itself if every byte is graphic and none is a dot, and is otherwise refused as an invalid character |
| Domain.WriteWire | crates/bind9-sdk-core/src/domain.rs:247-254 | Appends the length-prefixed labels and the root octet |
| Domain.WriteWireCanonical | crates/bind9-sdk-core/src/domain.rs:260-268 | Appends the same form with ASCII letters in lower case |
| Domain.WireFormLength | crates/bind9-sdk-core/src/domain.rs:233-268 | Both wire forms have exactly `wire_len` bytes, at most 255 |
| Domain.EncodeLabelsUnique | crates/bind9-sdk-core/src/domain.rs:247-254 | Length-prefixed labels decode uniquely, whatever follows them |
| Domain.EqualIffCanonicalForm | crates/bind9-sdk-core/src/domain.rs:272-286 | Two names are equal exactly when their canonical wire forms are the same bytes |
| Domain.HashName | crates/bind9-sdk-core/src/domain.rs:290-301 | What a name feeds to a hasher: the label count, then each label's length and lower-case bytes |
| Domain.EqualIffSameHashInput | crates/bind9-sdk-core/src/domain.rs:290-301 | Names feed a hasher identical sequences exactly when they are equal |
| Records.EncodeRdata | crates/bind9-sdk-core/src/update/message.rs:260-480 | Succeeds exactly when every counted string fits its length octet, and appends the fields of the record type in order |
| Records.EncodeRdataWithLength | crates/bind9-sdk-core/src/update/message.rs:246-258 | Zero RDLENGTH, data, then the real length written over the zero; refused above 65535 bytes |
| Records.RdataReadsBack | crates/bind9-sdk-core/src/update/message.rs:260-480 | A reader that knows only the type number and the RFC layouts gets every field back; for an unknown record under the number of a structured type, what it reads has exactly the bytes written |
| Records.FieldsInOrder | crates/bind9-sdk-core/src/update/message.rs:260-480 | The fields written are the named fields of the record in the order of its RFC, each in its width |
| Update.EncodePrerequisite | crates/bind9-sdk-core/src/update/message.rs:118-174 | Each prerequisite becomes the records section 2.4 of RFC 2136 gives it, one per record for the with-data form |
| Update.EncodeUpdateEntry | crates/bind9-sdk-core/src/update/message.rs:176-213 | Each update becomes the record section 2.5 of RFC 2136 gives it |
| Update.EncodeUpdateMessage | crates/bind9-sdk-core/src/update/message.rs:39-112 | Succeeds exactly when counts, data and total size fit, and emits header, zone, prerequisites and updates |
| Update.UpdateReadsBack | crates/bind9-sdk-core/src/update/message.rs:39-112 | Read by its header counts alone, every encoded update gives the prescribed records in order and leaves no byte over |
| UpdateLaws.UpdateUnderstoodIff | crates/bind9-sdk-core/src/update/message.rs:176-213 | By the classification of section 3.4.2 of RFC 2136 the record written for an update means that update, with its own name, type, TTL and data, exactly when its type is no meta type and an addition has the class of the zone |
| UpdateLaws.PrerequisiteUnderstoodIff | crates/bind9-sdk-core/src/update/message.rs:118-174 | By section 3.2 of RFC 2136 the records written for a prerequisite mean it exactly when an existence or absence test of a record set does not name type ANY |
| UpdateLaws.MessageUnderstood | crates/bind9-sdk-core/src/update/message.rs:39-112 | Read from its bytes, every encoded request has opcode 5 and no flag, its own id, zone and class, and each record means what was asked for, each exactly when it can |
| UpdateLaws.ForeignClassDeletes | crates/bind9-sdk-core/src/update/message.rs:176-193 | The class of an addition is written unchecked: with class ANY, no TTL and no data it is read as the deletion of a record set |
| Builder.UpdateBuilder.RequireRrsetExistsWithData | crates/bind9-sdk-core/src/update/builder.rs:95-112 | Refuses an empty record list, which would encode to nothing, and otherwise adds the prerequisite with its records after the earlier ones |
| Builder.UpdateBuilder.BuildUnsigned | crates/bind9-sdk-core/src/update/builder.rs:145-156 | Succeeds exactly when the request can be encoded, with the encoded bytes and no MAC |
| Builder.UpdateBuilder.Sign | crates/bind9-sdk-core/src/update/builder.rs:191-238 | Succeeds exactly when the request encodes, can be signed and stays within 65535 bytes; the result is the encoding with ARCOUNT raised and the TSIG record appended, its MAC and the length before it |
| Tsig.New | crates/bind9-sdk-core/src/tsig/record.rs:78-212 | Refuses times beyond 48 bits and prior MACs beyond 65535 bytes; otherwise the record whose MAC covers the chained prior MAC, the message and the TSIG variables |
| Tsig.ReadWireName | crates/bind9-sdk-core/src/tsig/wire.rs:12-40 | The loop reads uncompressed UTF-8 labels up to the root and joins them with dots |
| Tsig.ParseFromWire | crates/bind9-sdk-core/src/tsig/record.rs:218-369 | Owner, fixed fields, algorithm name and tail are read in order, with every refusal of the field-by-field definition |
| Tsig.VerifyResponse | crates/bind9-sdk-core/src/tsig/record.rs:394-472 | Accepts exactly when name, algorithm, message id, time window and MAC all fit |
| TsigLaws.ParsesExactly | crates/bind9-sdk-core/src/tsig/record.rs:218-369 | Exactly the bytes that are one TSIG record with readable names, and nothing after it, are accepted, and the fields returned are those it was written with |
| TsigLaws.ReadsAsIffPlain | crates/bind9-sdk-core/src/tsig/record.rs:218-250 | A key name survives the wire, in any letter case, exactly when every label is graphic ASCII without dot or backslash |
| TsigLaws.BuiltParses | crates/bind9-sdk-core/src/tsig/record.rs:78-369 | What the key holder builds parses to every field that went in, with all bytes consumed |
| TsigLaws.AcceptsIff | crates/bind9-sdk-core/src/tsig/record.rs:394-472 | Any record, whoever wrote it, verifies exactly when its owner reads as the key's name and algorithm, message id, time window and MAC are right |
| TsigLaws.OwnNameAcceptsIff | crates/bind9-sdk-core/src/tsig/record.rs:394-472 | A record carrying the key's own wire name, in any letter case, verifies exactly when that name is plain and the other fields are right |
| TsigLaws.PrintedNameAcceptsIff | crates/bind9-sdk-core/src/tsig/record.rs:394-472 | A record whose owner holds the printed labels of the key's name verifies exactly when the other fields are right, whatever that name |
| TsigLaws.EscapedOwnerVerifies | crates/bind9-sdk-core/src/tsig/wire.rs:12-40 | For a key named by the one label `a.b`, its own records never verify, but the same record with the printed label as owner does |
| TsigLaws.SignedResponseVerifies | crates/bind9-sdk-core/src/tsig/record.rs:394-472 | A response the key signed over the request's MAC verifies exactly when the name is plain and the clock inside the fudge window: the verifier hashes the signer's bytes |
| TsigLaws.MacInputDetermines | crates/bind9-sdk-core/src/tsig/record.rs:78-212 | For one key the chained MAC input determines the prior MAC, the message and the time |
| TsigLaws.MacInputIsDigest | crates/bind9-sdk-core/src/tsig/record.rs:92-150 | The bytes hashed after prior MAC and message are cut from the record itself: owner, class and TTL, then the data without MAC size, MAC and original id, in the order of section 4.3.3 of RFC 8945 |
| TsigLaws.BuiltMac | crates/bind9-sdk-core/src/tsig/record.rs:78-212 | The MAC of a built record is the HMAC over prior MAC, message and those slices of the record as sent |
| NsUpdate.SkipWireName | crates/bind9-sdk-net/src/nsupdate.rs:95-119 | The loop passes labels, stops after a root octet or a compression pointer, and reports truncation |
| NsUpdate.FindTsigInResponse | crates/bind9-sdk-net/src/nsupdate.rs:121-184 | The walk by header counts: the start of the last additional record if it is a TSIG record |
| NsUpdate.FoundInside | crates/bind9-sdk-net/src/nsupdate.rs:121-184 | Whatever bytes were received, an offset that is found lies inside them |
| NsUpdate.CheckResponse | crates/bind9-sdk-net/src/nsupdate.rs:257-299 | Find, parse, check the error field, strip, decrement ARCOUNT, verify: with the error each step reports |
| NsUpdateLaws.WalkFindsLast | crates/bind9-sdk-net/src/nsupdate.rs:121-184 | On every well-formed message, compressed names included, the walk finds exactly the last additional record, if it is TSIG |
| NsUpdateLaws.AppendedIsFoundAndStripped | crates/bind9-sdk-net/src/nsupdate.rs:257-284 | After appending a TSIG record to any message, the walk finds its old length, and cutting there with ARCOUNT lowered gives the old message byte for byte |
| NsUpdateLaws.SignedUpdateStrips | crates/bind9-sdk-core/src/update/builder.rs:191-238 | The same for every signed update: found at the length before signing, stripped to the unsigned bytes, followed by exactly the record that was built |
| NsUpdateLaws.UnsignedHasNoTsig | crates/bind9-sdk-net/src/nsupdate.rs:121-184 | The walk finds nothing in any unsigned update |
| NsUpdateLaws.ResponseAcceptedIff | crates/bind9-sdk-net/src/nsupdate.rs:257-299 | Any response with any TSIG record appended is accepted exactly when the record reports no error, its owner reads as the key's name and its fields are right for the message without it |
| NsUpdateLaws.AcceptedIsSigned | crates/bind9-sdk-net/src/nsupdate.rs:257-299 | Whatever bytes are received, they are accepted only if they are some message with one TSIG record appended and counted that reports no error, has an owner that reads as the key's name, and right fields for that message |
| NsUpdateLaws.UnsignedRefused | crates/bind9-sdk-net/src/nsupdate.rs:294-297 | A message whose last additional record is not TSIG, or that has none, is refused for that, whatever follows it |
| NsUpdateLaws.ResponseRefusedAs | crates/bind9-sdk-net/src/nsupdate.rs:257-293 | An unreadable record is reported first, then the error the record carries, then anything else that is wrong |
| NsUpdateLaws.SignedResponseAccepted | crates/bind9-sdk-net/src/nsupdate.rs:257-299 | A signed response is accepted exactly when the key name is plain and the clock is inside the fudge window |
| Isc.EncodeMap | crates/bind9-sdk-net/src/rndc/protocol.rs:156-211 | Succeeds exactly when every key fits one length octet and every value 32 bits, and appends the entries in key order |
| Isc.FrameMessage | crates/bind9-sdk-net/src/rndc/protocol.rs:373-382 | The encoding behind its 32-bit length, refused when it does not fit |
| Isc.DecodeMap | crates/bind9-sdk-net/src/rndc/protocol.rs:213-300 | On any bytes, at any position and depth, terminates in bounds with the map the wire entries build or an error |
| Isc.DecodeMessage | crates/bind9-sdk-net/src/rndc/protocol.rs:141-154 | Version check, then the map |
| Isc.EncodeDecode | crates/bind9-sdk-net/src/rndc/protocol.rs:121-300 | Decoding what was encoded gives the message with UTF-8 binary leaves as strings when its nesting is within the limit, and is refused otherwise |
| Isc.OctetsOfRaw | crates/bind9-sdk-net/src/rndc/protocol.rs:213-300 | An accepted wire is exactly the encoding of the entries read from it, in wire order |
| Isc.BuildIsCanonical | crates/bind9-sdk-net/src/rndc/protocol.rs:213-300 | The decoded map always has strictly ascending keys at every level, and stays within the depth limit |
| Isc.LastEntryWins | crates/bind9-sdk-net/src/rndc/protocol.rs:213-300 | When a wire repeats a key, the last occurrence decides |
| Isc.DecodeEncode | crates/bind9-sdk-net/src/rndc/protocol.rs:121-300 | Re-encoding an accepted wire gives the same bytes exactly when its keys strictly ascend at every level |
| Base64.EncodeDecode | crates/bind9-sdk-net/src/rndc/mod.rs:867-870 | Decoding undoes encoding |
| Base64.DecodeEncode | crates/bind9-sdk-net/src/rndc/mod.rs:667-672 | Strict decoding accepts nothing but encodings |
| Base64.SameBits | crates/bind9-sdk-net/src/rndc/mod.rs:867-870 | Each four symbols stand for the 24 bits of the three octets they encode, the last group filled up with zeros |
| Decimal.ParsePrinted | crates/bind9-sdk-net/src/rndc/mod.rs:484-496 | A printed number parses back, up to the range of the type |
| IscAuth.BuildCtrlTable | crates/bind9-sdk-net/src/rndc/mod.rs:484-496 | Serial, time, expiry and nonce, in the key order of the map whatever the order of insertion |
| IscAuth.SignRndcBody | crates/bind9-sdk-net/src/rndc/mod.rs:503-528 | The 89-byte authenticator of the encoded control and data tables |
| IscAuth.FrameRequest | crates/bind9-sdk-net/src/rndc/mod.rs:408-432 | The frame of a command: length, version, then `_auth`, `_ctrl` and `_data` in that order |
| IscAuth.ExtractHmacInput | crates/bind9-sdk-net/src/rndc/protocol.rs:315-367 | Everything after the first entry, if that entry is `_auth` |
| IscAuth.VerifyAcceptsOnlyAuthValue | crates/bind9-sdk-net/src/rndc/mod.rs:632-682 | Verification accepts exactly the one value signing produces |
| IscAuth.RequestRoundTrip | crates/bind9-sdk-net/src/rndc/mod.rs:503-682 | Every framed request decodes to itself with its authenticator still binary, the extracted bytes are the signed ones, and verification accepts them |
| IscAuth.ReplyAccepted | crates/bind9-sdk-net/src/rndc/mod.rs:579-628 | A correctly signed reply with its entries in any order is accepted exactly when its control fields and type are right and no later `_auth` entry carries another value |
| IscAuth.EchoedFieldsAccepted | crates/bind9-sdk-net/src/rndc/mod.rs:685-756 | Echoed serial and nonce, a time within the window, its expiry and the reply flag are accepted in whatever order |
| IscAuth.AcceptedIsAuthentic | crates/bind9-sdk-net/src/rndc/mod.rs:579-682 | Nothing is accepted without the right HMAC over everything after its first entry, and no payload is accepted for two different serials |
| IscAuth.CtrlOkIff | crates/bind9-sdk-net/src/rndc/mod.rs:685-756 | Exactly which control tables pass, by their last entries on the wire: own serial, a time within 60 seconds, that time's expiry, the reply flag, and a nonce, which is the connection's if it has one |
| IscAuth.OwnTablePasses | crates/bind9-sdk-net/src/rndc/mod.rs:484-496 | A request's own control table, with the reply flag added, passes as that of its reply exactly when it carries a nonce and its expiry did not wrap |
| Reconnect.Worker.ConnectAuthenticated | crates/bind9-sdk-net/src/pool.rs:253-276 | Counts a connection exactly when one was made |
| Reconnect.Worker.ExecuteWithReconnect | crates/bind9-sdk-net/src/pool.rs:214-251 | Leaves the connection, result, requests and connection count that the two-attempt definition says, for every behaviour of the network |
| Reconnect.AtMostTwice | crates/bind9-sdk-net/src/pool.rs:214-251 | A command is written at most twice on at most two new connections, the second time only on a connection of its own |
| Reconnect.RetrySucceeds | crates/bind9-sdk-net/src/pool.rs:214-251 | From any connection or none, after any kind of failed first exchange, a second connection that brings the job's own reply makes it succeed there, with exact counts of requests and connections |
| Reconnect.FirstSuccessEnds | crates/bind9-sdk-net/src/pool.rs:214-236 | A first exchange that takes a reply ends the job with one request, whatever a second attempt would bring |
| Reconnect.FailedJobs | crates/bind9-sdk-net/src/pool.rs:214-251 | Without a first connection nothing is done; without a second none is kept; after a second exchange the new connection is kept even if that failed |
| Reconnect.SuccessIsOwn | crates/bind9-sdk-net/src/rndc/mod.rs:408-446 | A success is the reply to the job's own request, whatever replies to earlier jobs are in flight, while the connection has carried at most 2^32 requests |
| Reconnect.TakenIff | crates/bind9-sdk-net/src/rndc/mod.rs:685-756 | Exactly which replies a request takes: genuine ones to a request a multiple of 2^32 uses back whose control fields would pass in a reply to the new one |
| Reconnect.RunIsKept | crates/bind9-sdk-net/src/pool.rs:214-251 | Over any run of jobs, only the first request on a kept connection can have gone unanswered |
| Reconnect.RepliesAreOwn | crates/bind9-sdk-net/src/pool.rs:214-251 | Over any run, each later request of a kept connection among its first 2^32 took its own reply |
| Reconnect.OthersOnlyAtWrap | crates/bind9-sdk-net/src/rndc/mod.rs:415-415 | If no request is answered twice, only uses numbered one more than a multiple of 2^32 can take another request's reply |
| Reconnect.LateReplyAfterWrap | crates/bind9-sdk-net/src/rndc/mod.rs:415-415 | The bound is exact: after a run of 2^32 jobs the next takes the reply to the first, exactly when that reply is stamped within 60 seconds from the new request on and carries the nonce |
| Reconnect.LateReplyForcesReconnect | crates/bind9-sdk-net/src/pool.rs:238-247 | A late reply on a kept connection costs that connection, and the command succeeds on a new one |
| Pool.New | crates/bind9-sdk-net/src/pool.rs:60-118 | All indices queued in order, all workers idle without connections, the counter at the pool's size |
| Pool.StepKeeps | crates/bind9-sdk-net/src/pool.rs:121-212 | Every step of every interleaving keeps the invariant |
| Pool.RunKeeps | crates/bind9-sdk-net/src/pool.rs:121-212 | The invariant holds at the end of every run |
| Pool.ExactlyOnePlace | crates/bind9-sdk-net/src/pool.rs:121-212 | Every worker index is in exactly one place: the queue once, one caller, its slot, or its running worker |
| Pool.SendsNeverBlock | crates/bind9-sdk-net/src/pool.rs:133-212 | A worker that was handed out has an empty slot, the queue has room for every index given back, and never exceeds its capacity |
| Pool.NeverStuck | crates/bind9-sdk-net/src/pool.rs:121-212 | While a call is pending, some step that brings one closer to its response can be taken |
| Pool.RunCounts | crates/bind9-sdk-net/src/pool.rs:121-212 | Eight steps take each call to its response in every interleaving, and no run takes more |
| Pool.EveryCallAnswered | crates/bind9-sdk-net/src/pool.rs:121-212 | A run that can go no further has answered every call from its own job, after at most two requests on at most two new connections |
| Pool.ResponseIsFinal | crates/bind9-sdk-net/src/pool.rs:208-212 | A response, once given, is never replaced |
| Pool.AvailableExactly | crates/bind9-sdk-net/src/pool.rs:148-150 | The counter is the queue length plus takes not yet counted less returns not yet counted, modulo the word size, and passes the pool's size exactly when that is negative |
| Pool.AvailableWraps | crates/bind9-sdk-net/src/pool.rs:148-150 | A run of a one-worker pool after which the counter reads 2^64 - 1 |
| Calendar.CalendarEnumerated | crates/bind9-sdk-core/src/record.rs:208-220 | Day 0 is 1 January 1970 and day d+1 is the calendar successor of day d, for every integer d |
| Calendar.DaysRoundTrip | crates/bind9-sdk-core/src/record.rs:208-220 | Every day number has a valid date, which converts back to it |
| Calendar.DateRoundTrip | crates/bind9-sdk-core/src/zone/rdata_dnssec.rs:472-497 | Every valid date has a day number, which converts back to it |
| Calendar.ConversionsAgree | crates/bind9-sdk-core/src/zone/rdata_dnssec.rs:485-497 | The 32-bit conversion never overflows on its domain and agrees with the signed one |
| Timestamp.TimestampRoundTrip | crates/bind9-sdk-core/src/zone/rdata_dnssec.rs:409-469 | Every 32-bit time prints as fourteen digits, so never as a raw number, and parses back |
| Timestamp.FormatOfParsed | crates/bind9-sdk-core/src/zone/rdata_dnssec.rs:409-469 | An accepted fourteen-character time prints back as written exactly when it is all digits and names a real date and time of day |
| Timestamp.ImproperDatesRewritten | crates/bind9-sdk-core/src/zone/rdata_dnssec.rs:409-469 | 30 February and month 13 are accepted, and print back as other dates |
| Timestamp.PlusSignRewritten | crates/bind9-sdk-core/src/zone/rdata_dnssec.rs:409-469 | A field with a plus sign is accepted, and prints back as a zero |
| Timestamp.PanicsIff | crates/bind9-sdk-core/src/zone/rdata_dnssec.rs:409-454 | Exactly which fourteen-character texts make the parser panic: a cut inside a character after nothing but numbers, or day 0 of March, a date before 1970 or a time past 32 bits |
| Timestamp.TimeOfNumbers | crates/bind9-sdk-core/src/zone/rdata_dnssec.rs:452-482 | On any numbers that fit the fields, calendar dates or not, the 32-bit arithmetic gives day number and seconds, and overflows exactly there |
| Timestamp.RawNumberParses | crates/bind9-sdk-core/src/zone/rdata_dnssec.rs:409-425 | A printed number of any other length than fourteen digits parses to itself as a 32-bit time, or is refused |
| Timestamp.TextInOrder | crates/bind9-sdk-core/src/zone/rdata_dnssec.rs:462-469 | The digits are year, month, day, hour, minute and second, in four, two, two, two, two and two |
| Serials.NextIsGreater | crates/bind9-sdk-core/src/record.rs:129-201 | Whatever the clock says, each strategy's next serial is after the current one in sequence space |
| Serials.ClockWhenAhead | crates/bind9-sdk-core/src/record.rs:129-146 | The clock strategy gives the clock exactly when it is ahead in sequence space or the very next number, and otherwise the next number |
| Serials.DateSerials | crates/bind9-sdk-core/src/record.rs:171-201 | The first change of a day starts at YYYYMMDD00 and the next ones count up within the day, for exactly the dates a serial can hold |
| Bitmap.EncodeNumbers | crates/bind9-sdk-core/src/zone/rdata_dnssec.rs:580-616 | The 32-octet window array, flushed at each change of window, writes the blocks of each group of types |
| Bitmap.DecodeNumbers | crates/bind9-sdk-core/src/zone/rdata_dnssec.rs:620-643 | The cursor loops list the set bits of whole blocks and stop at a truncated one |
| Bitmap.EncodeDecode | crates/bind9-sdk-core/src/zone/rdata_dnssec.rs:571-643 | Decoding what was encoded lists exactly the encoded types, ascending |
| Bitmap.EncodeIsCanonical | crates/bind9-sdk-core/src/zone/rdata_dnssec.rs:580-616 | Windows strictly ascend, blocks have 1 to 32 octets and none ends in a zero octet |
| Bitmap.BitWorth | crates/bind9-sdk-core/src/zone/rdata_dnssec.rs:580-643 | Bit 0 of an octet is worth 128 and bit 7 is worth 1 |
| Bitmap.DecodeEncode | crates/bind9-sdk-core/src/zone/rdata_dnssec.rs:571-643 | Re-encoding the types of any canonical bitmap gives it back |
| RecordTypes.MnemonicReads | crates/bind9-sdk-core/src/zone/rdata_dnssec.rs:526-568 | What is printed for any of the 65536 types reads back as that type |
| RecordTypes.ReadsIff | crates/bind9-sdk-core/src/zone/rdata_dnssec.rs:526-568 | Exactly the mnemonic of a type in any letter case is read as that type, and TYPE with its number |
| RecordTypes.EncodeTypeBitmap | crates/bind9-sdk-core/src/zone/rdata_dnssec.rs:571-616 | Refuses any unknown word; otherwise the bitmap of the sorted distinct types |
| RecordTypes.DecodeTypeBitmap | crates/bind9-sdk-core/src/zone/rdata_dnssec.rs:620-643 | The mnemonics of the set bits with single spaces |
| RecordTypes.TypesRoundTrip | crates/bind9-sdk-core/src/zone/rdata_dnssec.rs:571-643 | The bitmap of any word list is canonical and lists exactly the distinct types asked for |
| RecordTypes.TextRoundTrip | crates/bind9-sdk-core/src/zone/rdata_dnssec.rs:571-643 | The text of a canonical bitmap encodes to it again |
| ZoneDiff.SameIffKey | crates/bind9-sdk-core/src/zone/diff.rs:223-227 | The comparison of records is equality of owner, class and data with every name in canonical form |
| ZoneDiff.ComputeDiff | crates/bind9-sdk-core/src/zone/diff.rs:211-260 | Both passes: an entry for every new record that is absent or has another TTL, then one for every old record that is gone |
| ZoneDiff.ApplyDiff | crates/bind9-sdk-core/src/zone/diff.rs:272-306 | Entries in order: append, remove the first match, set the TTL of the first match |
| ZoneDiff.ToUpdates | crates/bind9-sdk-core/src/zone/diff.rs:85-113 | An addition, a deletion, or a deletion and an addition for each entry, in order |
| ZoneApplyLaws.ApplyRebuilds | crates/bind9-sdk-core/src/zone/diff.rs:211-306 | When neither zone repeats a non-SOA identity, applying the difference gives the target's other records with their TTLs, counted, and keeps the SOA records in order |
| ZoneApplyLaws.ApplyGivesIdentities | crates/bind9-sdk-core/src/zone/diff.rs:211-306 | Even with repetitions the result has exactly the target's identities |
| ZoneDiffLaws.ExportMeansDiff | crates/bind9-sdk-core/src/zone/diff.rs:85-113 | Replaying the exported updates takes the old zone's records to the new zone's |
| ZoneWireLaws.SentDiffArrives | crates/bind9-sdk-core/src/zone/diff.rs:85-113 | The message that carries a difference, read from its bytes and performed by a server of the old zone, leaves exactly the new zone's records with their TTLs, if the new zone names no record twice and all records have its class and no meta type |
| ZoneDiffLaws.EmptyIffEqual | crates/bind9-sdk-core/src/zone/diff.rs:211-260 | A difference is empty exactly when both zones have the same TTL for the same identities |
| CharString.SerializeTxt | crates/bind9-sdk-core/src/zone/rdata_text.rs:671-694 | Quoted, escaped strings with single spaces between them |
| CharString.DecodeCharacterString | crates/bind9-sdk-core/src/zone/rdata_text.rs:368-408 | The loop decodes both kinds of escape and reports incomplete and too large ones |
| CharString.DecodeEscaped | crates/bind9-sdk-core/src/zone/rdata_text.rs:368-408 | Decoding undoes the printed escapes for every byte string |
| CharString.ScanEscaped | crates/bind9-sdk-core/src/zone/parser/tokenizer.rs:119-160 | The lexer reads a printed string exactly to its closing quote, leaving only bytes above 127 escaped |
| CharString.NeverCatchesUp | crates/bind9-sdk-core/src/zone/parser/tokenizer.rs:119-160 | Once lexer and decoder disagree about a backslash they stay out of step to the end of the string |
| CharString.TwoStagesAgree | crates/bind9-sdk-core/src/zone/parser/tokenizer.rs:119-160 | Lexing and then decoding a printed string gives it back exactly when it holds no backslash |
| Hex.EncodeDecode | crates/bind9-sdk-core/src/zone/rdata_text.rs:643-669 | Decoding undoes encoding |
| Hex.DecodeIff | crates/bind9-sdk-core/src/zone/rdata_text.rs:643-669 | Exactly the encoding of some bytes, with digits in either case, is accepted |
| GenericRdata.UnknownReadsBack | crates/bind9-sdk-core/src/zone/rdata_text.rs:564-702 | Data of any type printed in the generic form of RFC 3597 reads back as it was |
| Tokenizer.Tokenizer.NextToken | crates/bind9-sdk-core/src/zone/parser/tokenizer.rs:51-192 | Position, line and parenthesis state move to after the next token, through blanks, comments and line ends inside parentheses |
| Tokenizer.Tokenizer.ReadQuoted | crates/bind9-sdk-core/src/zone/parser/tokenizer.rs:119-160 | The quoted-string loop, with bytes pushed as characters and so re-encoded above 127 |
| Serializer.Serialize | crates/bind9-sdk-core/src/zone/serializer.rs:12-51 | Directives, then one line a record, without the owner when it equals the one before |
| Serializer.TxtText | crates/bind9-sdk-core/src/zone/rdata_text.rs:671-694 | The parts of a TXT record make the text its own printer makes |
| Serializer.TypesText | crates/bind9-sdk-core/src/zone/rdata_dnssec.rs:620-643 | The parts of a type bitmap make the text its own decoder makes |
| Serializer.PiecesInOrder | crates/bind9-sdk-core/src/zone/rdata_text.rs:564-702 | The printed data are the named fields of the record in the order of its presentation format |
| Serializer.RecordInOrder | crates/bind9-sdk-core/src/zone/serializer.rs:28-46 | A line lexes to owner or empty word, TTL, class, type, data and a line end, in that order |
| Serializer.TypeNamed | crates/bind9-sdk-core/src/zone/serializer.rs:28-46 | Every structured record prints its own name as its type, and data kept raw the number of its type |
| LexingLaws.WordLexesIff | crates/bind9-sdk-core/src/zone/parser/tokenizer.rs:162-190 | Text lexes as one word exactly when no special character stands outside an escape, no escape is cut off, and it does not start with a dollar sign |
| LexingLaws.PlainNameIff | crates/bind9-sdk-core/src/domain.rs:309-321 | A name prints as one word exactly when no label has `;`, `(`, `)` or `"` outside an escape and it does not start with a dollar sign |
| LexingLaws.RecordLexes | crates/bind9-sdk-core/src/zone/serializer.rs:28-46 | A printed record lexes to its owner or an empty word, its fields, its data and one line end |
| LexingLaws.LexingUndoesPrinting | crates/bind9-sdk-core/src/zone/serializer.rs:12-51 | Lexing a printed zone gives exactly the expected tokens: one line end per line, and an empty owner exactly where it was left out |
| LexingLaws.CommentIgnored | crates/bind9-sdk-core/src/zone/parser/tokenizer.rs:51-118 | A comment up to the end of its line leaves no token, inside parentheses or not |
| LexingLaws.LineEndInParens | crates/bind9-sdk-core/src/zone/parser/tokenizer.rs:51-118 | Inside parentheses a line end leaves no token |
| LexingLaws.ParenthesesSwitch | crates/bind9-sdk-core/src/zone/parser/tokenizer.rs:51-118 | A parenthesis is a token that starts or ends that state, whatever the state before |
| LexingLaws.BlankIgnored | crates/bind9-sdk-core/src/zone/parser/tokenizer.rs:51-118 | A blank leaves no token inside parentheses or past the start of a line |
| LexingLaws.BlankMeansOwner | crates/bind9-sdk-core/src/zone/parser/tokenizer.rs:51-118 | Outside parentheses a blank at the start of a line that is not empty gives the empty word |
| NamedConfParser.Parser.SkipStatement | crates/bind9-sdk-core/src/named_conf.rs:591-611 | Moves to after the first semicolon outside braces, passing closing braces that close nothing |
| NamedConfParser.Parser.ParseAcl | crates/bind9-sdk-core/src/named_conf.rs:539-563 | Terminates on every token list with the elements in order, negations and key names included, or an error; which lists, AclIff says |
| NamedConfParser.Parser.ParseZone | crates/bind9-sdk-core/src/named_conf.rs:352-399 | The same for zone blocks, whose type is required |
| NamedConfParser.Parser.ParseKey | crates/bind9-sdk-core/src/named_conf.rs:401-443 | The same for key blocks, whose algorithm and secret are required |
| NamedConfParser.Parser.ParseOptions | crates/bind9-sdk-core/src/named_conf.rs:452-474 | The same for options, which are written to the output as they are read |
| NamedConfParser.Parser.ParseControls | crates/bind9-sdk-core/src/named_conf.rs:476-505 | The same for control listeners |
| NamedConfParser.Parser.ParseStatistics | crates/bind9-sdk-core/src/named_conf.rs:507-537 | The same for statistics listeners |
| NamedConfParser.Parser.Parse | crates/bind9-sdk-core/src/named_conf.rs:320-350 | Every token list is parsed to a configuration or refused, each loop ending by the number of tokens left |
| NamedConfLaws.StatementStable | crates/bind9-sdk-core/src/named_conf.rs:320-350 | A top-level statement is parsed from its own tokens alone: whatever follows is left untouched |
| NamedConfLaws.SkipBalanced | crates/bind9-sdk-core/src/named_conf.rs:591-611 | Brace-balanced tokens and a semicolon are skipped exactly, whatever follows |
| NamedConfLaws.TopLevelTransparent | crates/bind9-sdk-core/src/named_conf.rs:320-350 | An unknown balanced statement between top-level statements changes nothing about the result |
| NamedConfLaws.ZoneTransparent | crates/bind9-sdk-core/src/named_conf.rs:352-399 | Nor does one between the directives of a zone block |
| NamedConfLaws.KeyTransparent | crates/bind9-sdk-core/src/named_conf.rs:401-443 | Nor does one between the directives of a key block |
| NamedConfLaws.OptionsTransparent | crates/bind9-sdk-core/src/named_conf.rs:452-474 | Nor does one between the directives of an options block |
| NamedConfPrinting.AclReadsBack | crates/bind9-sdk-core/src/named_conf.rs:539-563 | Every access list that has a spelling, written in any, parses back to itself with its negations, whatever follows |
| NamedConfGrammar.AclIff | crates/bind9-sdk-core/src/named_conf.rs:539-563 | A token list is accepted as an access list exactly when it spells one, with the elements it spells: an element is negated exactly after an exclamation mark, a prefix is no longer than its address, every element ends with a semicolon |
| NamedConfGrammar.ElementIff | crates/bind9-sdk-core/src/named_conf.rs:678-705 | The text of an element is read as the element it names: a reserved word in any letter case, an address and a prefix length around the first slash, an address, or else a name |
| NamedConfPrinting.ZoneReadsBack | crates/bind9-sdk-core/src/named_conf.rs:352-399 | Written directives of a zone, in any order and spelling, give its type, file and transfer list, the last of each; without a type the block is refused |
| NamedConfPrinting.KeyReadsBack | crates/bind9-sdk-core/src/named_conf.rs:401-443 | The same for the algorithm and secret of a key, both required |
| NamedConfPrinting.OptionsReadBack | crates/bind9-sdk-core/src/named_conf.rs:452-474 | The same for the directory, recursion list and statistics channels of an options block |
| NamedConfPrinting.ControlsReadBack | crates/bind9-sdk-core/src/named_conf.rs:476-505 | Written control listeners parse back with their addresses, ports, lists and keys; the port is 953 if none is given |
| NamedConfPrinting.StatisticsReadBack | crates/bind9-sdk-core/src/named_conf.rs:507-537 | The same for statistics listeners, whose port is 80 if none is given |
| NamedConfGrammar.ZoneTypeIff | crates/bind9-sdk-core/src/named_conf.rs:363-379 | Exactly the words of a zone type, old and new, are accepted for it |
| NamedConfGrammar.AlgorithmIff | crates/bind9-sdk-core/src/named_conf.rs:411-427 | Exactly the name of an algorithm, in any letter case and with any number of final dots, is accepted for it |
| NamedConfRoundTrip.StatementsReadBack | crates/bind9-sdk-core/src/named_conf.rs:320-350 | Every list of statements, in any order and spelling, parses to the configuration it makes |
| NamedConfRoundTrip.ConfReadsBack | crates/bind9-sdk-core/src/named_conf.rs:320-350 | Every configuration whose lists, addresses and ports have a spelling, written in any, parses back to itself |

## Left out

- Records.EncodeRdata: one table of fields per variant with a common loop stands for the separate writes of each variant, so their order is the order of the table.
- Records.RdataReadsBack: the bytes of an unknown record that reuses the number of a structured type need not follow its layout, so for those it promises only that the fields read, if any, have exactly those bytes.
- IscAuth.BuildCtrlTable: the sum of time and expiry wraps at 64 bits, as in a build without overflow checks.
- IscAuth.RequestRoundTrip: tables nested so deeply that the whole message passes the decoder's limit are covered by Isc.EncodeDecode, which says they are refused.
- Timestamp.FormatOfParsed: an arithmetic overflow and a slice inside a multi-byte character are one outcome, a panic; a build without overflow checks would wrap instead.
- Calendar.DaysRoundTrip: the cast of the year to 32 bits, which matters only hundreds of millions of years away.
- RecordTypes.TextRoundTrip: words are separated by spaces; line ends and tabs inside a record are the lexer's business.
- LexingLaws.LexingUndoesPrinting: IPv6 addresses and base32hex come from libraries, so their printers are parameters assumed to give text without special characters; empty fields print as nothing and so leave no token.
- ZoneWireLaws.SentDiffArrives: replaying adds or removes one record at a time by identity, without the exceptions of section 3.4.2 of RFC 2136 for CNAME, SOA and apex NS records, classes 254 and 255 are no zone's, and records kept raw under the number of a structured type, which a server compares by other fields than the difference does, are excluded.
- Pool.NeverStuck: a caller dropped between taking an index and sending its job, and the shutdown of the pool, are not steps of the model; the error branches that need a closed channel cannot be reached without them.
- Reconnect.Worker.ExecuteWithReconnect: a message is written or read whole or not at all; a request cut off by a timeout is not modelled.
- Reconnect.LateReplyAfterWrap: the HMAC and type checks on a reply enter as one boolean, and nothing is claimed about how long a server may hold a reply back.
- NamedConfParser.Parser.Parse: parsing starts from tokens; the character-level lexer of `named.conf`, line numbers and message texts are not modelled, and IP addresses and base64 secrets are parsed by parameters.
- Unknown options inside an `inet` clause of `named.conf` are not transparent, since skipping them takes the semicolon that ends the clause.
- The assembly of parsed zone records from tokens: zone/parser/record.rs is not part of this model.
- Sockets, TLS, HTTP, timers, task cancellation and the fallback from UDP to TCP.
- The digests inside HMAC, random numbers, zeroizing of key material.
- The zone transfer client, keyrings, configuration loading, command-line tool and JavaScript bindings.
- Statistics and metrics rendering, the rate limiter, the freeze guard, rollover classification and rndc command strings, which would only add one-branch members.
