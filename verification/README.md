# A verified model of the mDNS library

The library is a multicast DNS responder and browser: a codec for DNS messages with name compression
(section 4.1 of RFC 1035), the probe, tiebreak and rename protocol by which a service claims its name
(sections 8 and 9 of RFC 6762), and the tables that live beside them: the record cache, the multicast
rate limiter and the browser's table of instances. This project models these parts as Dafny programs
and proves what they promise, for every input and over every run.

`dafny verify dfyconfig.toml` checks the whole project.

| file | what it models |
|---|---|
| `Octets.dfy` | bytes, 16- and 32-bit integers in network order, results and errors |
| `Names.dfy` | reading and writing names; the invariant of the compression table |
| `TypeBitMaps.dfy` | the NSEC type bitmaps |
| `Records.dfy`, `Messages.dfy` | records, questions and whole messages; the round trips |
| `Codec.dfy` | the buffer that `Pack` grows and patches, and the loops of the reader, proved equal to the two above |
| `JumpLimit.dfy` | how far the reader's limit of 128 pointers reaches |
| `JumpDepth.dfy` | how many pointers each name of a message takes, and so exactly which messages are read |
| `WireForm.dfy` | what was unpacked packs to the same bytes again |
| `Tiebreak.dfy` | equality of records and the order of canonical RDATA |
| `Renaming.dfy` | the sequence of names after conflicts |
| `Services.dfy` | the records of a service and its probe |
| `Probing.dfy` | what a server makes of one probe record; its own probe looped back |
| `Lifecycle.dfy` | the life of one service, one step for each critical section |
| `Servers.dfy` | the server's table of services as the source keeps it |
| `TwoServers.dfy` | two servers that want one name, on a network that loses, repeats and reorders |
| `Caching.dfy` | the cache and the history it stands for |
| `RateLimiter.dfy` | the rate limiter and the records of a response |
| `Multipacket.dfy` | queries whose known answers need several packets |
| `Browsing.dfy` | the table of instances and the events offered to listeners |
| `WireFormat.dfy` | the octets themselves: where each number, name, string and address stands in a packet |
| `Folding.dfy` | what comparing names without regard to case means for records, keys and verdicts |
| `Expiry.dfy` | how long a record stays in the cache, in seconds of its TTL |
| `Responses.dfy` | which records a response holds, when one is sent, and what is read of it |
| `Discovery.dfy` | from the records of a service to the instance that a browser offers |
| `Suppression.dfy` | from a browser's known answers to a responder's silence |

The writer is specified by append-only functions `Emit...(base, table, x)`, which give the bytes
appended at offset `base` and the table afterwards; the class `Packer` does the same work in place,
with RDLENGTH patched into bytes already written, and is proved equal to them. The reader is specified
by recursive functions on the received bytes, and its loops are proved equal to those.

## Where the code falls short of its intent

Each point is proved by the members named: as an equivalence, or, where the line says so, by an
example. Where an equivalence is about runs or rare events, a further member shows that they occur.

- A name of more than 128 labels packs and may be refused by the reader (`JumpLimit.LabelLimitIsExact`).
  It is refused exactly if, in the order of writing, it takes more than 128 pointers
  (`JumpDepth.MessageReadIff`).
- A name with an empty label is written, but not read back as it was. Of all messages that pack,
  exactly those come back whose names have no empty label and take at most 128 pointers each
  (`JumpDepth.CarriedIff`; of those without longer names, `Messages.MessageRoundTripIff`).
- NSEC types from 0xFF00 on are dropped (`TypeBitMaps.BitMapsLoseWindow255`). The comment asks for a
  sorted list; the code takes any order and repetitions.
- A service without text loses the tiebreak against its own probe looped back (`Probing.OwnLoopback`;
  it happens: `Probing.OwnLoopbackHappens`).
- SRV, TXT and addresses are tied separately, so both sides may lose (`TwoServers.BothLoseIff`; it
  happens: `TwoServers.TextlessBothLose`, `TwoServers.CrossedBothLose`).
- A tiebreak lost between the read of the state and the announcement closes the channel twice
  (`Lifecycle.DoubleCloseIff`; it happens: `TwoServers.DoubleCloseHappens`).
- A rename into a taken key drops the service that held it (`Servers.Server.HandleConflictRename` says
  when; it happens: `Servers.RenameDrops`).
- Unique records of one name and type in one response displace one another, and one goodbye removes
  every record of its key (`Caching.ResponseKeepsIff`). The comment on `Upsert` speaks of records
  from a different source; the code looks at no source.
- The limiter takes records that are not equal for the same one: `RateLimiter.SameKeyIff` says which,
  of any two records; `RateLimiter.TextsConflated` and `RateLimiter.NamesConflated` are examples. It
  would also tell equal address records without an address apart (`RateLimiter.EqualKeysIff`), but
  that is hypothetical: no record that is received or generated is of this kind
  (`RateLimiter.SourcedKeys`).
- Of a service's addresses of one family only the last is ever known to those who hear of it: the
  cache-flush bit that each of them carries drops the one before (`Discovery.AddressCached`,
  `Discovery.FirstAddressLost`).
- Known answers beyond the first packet of a query silence nobody, since a responder takes each packet
  by itself and only the first has a question; and because known answers always say 75 seconds, a
  service with a TTL above 151 is never silenced (`Suppression.SuppressedIff`).
- A browser for a type that ends with the text of the domain looks for another name than the one under
  which the type is registered (`Discovery.BrowseFindsIff`).
- Expiry removes no instance from a browser: the purge of the cache tells it nothing
  (`Browsing.KnownIff`).

## Model

| member | source | states |
|---|---|---|
| Names.ReadName | dns_name.go:26-95 | on any bytes the loop ends, reads only within the message and gives exactly the name, next offset or error of the recursive walk |
| Names.ReadNameSpec | dns_name.go:26-95 | a name that is read ends after where it began and within the message |
| Names.ProperMeans | dns_name.go:108-151 | the names that the wire carries are those without an empty label: no dot at either end and no two in a row |
| Names.ChainIsWalk | dns_name.go:49-66 | a chain of strictly backward pointers that ends is read as it stands if it has at most 128 pointers from here on, and refused as a loop otherwise |
| Names.ChainExtends | dns_name.go:111-120 | no byte appended later changes what a pointer already in the message leads to |
| Names.TableExtends | dns_name.go:111-152 | the compression table stays sound under every append: each entry is for a name without empty labels, at most 0x3FFF, at a label byte, spelling out its suffix in fewer jumps than it has labels |
| Names.EmitLabelsSpells | dns_name.go:111-152 | wherever a proper name is written, it is spelled out in at most one jump a label, and the table stays sound |
| Names.NameRoundTrip | dns_name.go:100-155 | what writeName puts anywhere in a message with a sound table, readName reads back there, up to the final dot; only a name of more than 128 labels can be refused |
| Names.ImproperNameLost | dns_name.go:26-155 | written anywhere, after any names without empty labels, a name with an empty label is never read back as it was |
| Names.NameRoundTripIff | dns_name.go:26-155 | anywhere in a message with a sound table, a name of at most 128 labels is read back as it was if and only if none of its labels is empty |
| Names.EmitNameFails | dns_name.go:100-136 | with a sound table, writing fails exactly when some label is longer than 63 octets; a pointer is never out of range |
| Names.EmitNameLength | dns_name.go:100-155 | a name takes 1 to one more than its dotted length in octets, and at most 2 once it is in the table |
| Names.FreshNameRoundTripIff | dns_name.go:26-155 | the same with no limit on labels where there is no table to point into: a name on its own is always read, and comes back as it was exactly when none of its labels is empty |
| TypeBitMaps.BitmapBits | dns_rr.go:272-284 | a window's bitmap has exactly the bits of the listed types, at most 32 bytes and no trailing zero byte |
| TypeBitMaps.BitMapsRoundTrip | dns_rr.go:266-326 | decoding the encoding gives exactly the listed types below 0xFF00, strictly increasing, whatever the order and repetitions |
| TypeBitMaps.BitMapsLoseWindow255 | dns_rr.go:287-295 | no listed type is lost if and only if all are below 0xFF00 |
| TypeBitMaps.EncodeTypeBitMaps | dns_rr.go:266-297 | the map of windows and the loop over windows 0 to 254 write the encoding after what is in the buffer |
| TypeBitMaps.DecodeBits | dns_rr.go:313-322 | the loops over bytes and bits, with their skip of zero bytes, append exactly the types of the block |
| TypeBitMaps.DecodeTypeBitMaps | dns_rr.go:300-326 | on any bytes the loop gives the types or the error that the bytes call for |
| Records.StringsRoundTrip | dns_rr.go:156-168 | TXT strings that can be written are read back as the same list |
| Records.RdataRoundTrip | dns_rr.go:128-181 | RDATA of every type comes back as its normal form wherever it is written, and the table stays sound |
| Records.RecordRoundTrip | dns_rr.go:114-187 | a whole record, with its patched length, comes back as its normal form, and the reader goes on just after it |
| Records.ImproperRecordLost | dns_rr.go:114-262 | a record with an empty label in its owner or RDATA name never comes back as its normal form |
| Records.QuestionRoundTrip | dns_rr.go:74-81 | a question comes back with its final dot, its type and its class |
| Messages.Unpack | dns_message.go:118-172 | every section of an accepted message has exactly its header's count |
| Messages.PackSize | dns_message.go:79-114 | a message that packs has at most 9000 octets, at least 5 for each question and 11 for each record, so no count wraps |
| Messages.MessageRoundTrip | dns_message.go:75-214 | whenever a message with proper names packs, unpacking gives that message normalised, or refuses a name of more than 128 labels; every entry of the final compression table leads to its suffix |
| Messages.MessageRoundTripIff | dns_message.go:75-214 | of the messages that pack with names of at most 128 labels, exactly those without an empty label come back as their normal form |
| Messages.PackBounds | dns_rr.go:183-185 | in a message that packs, whatever its names, no RDLENGTH wraps and no table entry is beyond a pointer's reach |
| Messages.PackSucceeds | dns_message.go:75-115 | a message packs if its labels, addresses and strings have a wire form and it fits in 9000 octets uncompressed |
| Codec.Packer.WriteName | dns_name.go:100-155 | appends what the specification says, fails as it does, and keeps the table sound |
| Codec.Packer.WriteLabels | dns_name.go:111-152 | noting each suffix before writing the rest comes to the same as the specification |
| Codec.Packer.PackRecord | dns_rr.go:114-187 | the placeholder patched in place ends as the length of the RDATA; the table stays sound through the patch |
| Codec.Packer.PackQuestion | dns_rr.go:74-81 | appends the question and keeps the table sound |
| Codec.PackMessage | dns_message.go:75-115 | the sections written through one buffer and one table give Pack, errors included |
| Codec.UnpackRecords | dns_message.go:176-214 | the loop gives the records and next offset, or the first error, that the bytes call for |
| Codec.UnpackRdata | dns_rr.go:191-262 | each type's fields, or its error, from any bytes |
| Codec.UnpackMessage | dns_message.go:118-172 | total on any bytes: ends, reads nothing out of range, and gives Unpack |
| JumpLimit.LadderPacks | dns_name.go:111-120 | names that grow by a label each are written as one label and a pointer, and need one jump fewer than they have labels |
| JumpLimit.LadderRefused | dns_name.go:61-64 | for every n from 129 to 1000 there is a message with names of at most n labels that packs and is refused |
| JumpLimit.LabelLimitIsExact | dns_name.go:61-64 | all messages whose names have at most n labels can be read back if and only if n is at most 128 |
| JumpDepth.NameReadIff | dns_name.go:49-66 | a name without empty labels, written anywhere, is read exactly if it takes at most 128 pointers, counted from the names written before it |
| JumpDepth.MessageReadIff | dns_message.go:75-214 | every message that packs and has no empty label comes back as its normal form if no name takes more than 128 pointers, and is refused as a loop otherwise |
| JumpDepth.CarriedIff | dns_message.go:75-214 | of all messages that pack, exactly those come back as their normal form whose names have no empty label and take at most 128 pointers each |
| WireForm.PackOfNormal | dns_message.go:75-115 | a message and its normal form pack to the same bytes |
| WireForm.RepackIsIdentity | dns_message.go:75-214 | packing what was unpacked from a packed message gives the same bytes again |
| WireFormat.HeaderLayout | dns_message.go:75-85 | in a message that packs, the six numbers of the header stand in their order, the most significant octet first |
| WireFormat.SectionsInOrder | dns_message.go:87-107 | the sections follow in the order of their counts, each compressed against those before it |
| WireFormat.RecordLayout | dns_rr.go:114-187 | behind its owner a record has type, class with the cache-flush bit on top, TTL and the length of what follows |
| WireFormat.ServiceLayout | dns_rr.go:148-154 | SRV RDATA is priority, weight, port and target |
| WireFormat.PointersAre | dns_name.go:49-66 | a pointer is the number 0xC000 plus the offset, written and read |
| WireFormat.FitsMeans | dns_name.go:122-136 | labels fit exactly if no 64 octets in a row are without a dot |
| WireFormat.PackLimit | dns_message.go:109-115 | what has a wire form packs exactly if it takes at most 9000 octets |
| WireFormat.AddressWritten4 | dns_rr.go:128-136 | an A record gets the four octets a exactly if its address is a, in four octets or mapped into sixteen |
| WireFormat.AddressRefused | dns_rr.go:128-145 | an address record is refused exactly if its address has no form of its family |
| WireFormat.AddressRecordMeans | service.go:131-155 | an address of a service makes an A record exactly if it is an IPv4 address in either form, and the record holds that address |
| WireFormat.BitMapsExample | dns_rr.go:266-297 | types 1 and 28 are written as window 0, length 4 and the octets 40 00 00 08 |
| WireFormat.TestBitMeans | dns_rr.go:313-322 | bit k of an octet is the one that counts 128 over 2 to the k |
| WireFormat.CanonicalIsWire | server.go:1100-1134 | canonical bytes are the uncompressed RDATA with its name in lower case; absent text is nothing |
| WireFormat.LessMeans | server.go:1092-1096 | they are compared at the first octet where they differ, and a proper prefix is less |
| Folding.LowerNameMeans | dns_name.go:168-171 | lower-cased names agree exactly if their octets do, but for the case of ASCII letters |
| Folding.LowerNameIs | dns_name.go:168-171 | a lower-cased name has no capital and differs in the case of letters alone |
| Folding.NormalizeIsLeast | dns_name.go:157-166 | normalising gives the shortest name that begins with the given one and ends with a dot |
| Folding.RecordsEqualMeans | cache.go:250-275 | equality of records, by type numbers and letters |
| Folding.RecordKeyMeans | cache.go:17-19 | two records share a key of the cache exactly if they have one type and one name, up to case and a final dot |
| Folding.KeyOfMeans | service.go:30 | two services share a key exactly if their instance names are one name |
| Folding.RivalMeans | server.go:609-616 | a record is held against a probe's exactly if it is unique and of its type and name |
| Folding.LosesIgnoresCase | server.go:609-624 | a probe record beats a service whatever the case of its name |
| Folding.SrvVerdictAnyCase | server.go:596-651 | of two services whose names differ in case at most, one loses to the other's SRV record exactly if its own is less |
| Tiebreak.EqualIffSameEssence | cache.go:250-275 | recordsEqual compares one value computed from each record, so it is an equivalence |
| Tiebreak.ComputeCanonicalRdata | server.go:1100-1134 | the buffer built with a fresh table holds the canonical bytes |
| Tiebreak.CanonicalNameUncompressed | server.go:1122-1124 | canonical names hold no compression pointer: one octet more than the dotted form |
| Tiebreak.CanonicalIffEqual | server.go:1100-1134 | on well-formed records of one name and type, the canonical bytes agree exactly when recordsEqual does |
| Tiebreak.VerdictsAreOpposite | server.go:1092-1096 | of two such records exactly one holds: the first loses, the second loses, or they are equal |
| Tiebreak.LosingIsTransitive | server.go:1092-1096 | losing is transitive, so with the row above a strict total order |
| Tiebreak.SrvTie | server.go:1118-1122 | the byte order of SRV records is the numeric order of priority, weight and port, in that order, and then that of the target's bytes |
| Renaming.IncrementIsLater | service.go:262-274 | every renaming, an overflow of the number included, is strictly later in one order on stems and numbers |
| Renaming.RenamingNeverRepeats | service.go:262-274 | no two members of the sequence of names agree, not even up to case |
| Renaming.RenamingEscapes | service.go:262-274 | out of any finite set of taken names, at most one further renaming for each leads |
| Renaming.RenamedClosedForm | service.go:262-274 | below overflow the n-th renaming keeps the stem and adds n to the number |
| Renaming.IncrementMeans | service.go:262-274 | "S (n)" becomes "S (n+1)" for n from 2 on, and any name not closed by a parenthesis, or with a lower number, gets " (2)" behind it |
| Services.GenerateServiceRecords | service.go:82-158 | the list is the PTR, SRV and TXT record and one address record for each address, in order |
| Services.BuildProbeMessage | service.go:277-304 | with its set of seen names the loop asks once for each name, at its first record, and claims every record |
| Services.ProbeAsksAll | service.go:277-304 | every record of a probe is asked about, up to case |
| Services.ProbeAsksOnce | service.go:281-293 | each question is for any type in class IN and of the name of some record, and no two names agree up to case |
| Services.ProbeIsQuery | service.go:295-303 | a probe has no flags and no answers, and its authorities are the records, counted |
| Services.ProbeProper | service.go:277-304 | the probe of an instance without empty labels is a message that the codec carries |
| Probing.JudgeRecord | server.go:607-636 | the loop with its early exit finds the verdict for one probe record |
| Probing.JudgeMeaning | server.go:605-636 | a probe record is our own exactly if some unique record of its name and type equals it, and in conflict, with such a record, exactly if there are some and none equals it |
| Probing.PacketLoses | server.go:345-347 | a service is lost after a whole probe exactly if it was probing and some record of the probe beat it |
| Probing.OwnRecordVerdict | server.go:605-647 | of its own records as they come back, a service loses to none but the TXT record of a service without text |
| Probing.OwnLoopback | service.go:181-194 | its own probe, packed, looped back and parsed, changes the state of a service exactly if it is probing and has no text |
| Probing.SmallProbeReads | service.go:181-194 | the probe of any instance with names of up to 255 octets, no address and up to 4000 octets of text packs and parses |
| Probing.OwnLoopbackHappens | service.go:181-194 | a service without text whose probe packs, parses and beats it |
| Lifecycle.StepKeepsInv | service.go:166-257 | every step of every interleaving keeps: channel closed once in the two final states of a round and open in the others; lost exactly if a judged record won; one exception, which is the double close |
| Lifecycle.DoubleCloseIff | service.go:212-226 | in a run the channel is closed twice if and only if a tiebreak is lost between the read of the state and an announcement after it |
| Lifecycle.DoubleClose | service.go:212-226 | any record that beats the service gives a life of seven steps that ends in the second close |
| Lifecycle.LifeWithoutRace | service.go:166-229 | in all other runs the channel is closed, once, exactly when announced or lost; an announced service sent three probes and lost to no record it judged in its round |
| Lifecycle.AnnouncedForGood | service.go:222-228 | announced is never left, nor are the records changed |
| Servers.RegisteredService.HandleRecord | server.go:600-650 | a probe record takes the state machine's step for this service; an announced service defends with the conflicting record |
| Servers.RegisteredService.BeginProbing | service.go:167-169 | on a service that is idle with an open channel, the first critical section takes the state machine's step |
| Servers.RegisteredService.Announce | service.go:222-226 | announces, and panics exactly when the state machine counts a second close |
| Servers.RegisteredService.StartOver | service.go:235-247 | a fresh state, channel and records under the next name |
| Servers.Server.RegisterService | service.go:14-53 | refuses a missing name and a taken key, adds one fresh idle service under its own key otherwise, with the server's domain, host and addresses exactly where its own were empty, and keeps every key right |
| Servers.Server.UnregisterService | service.go:56-75 | removes that service and no other; says goodbye exactly if it was announced |
| Servers.Server.HandleProbe | server.go:596-651 | every service takes its own step, whatever the order of the map; exactly the announced services in conflict defend, each with its conflicting record; no probing service has a closed channel |
| Servers.Server.HandleConflictRename | service.go:233-257 | the service moves to the key of its next name, every key of the map stays right, and no other service is dropped if and only if the new key is free or its own and the old one not another's |
| Servers.RenameDrops | service.go:249-253 | for every service, one that holds its next name is dropped by its rename |
| Servers.RenameEscapes | service.go:233-257 | at most as many renamings as there are services, and one, lead to a free key |
| TwoServers.RenamedProper | service.go:262-274 | renaming never makes a name that the codec cannot carry |
| TwoServers.SrvVerdict | server.go:638-647 | through the codec, a server loses to the SRV record of another of its name exactly if its own is less |
| TwoServers.ExactlyOneLosesOnSrv | server.go:1092-1134 | of two contestants exactly one loses to the other's SRV record |
| TwoServers.AddressVerdict | server.go:605-647 | through the codec, a server loses to an address of another exactly if they share a host name, it does not hold that address, and its last address of that family is less |
| TwoServers.ProbeVerdict | server.go:596-651 | against the full probe of any service of its name, on any host and with any text, a server loses exactly if its SRV record, its text or its addresses are beaten |
| TwoServers.TextsBothBeaten | server.go:1125-1129 | the texts of two services beat one another exactly if neither has any |
| TwoServers.BothLoseIff | server.go:596-651 | two services of one name both lose to each other's full probe if and only if two of the three ties go to different sides, or neither has text, or addresses beat both |
| TwoServers.BothLoseAcrossHosts | server.go:596-651 | on different hosts and with texts: exactly when the texts differ and the SRV and TXT ties go to different sides |
| TwoServers.WinnerNeverLoses | server.go:596-651 | over every run of two servers, with loss, repetition, reordering and any number of renamings, the side that SRV favours never gives its name up, where SRV is the only conflict |
| TwoServers.TieIsBroken | server.go:596-651 | in every interleaving in which each hears the other's SRV record while probing, at least one has lost, and one only, by those two steps |
| TwoServers.ExactlyOneLoses | server.go:596-651 | where SRV is the only conflict, the side with the lesser record loses when it hears the other while probing, and the other side never does |
| TwoServers.NeverBothUnderOneName | service.go:166-257 | where SRV is the only conflict, once the loser has heard the winner's SRV record while probing under their name, the two are never both announced under one name, at no later time of any run, unless the double close has ended the loser |
| TwoServers.HigherPortWins | server.go:596-651 | two servers that differ in port alone conflict in SRV alone, and the higher port wins |
| TwoServers.TieArises | service.go:166-202 | for any two readable probes there is a run in which each side hears the other's SRV record while probing |
| TwoServers.ContestHappens | service.go:166-202 | two concrete services and a run that meet all that WinnerNeverLoses, ExactlyOneLoses and NeverBothUnderOneName ask for |
| TwoServers.DoubleCloseHappens | service.go:212-226 | every service has a life that ends in a double close, by the SRV record of one like it with a higher port |
| TwoServers.BothLoseInRun | server.go:596-651 | where both lose to each other's probe, there is a run in which both do |
| TwoServers.TextlessBothLose | server.go:596-651 | a run of two services of one name without text in which both lose |
| TwoServers.CrossedBothLose | server.go:596-651 | a run of two services with texts, one with the greater port and one with the greater text, in which both lose |
| Caching.CacheHistory | cache.go:46-164 | after any operations at times in order, a lookup finds a record exactly if its latest upsert has not expired and nothing has removed or flushed it since, and with the TTL of that upsert |
| Caching.LookupDistinct | cache.go:87-98 | a lookup gives no two equal records, and only records of the key asked for |
| Caching.ExpireUnobservable | cache.go:141-164 | purges anywhere in a history change no record, TTL or expiry time that a later lookup sees |
| Caching.LookupWithoutExpire | cache.go:87-164 | a lookup finds the same records with the same TTLs, up to recordsEqual and order, as if there had been no purge |
| Caching.RunHolds | cache.go:46-164 | what the cache holds of a record is its standing in the history, whatever lists and purges lie between |
| Caching.ResponseKeepsIff | server.go:517-530 | a record is in the cache after a response exactly if the response carries it alive and displaces it no more, or it was there and is not displaced |
| Expiry.UpsertHolds | cache.go:46-98 | a record upserted at a time, and whose key nothing touches later, is found exactly while less than its TTL in seconds has passed, and with that TTL |
| Expiry.FlushedFound | cache.go:46-98 | a unique record is, for that time, all that is found under its key |
| Expiry.UntouchedLookup | cache.go:46-164 | what happens to other keys, and purges, change no lookup |
| Expiry.EntriesAged | cache.go:46-84 | after any operations each entry expires as many seconds after it came as its TTL says |
| Caching.Cache.Upsert | cache.go:46-84 | the flush, the search for an equal entry and the append give the specified table |
| Caching.Cache.Lookup | cache.go:87-98 | the loop gives the records of the key that are alive, in their order |
| Caching.Cache.Remove | cache.go:122-126 | exactly the entries of the key go |
| Caching.Cache.RemoveName | cache.go:129-138 | exactly the entries of the name go, whatever the order of the map |
| Caching.Compact | cache.go:148-155 | filtering in place leaves the live entries in order at the front; kept and dropped add up |
| Caching.Cache.Expire | cache.go:142-164 | the purge gives the specified table, and its count plus what is left is what there was |
| RateLimiter.SameKeyIff | server.go:1144-1169 | any two records share a key if and only if they have one name and type and agree in the fields that the limiter looks at, or the RDATA of one spells out the rest of the other's longer name, its type and RDATA |
| RateLimiter.PlainNamesKey | server.go:1144-1169 | between names without a colon a shared key means one name, one type and agreement in those fields |
| RateLimiter.EqualKeysIff | server.go:1145-1169 | equal records share a key, except address records without an address and with different raw data |
| RateLimiter.ReceivedSourced | dns_rr.go:197-259 | no record of a parsed message has raw data in place of an address |
| RateLimiter.GeneratedSourced | service.go:82-158 | nor has a record of a service |
| RateLimiter.SourcedKeys | server.go:1144-1169 | so of received and generated records equal ones always share a key |
| RateLimiter.TextsConflated | server.go:1165-1166 | two unequal TXT records that share a key |
| RateLimiter.NamesConflated | server.go:1144 | two TXT records of different names that share a key |
| RateLimiter.GrantedIff | server.go:1141-1153 | over every run, with clean-ups anywhere, a record is granted exactly if no grant of its key is less than a second old |
| RateLimiter.EqualGrantsSpaced | server.go:1141-1153 | grants of equal records are at least a second apart |
| RateLimiter.SourcedGrantsSpaced | server.go:1141-1153 | the same with no exception for received and generated records |
| RateLimiter.CleanUpUnobservable | server.go:262-271 | after any history the limiter decides as if there had been no clean-up |
| RateLimiter.MulticastSelected | server.go:702-738 | in a multicast response no two records are equal, nothing is sent that was not asked for, every additional is there unless it equals an answer, and its answers are exactly those granted |
| RateLimiter.SelectedNoTwins | server.go:702-738 | no two records of any response are equal, unicast ones included |
| Responses.DistinctMeans | server.go:702-716 | of the records asked for, the first of each set of equal ones is kept, where no answer equals it |
| Responses.UnicastSent | server.go:702-747 | a unicast response is always sent, whatever the limiter granted; every answer asked for has an equal in it, in the order asked for |
| Responses.NothingIff | server.go:718-736 | nothing is sent exactly for a multicast with answers none of which is granted |
| Responses.ReplyRead | server.go:738-747 | with proper names of at most 128 labels, receivers read exactly the records sent, in an authoritative response |
| RateLimiter.Limiter.CanSendMulticast | server.go:1141-1153 | decides by the tracker and notes the grant and nothing else |
| RateLimiter.Limiter.CleanUpRateTracker | server.go:262-271 | exactly the entries older than five seconds go |
| RateLimiter.Limiter.PrepareResponse | server.go:702-738 | the deduplicating and filtering loops give the specified selection and tracker |
| Multipacket.MaxFitMeans | browser.go:194-206 | the prefix chosen fits and no longer one does |
| Multipacket.LargestFit | browser.go:195-206 | the upward scan with its break finds that prefix |
| Multipacket.SendQueryMultipacket | browser.go:183-247 | the loop over chunks of 20 sends the packets of the split that pack, in order |
| Multipacket.SendQuery | browser.go:130-176 | one packet if it packs, the split otherwise |
| Multipacket.PacketsCarry | browser.go:164-247 | however the query is split, its packets carry exactly the known answers in order, the question in the first alone, and the truncation bit on all but the last |
| Multipacket.ContinuationFits | browser.go:222-247 | 20 PTR records of one owner, with names of up to 255 octets, always fit in one packet |
| Multipacket.KnownAnswersArrive | browser.go:130-247 | with proper names of up to 255 octets every packet is sent, and the answers that receivers read, put together, are exactly the known answers |
| Multipacket.ContinuationsFull | browser.go:221-240 | every continuation but the last holds 20 answers |
| Suppression.InKnownAnswers | server.go:970-980 | finds whether an equal record is known with at least half of the TTL |
| Suppression.AnswerQuery | server.go:378-390 | the loops over questions and records give the answers specified, and whether one is unique |
| Suppression.AnsweredIff | server.go:378-390 | a record is answered exactly if a question asks for it and it is not known |
| Suppression.KnownAnswerRead | browser.go:137-149 | a known answer is received as a PTR record with 75 seconds to live, so not as a goodbye |
| Suppression.PacketsRead | browser.go:130-247 | every packet is read as a query; the first holds the question and as many known answers as it has room for, the others no question |
| Suppression.SuppressedIff | server.go:364-390 | a query makes a service send its PTR record unless it is among the known answers of the first packet and the service's TTL is at most 151; further packets make it send nothing, whatever they hold |
| Suppression.KnownServiceSilentIff | server.go:970-980 | a service known by its own name in the first packet keeps silent exactly if its TTL is at most 151 |
| Browsing.ExtractIff | browser.go:519-528 | the extracted name, a dot and the service type give the instance's name back, up to case, if and only if it ends with a dot and the service type |
| Browsing.EventsReplay | browser.go:322-466 | over every run the events of an instance alternate, an Add first; it is in the table exactly if its last event is an Add; replaying the events gives the table's instances |
| Browsing.KnownIff | browser.go:322-466 | an instance is known exactly if a PTR record announced it and no goodbye has come since, whatever is purged from the cache in between |
| Browsing.Browser.OnRecordAdd | browser.go:322-333 | a PTR record of the type goes to handlePTR; others refresh what is known and offer no event |
| Browsing.Browser.HandlePTR | browser.go:336-370 | adds an unknown instance with one Add event, and does nothing to a known one |
| Browsing.Browser.OnRecordRemove | browser.go:440-466 | removes a known instance with one Remove event, and does nothing else |
| Browsing.Browser.OnResponse | server.go:532-539 | the notify pass takes these steps record by record, by the TTL |
| Discovery.ReceivedRecords | service.go:82-129 | the records of a service as received: PTR from its type to its name, SRV with its port, weight, priority and host, TXT with its text, and how long each is good |
| Discovery.ServiceCached | cache.go:46-98 | once they are received, SRV and TXT are what is found under the service's own key, each for as many seconds as it is good, whatever happens to other keys |
| Discovery.AddressCached | cache.go:46-98 | of the service's addresses of one family the last alone is found under its host, and what was there before if it has none |
| Discovery.FirstAddressLost | cache.go:56-63 | of two IPv4 addresses of a service the second alone is resolved |
| Discovery.CacheResponse | server.go:506-530 | the first pass over answers and additionals takes the cache from its history to that with the response behind it |
| Discovery.ResolveInstance | browser.go:470-504 | the lookups and loops give what the cache says of an instance |
| Discovery.ServiceResolved | browser.go:470-504 | the name of a service just received resolves to that service: its own name, host, port, priority, weight and text, and the last address of each family |
| Discovery.ServiceOffered | browser.go:322-370 | a browser of its type that hears of a service for the first time offers one event: the addition, under the service's key, of what it resolves to |
| Discovery.AddTells | browser.go:336-370 | event and table hold what the cache says of the instance, or its extracted name alone if that is nothing |
| Discovery.RemoveTells | browser.go:440-466 | a goodbye takes that instance out, and offers what was known of it |
| Discovery.RefreshTells | browser.go:322-333 | other records offer nothing, and change the instances that they refresh and no other |
| Discovery.NameExtracted | browser.go:519-528 | from the instance name of a service and its type in any case, its own name is extracted |
| Discovery.AnnouncementRead | service.go:309-323 | the response with all records of a service is read by its receivers as those records |
| Discovery.BrowseFindsIff | browser.go:61-70 | a browser of a type and domain looks for the name under which a service of these is registered, up to case, exactly if the type ends neither with a dot nor with the text of the domain |

## Left out

- Sockets, multicast groups, interfaces, timers, random delays and logging: time is a parameter, and
  each critical section is one step that may come at any moment.
- Names: lower-casing is that of ASCII bytes; other letters are left as they are.
- An absent slice and an empty one are the same here; an address of no bytes is an absent address.
- Error texts: an error is its kind, without the numbers and names in its message.
- Records are values: the cache, its callers and a service share pointers in the source, and a TTL
  changed through one is seen through the other. For the same reason a lookup's TTL is the cache's own.
- Lists in the cache are compacted in an array of their own in `Caching.Compact`; that Go's slices
  of one backing array may alias is not modelled.
- Addresses are taken in the order in which `sortIPsIPv4First` leaves them; the sort is not modelled.
- `net.IP.String` in the limiter's key is stood for by the hexadecimal 16-byte form of the address
  behind a colon; like the text it never has a dot before a colon.
- TwoServers.ExactlyOneLoses: the winner has text, because without it a service loses to itself.
- TwoServers.NeverBothUnderOneName: of a loser that has not heard the winner nothing is claimed; the
  network may lose every probe.
- TwoServers.TieIsBroken: about two services whose SRV records differ; that names stay unique when one
  side starts late is not claimed, since a probing service ignores a defender's answer.
- Of the response that defends an announced service, the record is modelled, not its sending.
- `handlePassiveObservation` and the detection of conflicts after announcement, which only log or lower
  a TTL that expiry does not look at.
- Of `handleQuery`, the answers from the records of one announced service are modelled, and not the
  additionals, reverse mapping, NSEC answers, host records, the enumeration of types, or legacy unicast
  replies; nor goodbye messages, nor the second sending of an announcement.
- Browsing: what the cache says of an instance is a parameter of each step, which `Discovery` takes from
  `resolveInstance`; what an SRV, TXT or address record refreshes (`updateInstancesFromRecord`) stays a
  parameter. Events dropped by a full channel count as offered.
- The clock is read once for all records of a response, and once for all lookups of one resolution.
- The state `stateConflictRenamed` is never entered by the source and has no counterpart.
