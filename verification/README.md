# dpi-proxy: a Dafny model of the interceptor's core

`dpi-proxy` intercepts TLS and DNS traffic on the way out of a host. It rewrites or re-frames the first bytes of a
TLS connection, learns which treatment works for which host on which network, resolves names through servers it
trusts, and on Windows reflects an application's packets to its own listeners and back. This project models the parts
of the C code whose correctness is not visible from one function, and proves what they are for.

`dafny verify dfyconfig.toml` checks the whole project.

## What is modelled

* **Packet rewriting** (`Checksum`, `Packet`, `Split`, `Fragment`, `Fake`, `Endpoint`, `Receiver`, `Chains`, `Sends`, `Engine`). Buffers
  are arrays that are filled and patched in place, checksums are one's-complement sums modulo 65535 in a 32-bit
  accumulator, sequence numbers are modulo 2^32. `Receiver` is an independent model of the receiving host: it reassembles
  IP fragments, checks the header and TCP checksums or does not, and has a TCP connection (`Endpoint`, by section 3.10.7 of
  RFC 9293) that places text by sequence number, begins at a SYN, ends at the first FIN reached in order and is reset by
  an RST. `Delivers(k, wire)` says that the packets `wire` leave this host with the connection that `k` alone would: the
  same bytes, begun and ended at the same places. The engine's sends, each successful or not, and its verdicts are one
  ordered trace. The main theorems say which packets a chain sends in which order, and exactly when a receiver ends as
  after the packet itself, whatever the packet's control bits and whichever sends succeed (`Chains.ReplacementArrives`,
  `Engine.Engine.OnPacket`).
* **TLS record re-framing** (`Records`, `Tls`, `Sni`, `Coalesce`, `Relay`). `Deframe` is the meaning of a TCP byte stream: the
  content octets with their record types (section 5.1 of RFC 8446, section 6.2.1 of RFC 5246). Fragmenting, coalescing
  and every sending mode keep it for every continuation of the stream.
* **Flow reassembly** (`Flow`, `FlowTable`, `FlowRuns`), for segments of one byte stream that arrive cut, repeated and
  reordered in any way, mixed with the packets of other connections.
* **Attempt planner, decisions, verification** (`Plan`, `PlanOrder`, `Conn`, `Decisions`, `VerifyQueue`, `Daemon`, `DecisionText`,
  `DecisionFile`). A run is a sequence of attempts and lookups whose results are the environment's choice, and
  `PlanOrder` gives for each plan the list of which every run takes the first that is open; the tables are
  classes against finite maps; the daemon is a transition system whose steps are the code between lock and unlock of the
  connection threads, the verifier and the network watcher.
* **Trusted resolver** (`DnsName`, `DnsQuery`, `DnsReply`, `DnsTransport`, `DnsCache`, `Resolver`, `DnsOutcome`, `DnsForward`): the name
  codec, queries and replies (sections 3.1 and 4.1 of RFC 1035), a transport with a log of its calls, servers' health
  against their outcomes, the bounded cache against the replies that calls brought, and the walk over the servers with
  other threads at work in between.
* **Reflection on Windows** (`Nat`, `Reflect`, `ReflectRules`): the chained hash table against a plain map of flows, which packets
  are turned around told from the packet alone, and the two packet rewrites against each other.

Sockets, the network, clocks, memory exhaustion, HTTP parsing and strategy lookup are parameters: scripts, functions
or flags that every statement quantifies over.

## Where the code and what is said about it differ

* `src/packet/fake.c:40-47` calls the decoy's checksum always invalid. It is, except for the field values 0x0000 and
  0xFFFF (`Fake.DecoyChecksum`, with a packet at `Fake.DecoyCanVerify`). The stream is safe anyway, because a decoy carries its template's own bytes.
* `reply_matches` (`src/dns/dns.c:476-482`) folds the letter case of the question's type and class too. For types without a
  letter octet, such as A and AAAA, this changes nothing; HTTPS (65) is taken for type 97 (`DnsForward.ExactTypes`,
  `DnsForward.HttpsIsConfused`).
* `encode_name` (`src/dns/dns.c:50-68`) accepts two dots at the end of a name (`DnsName.EncodableNames`,
  `DnsName.TwoFinalDots`).
* If both Windows listeners had the same port, TCP flows to port 53 would not find their way back
  (`Reflect.RoundTrip`, `Reflect.SharedPortCollides`). That the daemon's own ports are disjoint from the listeners' is not needed.
* `tls_coalesce_handshake_records` undoes fragmentation exactly when the record is within the protocol limit and no
  further handshake record header follows it (`Coalesce.UndoesFragmentation`).
* `try_apply_chain` drops the original even when an injection failed, and the payload is then lost to a receiver that
  checks, unless a decoy of the missing piece happens to be valid. `Chains.ReplacementArrives` is the exact condition.
* `packet_split_tcp_v4` (`src/packet/split.c:34-66`) copies the control bits into both pieces, and `packet_callback` splits
  whatever they are. Of a packet with FIN the first piece then ends the stream at the cut, with all sends successful and
  in either order (`Chains.TailLost`, with a packet at `Chains.FinLosesTail`); of a packet with SYN the second piece is
  refused. Pieces deliver exactly the packets that do neither (`Chains.PiecesSuffice`); fragments deliver all.
* `flow_seq_is_next` (`src/flow/flow.c:117-134`) does not count the number that a SYN takes. Where data rides on a SYN,
  nothing that follows is taken for the next segment, so there the host found does depend on how the bytes were cut
  (`Flow.SynDataStalls`). Independence of cutting is stated for streams whose data begins behind the SYN.
* `dns_resolve` counts a name that has no query as a failure of every server, without asking any
  (`Resolver.Resolver.DnsResolve`).

## Model

| member | source | states |
|---|---|---|
| Checksum.Accumulate | src/packet/checksum.c:11-30 | the 32-bit accumulator holds the seed plus the sum of all 16-bit words modulo 2^32, and exactly that sum when it fits |
| Checksum.Finalize | src/packet/checksum.c:32-38 | folding ends with the complement of the one's-complement value, the residue modulo 65535 |
| Checksum.FieldVerifies | src/packet/checksum.c:11-38 | storing the computed field makes pseudo-header and block sum to negative zero, for every content |
| Checksum.FieldIgnoresItself | src/packet/checksum.c:40-50 | the computed field does not depend on what the field held |
| Checksum.ComplementedField | src/packet/checksum.c:32-76 | complementing a right field keeps the block right if and only if the field is 0x0000 or 0xFFFF |
| Checksum.NoOverflow | src/packet/checksum.c:54-100 | the accumulator cannot overflow for any legal segment and pseudo-header |
| Checksum.Ipv4Header | src/packet/checksum.c:40-50 | the IPv4 header checksum is the field value that verifies |
| Checksum.TcpV4 | src/packet/checksum.c:54-76 | the same for TCP over the IPv4 pseudo-header, 0 for a segment too short to hold the field |
| Checksum.TcpV6 | src/packet/checksum.c:78-100 | the same for TCP over the IPv6 pseudo-header |
| Packet.ParseIpv4 | src/packet/ip.c:11-58 | an accepted header has a legal length and total length within the data, and the payload is what lies between |
| Packet.Refused4 | src/packet/ip.c:11-58 | exactly which packets are accepted, and which are refused as of another version, as a fragment or as too short |
| Packet.ParseIpv6 | src/packet/ip.c:60-95 | an accepted packet's payload is its declared length after the fixed header, and is TCP |
| Packet.ParseTcp | src/packet/tcp.c:9-35 | an accepted header has a legal data offset within the segment, and the payload follows it |
| Packet.Open | src/packet/split.c:21-30 | reading IPv4 and TCP yields a well-formed packet that is a prefix of the input, or the parser's error |
| Packet.ReadWire | src/packet/ip.c:11-58 | every well-formed packet is read back exactly, whatever follows it |
| Packet.ReadWire6 | src/packet/ip.c:60-95 | the same for IPv6 |
| Packet.SealHeader | src/packet/split.c:38-66 | zeroing and storing the header checksum in place makes the header verify and changes nothing else |
| Packet.SealTcp | src/packet/split.c:38-66 | the same for the TCP checksum |
| Split.SplitTcpV4 | src/packet/split.c:11-66 | both outputs are well-formed pieces: payloads up to and from the cut, second sequence number moved on modulo 2^32, other header fields kept, both checksums verify; errors leave the buffers alone |
| Split.SplitTcpV6 | src/packet/split.c:68-119 | the same for IPv6, which has no header checksum |
| Fragment.FragmentIpv4 | src/packet/fragment.c:11-77 | two fragments at the least multiple of 8 at or after the cut: bodies are the IP payload, offset field times 8 is the first body's length, MF only on the first, DF clear, header checksums verify; or the error and untouched buffers |
| Fake.MakeFakeTcpV4 | src/packet/fake.c:11-50 | the decoy is the packet with the given TTL, a right header checksum and a complemented TCP checksum field, with the bytes behind it as they were |
| Fake.DecoyChecksum | src/packet/fake.c:32-47 | the decoy of a verifying packet fails its TCP checksum exactly when the field is neither 0x0000 nor 0xFFFF |
| Fake.DecoyCanVerify | src/packet/fake.c:40-47 | one packet with a right TCP checksum of 0x0000 whose decoy is as right |
| Receiver.SlicesArrive | src/nfqueue/nfqueue_engine.c:387-430 | packets that carry slices of a packet under its control bits, in any order and with anything repeated, do to a host what the packet does if and only if the ones it accepts are enough: every byte for text; up to the first with the beginning all reach the end for a FIN; the first is whole for a SYN; one has the beginning for an RST |
| Receiver.PieceItem | src/packet/split.c:11-66 | a piece carries its slice soundly |
| Receiver.DecoyItem | src/packet/fake.c:32-47 | a decoy carries what its template carries, so it cannot change the stream even where it is accepted |
| Receiver.RebuiltPacket | src/packet/fragment.c:32-76 | the reassembled datagram carries the whole payload and its TCP checksum is as right as the original's |
| Receiver.FragmentsArrive | src/packet/fragment.c:32-76 | both fragments, and nothing less, do to a host what the packet does, provided the TCP checksum is right or is not checked |
| Chains.ReplacementArrives | src/nfqueue/nfqueue_engine.c:325-443 | for every chain that takes a packet's place, every setting of its control bits and whichever sends succeed, a receiver that checks or does not ends as after the packet itself if and only if: for text, both pieces went out or a decoy that it takes stands in; for SYN or FIN, a decoy of the whole that it takes went out; for RST, the beginning did; for fragments, both did |
| Chains.PiecesSuffice | src/nfqueue/nfqueue_engine.c:387-443 | with both pieces out the packet is delivered, whatever became of a decoy, exactly when it neither opens the connection nor ends the stream, a decoy of the whole aside; with both fragments out always |
| Chains.TailLost | src/nfqueue/nfqueue_engine.c:387-400 | of any packet that ends the stream, split and disorder with all sends successful leave exactly the bytes before the cut, and the stream ended there |
| Chains.FinLosesTail | src/packet/split.c:34-66 | one packet with FIN whose two pieces leave the host with the first byte only and the stream ended |
| Chains.SplitArrives | src/nfqueue/nfqueue_engine.c:387-400 | the condition for split and disorder |
| Chains.FragmentArrives | src/nfqueue/nfqueue_engine.c:360-374 | the condition for fragment |
| Chains.FakeSplitArrives | src/nfqueue/nfqueue_engine.c:401-413 | the condition for fake+split, with the sending cut short where it is |
| Chains.SplitFakeArrives | src/nfqueue/nfqueue_engine.c:414-430 | the condition for split+fake |
| Chains.DecoySeldomStandsIn | src/packet/fake.c:32-47 | a receiver that checks takes a decoy of a right packet exactly when the checksum field of what it imitates is 0x0000 or 0xFFFF |
| Chains.AcceptedDelivers | src/nfqueue/nfqueue_engine.c:341-350 | a packet that is accepted is delivered, whether its decoy went out or not |
| Engine.Engine.BuildDecoy | src/nfqueue/nfqueue_engine.c:296-308 | a decoy is built exactly for a packet that parses and has a payload |
| Engine.Engine.TryApplyChain | src/nfqueue/nfqueue_engine.c:325-443 | whatever sends succeed, those made are the chain's packets in order, up to a failure that makes the rest pointless, and the drop comes after them; exactly the packets that the chain replaces are dropped |
| Engine.Engine.OnPacket | src/nfqueue/nfqueue_engine.c:445-625 | one verdict per packet, after its sends; the table takes one step; a packet whose segment completes a ClientHello that it holds whole sends, for each of the six chains, exactly the packets of that chain, cut in the middle of the name that the parser accepts, and anything else passes with nothing sent; a receiver ends as after the packet always where it was accepted, and under the exact condition above where it was dropped |
| Sends.CutInName | src/nfqueue/nfqueue_engine.c:352-358 | the cut is in the middle of the name that the parser accepts, and there is none exactly when that has fewer than two bytes |
| Sends.ExecutedSends | src/nfqueue/nfqueue_engine.c:325-443 | what each chain sends, said of the chain: pieces in order, in reverse, behind a decoy or around one, fragments at the next unit of eight bytes, a decoy alone, or nothing; and which send ends the sending if it fails |
| Engine.Engine.OnPackets | src/nfqueue/nfqueue_engine.c:445-625 | packets one after the other take the table through a history of their segments |
| Engine.Engine.AdvanceFlow | src/nfqueue/nfqueue_engine.c:507-520 | the segment meets its flow's own state, or a fresh one when there is none or a bare SYN restarts it; no other slot changes |
| Engine.Engine.DecideChain | src/nfqueue/nfqueue_engine.c:575-598 | the chain is resolved by the packet that names the host and remembered for the flow; no other slot changes |
| Engine.Engine.TakeSegment | src/nfqueue/nfqueue_engine.c:507-604 | the whole table after a segment: its slot advanced, every other as it was, the expired gone |
| Engine.Engine.Identify | src/nfqueue/nfqueue_engine.c:481-573 | the key and segment are those of the IPv4 or IPv6 packet that the input reads as, or none |
| Flow.RunInv | src/flow/flow.c:107-134 | what every arrival of every segment keeps of a flow: its buffer, and its class and host explained by the verdicts of both parsers on it |
| Flow.BufferIsSlice | src/flow/flow.c:107-134 | for every cutting, duplication and order of a stream shorter than 2^32, the buffer is a contiguous slice that starts at the first data segment seen |
| Flow.HostIgnoresCutting | src/nfqueue/nfqueue_engine.c:178-219 | within the cap, the flow is TLS with a host exactly when the parser finds that host in the in-order bytes, however they were cut |
| Flow.SynDataStalls | src/flow/flow.c:117-134 | where the first bytes ride on a SYN, the flow never takes a later one: its host is that of the bytes on the SYN |
| FlowRuns.FlowsAreSeparate | src/nfqueue/nfqueue_engine.c:507-604 | whatever packets of other connections come between, what the table holds of a connection while it lasts is its memory of its own segments |
| FlowRuns.EntryIgnoresCutting | src/nfqueue/nfqueue_engine.c:445-625 | through the engine, within the cap, a connection's entry is that of a ClientHello with a host exactly when its in-order bytes parse so, and the chain kept is that host's, however the bytes were cut |
| FlowTable.Table.LookupOrCreate | src/flow/flow.c:57-83 | the one live flow of the key, or a fresh one in a free slot or over the least recently seen; other slots untouched |
| FlowTable.Table.FindFreeOrOldest | src/flow/flow.c:33-55 | a free slot if there is one, else a least recently seen |
| FlowTable.Table.EvictExpired | src/flow/flow.c:85-105 | exactly the expired flows go, and the counts agree |
| Records.CutRecord | src/tls.c:136-155 | cutting a record's declared length in two at an arrived point leaves the content stream unchanged |
| Tls.TlsFindSniSplit | src/tls.c:12-121 | the cursor walk computes the stage-by-stage split offset |
| Tls.TlsFragmentFirstRecord | src/tls.c:136-155 | two records in place of the first, or nothing when there is no legal point or no room |
| Tls.FragmentationPreserves | src/tls.c:136-155 | at every legal point of a complete or partly received record, the content is the same for every continuation |
| Sni.TlsParseClientHelloSni | src/tls/sni_extract.c:10-116 | the cursor loop computes the parse, leaves a found name NUL-terminated in the buffer and otherwise leaves the buffer alone |
| Sni.Final | src/tls/sni_extract.c:10-116 | every verdict but truncated is unchanged by more bytes up to the cap |
| Sni.WalkersAgree | src/tls.c:12-121 | wherever the parser accepts a name of two bytes or more, the split finder lands in the middle of that name |
| Sni.SplitImpliesName | src/tls.c:66-121 | when the split finder lands, the bytes it lands in are a name of the extension |
| Sni.FragmentationDividesName | src/tls.c:161-169 | fragmenting at the derived point divides the name, so that neither record holds all of it |
| Sni.ParsesEveryHello | src/tls/sni_extract.c:10-116 | the parser finds the name in every well-formed ClientHello within its caps, wherever among the extensions it stands |
| Coalesce.TlsCoalesceHandshakeRecords | src/tls/sni_extract.c:126-168 | the output is the one record of the gathered bodies with what follows, or none |
| Coalesce.CoalescingPreserves | src/tls/sni_extract.c:126-168 | the content is the same for every continuation, a partial last record counted at its declared length |
| Coalesce.UndoesFragmentation | src/tls/sni_extract.c:126-168 | coalescing gives back the fragmented buffer if and only if the record is within 2^14, fits, and no further handshake header follows |
| Coalesce.GatherSize | src/tls/sni_extract.c:138-157 | gathering loses nothing but the record headers |
| Relay.Socket.SendAll | src/relay.c:12-29 | success exactly when every byte is on the wire, else a prefix is |
| Relay.OnWirePreserves | src/relay.c:40-130 | every mode leaves the content the same for every continuation |
| Conn.SameContent | src/transparent/conn.c:242-247 | whatever the step, what an attempt sends carries the content of the hello, for every continuation |
| Relay.SendFirst | src/relay.c:120-130 | success exactly when the mode's bytes are on the wire, with the pause at the mode's place |
| Plan.Offers | src/transparent/policy.c:186-266 | every step offered is untried, a stream strategy, and to the trusted address only on a mismatch; a lookup only while unknown |
| Plan.RunState | src/transparent/policy.c:268-275 | over every run the plan remembers exactly its attempts and lookup |
| Plan.RunIsBounded | src/transparent/policy.c:186-275 | at most four attempts and one lookup in every run |
| Plan.NoStepTwice | src/transparent/policy.c:129-155 | no step is tried twice in a run |
| Plan.TrustedNeedsMismatch | src/transparent/policy.c:121-127 | the trusted address is tried only after a lookup that ended in a mismatch |
| Plan.UnreachableStaysAlone | src/transparent/policy.c:159-172 | after a failed connect to the original address no later attempt goes there |
| Plan.NoneToUnreachable | src/transparent/policy.c:159-266 | no attempt is offered to an unreachable original |
| Plan.AnswerEndsRun | src/transparent/policy.c:194-196 | an answered attempt is the last |
| Plan.DirectFirst | src/transparent/policy.c:236-248 | an unlisted host without rule, decision, cooldown or mark gets neither bypass nor lookup before a failed direct attempt |
| Plan.CachedFirst | src/transparent/policy.c:225-233 | a cached decision, as far as it still applies, is the first thing tried |
| PlanOrder.NextRung | src/transparent/policy.c:186-266 | a run goes on with an event if and only if it may go on and the event does the first thing still open on the plan's list: decision, bypasses of a listed host, direct, lookup, then the trusted address or the bypasses |
| PlanOrder.ListedFirst | src/transparent/policy.c:234-238 | a listed host: both bypasses at the own address, the preferred one first, before any direct attempt or lookup, unless unreachable |
| PlanOrder.ManualRun | src/transparent/policy.c:216-224 | a rule: one lookup, then one attempt with the rule's strategy as it is on a stream, at the trusted address exactly on a mismatch |
| PlanOrder.CooldownRun | src/transparent/policy.c:196-215 | in cooldown, without a host, or with a rule to pass: one attempt at the own address, the preferred bypass if listed and in cooldown, else plain |
| PlanOrder.DecisionFirst | src/transparent/policy.c:225-233 | a host with a decision: that step is the first attempt of every run, at the trusted address only after a lookup that disagrees |
| Plan.GivesUpOnlyWhenExhausted | src/transparent/policy.c:186-266 | a run that ends unanswered below the bound has tried all trusted steps on a mismatch, else both bypasses unless unreachable, and direct unless marked bad or unreachable |
| Conn.Conn.ResolveTrusted | src/transparent/conn.c:164-212 | a mismatch exactly when the resolver answers without the original address; the trusted address is then its first, different from the original |
| Conn.Conn.DoAttempt | src/transparent/conn.c:222-270 | the connection goes to the step's address; what it sends is a beginning of the hello as the step has it; the server's first bytes are judged only if it was all sent |
| Conn.Conn.SendHello | src/relay.c:40-130 | the hello goes out as it is, or for a bypass as two records with a pause behind the first or inside its header; success exactly when all of it did |
| Conn.Conn.RunPlan | src/transparent/conn.c:397-429 | the loop is a run of the plan to its end; it commits exactly to the last step when that was answered; every connection went where its step says and sent a beginning of what its step makes of the hello |
| Conn.AnsweredHello | src/transparent/conn.c:222-270 | an attempt that was answered sent all of the hello, as its step has it |
| Conn.EachTriedSo | src/transparent/conn.c:222-270 | each attempt on record sent a beginning of its step's hello, all of it where the server was waited for, and ended accordingly |
| Conn.NoTrustedYet | src/transparent/conn.c:397-429 | before the lookup nothing went to the trusted address |
| Decisions.Store.Find | src/transparent/policy.c:310-324 | an entry exactly when the key is in the map |
| Decisions.Store.Lookup | src/transparent/policy.c:326-335 | the map's fresh decision for the case-folded host, network and family |
| Decisions.Store.RemoveEntry | src/transparent/policy.c:337-342 | exactly the key goes |
| Decisions.Store.NewSlot | src/transparent/policy.c:346-379 | behind the others while there is room or the array can grow, doubling from 16 to 2048, else the first of the least recently validated, else none |
| Decisions.Store.Success | src/transparent/policy.c:396-431 | direct forgets the key, a recent identical decision is left alone, anything else is stored, over the oldest when full; the host's cooldown ends and no other does |
| Decisions.Store.Failure | src/transparent/policy.c:433-467 | the key goes, and a host that fits is in cooldown exactly for the next 60 seconds; no other cooldown begins, and none ends early while there is a free or expired slot, else only the first that would have |
| Decisions.Store.InCooldown | src/transparent/policy.c:469-482 | true exactly while a slot holds the host |
| Decisions.Store.MarkDirectBad | src/transparent/policy.c:502-533 | the key is marked exactly for the next hour, on a known network; no other mark begins, and none ends early while there is a free or expired slot, else only the first that would have |
| Decisions.Store.DirectBad | src/transparent/policy.c:535-544 | true exactly while a mark of the key holds |
| Decisions.FoldsCase | src/transparent/policy.c:309-325 | hosts are told apart by everything but the case of their letters |
| Decisions.SetBegins | src/transparent/policy.c:436-463 | what a write to the timed slots means for every key at every time |
| Decisions.Store.NetworkChanged | src/transparent/policy.c:546-550 | all cooldowns and marks are gone, the decisions stay |
| Decisions.RemovedContents | src/transparent/policy.c:337-342 | overwriting with the last entry and shortening removes one key of the map |
| Decisions.AppendedContents | src/transparent/policy.c:396-431 | appending a new key adds it to the map |
| Decisions.ReplacedContents | src/transparent/policy.c:346-379 | overwriting a slot exchanges its key |
| Decisions.OthersKept | src/transparent/policy.c:396-467 | no operation on one key changes what another key holds |
| Decisions.StaysRecent | src/transparent/policy.c:396-431 | despite the throttle a confirmed step stays recorded recently enough |
| Decisions.ConfirmedIsFound | src/transparent/policy.c:303-431 | a confirmed step is found by every lookup in the next twelve hours while it stays in the table |
| Decisions.EntryHasSource | src/transparent/policy.c:396-467 | every entry was there at first or was recorded by a success |
| Decisions.NothingStaleIsFound | src/transparent/policy.c:303-335 | a step that is found was confirmed less than a day ago |
| VerifyQueue.Queue.SeenRecently | src/transparent/verify.c:46-63 | true exactly for a duplicate among the last 128 accepted, inside the window |
| VerifyQueue.Queue.Submit | src/transparent/verify.c:65-85 | the job is queued exactly when there is room and it is no recent duplicate |
| VerifyQueue.Queue.Take | src/transparent/verify.c:167-187 | jobs are taken first in, first out |
| Daemon.NextKeeps | src/transparent/verify.c:115-165 | every locked section of every thread keeps the invariant |
| Daemon.TraceKeeps | src/transparent/conn.c:288-395 | so does every interleaving |
| Daemon.DecisionsAreEarned | src/transparent/verify.c:115-138 | every decision was loaded, or is a non-direct step that carried a live connection and then passed a certificate-verified handshake, with its network current when the plan was filled and when the result was applied |
| Daemon.MarksAreDeserved | src/transparent/transparent.c:467-481 | every direct-bad mark comes from a certificate rejected on the network that is still current |
| Daemon.ConnSteps | src/transparent/conn.c:397-429 | whatever any thread does, a connection stays, makes the next event of its plan, commits to the attempt just answered, gives up with nothing left to try, or leaves after committing |
| Daemon.ConnsRun | src/transparent/conn.c:397-429 | in every interleaving what a connection has done is a run of the plan filled for it |
| Daemon.ConnGoesOn | src/transparent/conn.c:397-429 | a connection still attempting can always go on, commit or give up |
| Daemon.VerifierSteps | src/transparent/verify.c:167-187 | the verifier takes the first job when idle, probes it and applies the result, and nothing else touches it |
| Daemon.VerifierGoesOn | src/transparent/verify.c:167-187 | the verifier is never stuck while there is a job |
| Daemon.VerifiedIsLearned | src/transparent/verify.c:115-139 | a step verified on the current network is what lookups find in the next twelve hours |
| Daemon.LearnedIsTriedFirst | src/transparent/verify.c:115-139 | a step verified on the current network is the first attempt of the host's next connection, a rule or cooldown aside |
| Daemon.RejectedIsMarked | src/transparent/verify.c:115-139 | a certificate rejected for the direct address marks it, on a known network that is still the current one |
| Daemon.OthersChangeNothing | src/transparent/verify.c:115-139 | any other result, or one for a network that is no longer current, changes neither table nor marks |
| Daemon.DirectForgets | src/transparent/conn.c:356-369 | a direct success leaves no decision for its host, a rule aside |
| Daemon.WorkingIsPreferred | src/transparent/conn.c:356-369 | a bypass that worked becomes the one to prefer |
| Daemon.ChangeClears | src/transparent/transparent.c:467-481 | a change of network clears the marks and the preference and keeps the decisions |
| Daemon.FailureForgets | src/transparent/conn.c:422-429 | a run that nothing answered leaves no decision for its host, a rule aside |
| Daemon.SubmittedExactly | src/transparent/conn.c:378-394 | nothing is submitted for a connection a rule chose the way of; a bypass that worked is, unless it was the stored decision at once; a direct success is to be checked |
| DecisionText.HexIsScanned | src/transparent/policy.c:642-649 | a 64-bit number printed in 16 hex digits is scanned back |
| DecisionText.DecIsScanned | src/transparent/policy.c:642-649 | a signed 64-bit number printed in decimal is scanned back |
| DecisionFile.AcceptedIsStorable | src/transparent/policy.c:552-578 | whatever the line, an accepted decision is not direct, has a known network, a family and a host that fits |
| DecisionFile.LineIsParsed | src/transparent/policy.c:552-594 | every proper decision's line is parsed as that decision |
| DecisionFile.FileRoundTrip | src/transparent/policy.c:596-656 | every table of proper decisions is restored as it was, in order, with no line skipped |
| DecisionFile.LineIsWeighed | src/transparent/policy.c:606-624 | behind its blanks an empty line or a comment changes nothing; any other is read, and counted as skipped exactly when it cannot be |
| DecisionFile.PutDecision | src/transparent/policy.c:579-593 | a decision read goes over the one with its key, else behind the others, else over the oldest, else nowhere, as room and memory allow |
| DecisionFile.TpDecisionsParse | src/transparent/policy.c:596-627 | the entries, the array's size and the skip count are those that the lines, cut at 511 characters, make one after the other, with memory or without |
| DecisionFile.TpDecisionsSerialize | src/transparent/policy.c:629-656 | all of the text or nothing, depending on the room |
| DnsName.EncodeName | src/dns/dns.c:43-71 | the encoding is written within its room, or 0 when the name has none that fits |
| DnsName.EncodableNames | src/dns/dns.c:43-71 | exactly the names made of labels of 1 to 63 octets, with at most two final dots and 253 octets, have an encoding, and it is that of the labels |
| DnsName.FoldsCase | src/dns/dns.c:466-484 | names are told apart by everything but the case of their letters |
| DnsName.TwoFinalDots | src/dns/dns.c:50-68 | any name with two final dots is taken for the name without them |
| DnsQuery.DnsBuildQuery | src/dns/dns.c:73-90 | header, name, type and class, or 0 when the name has no encoding that fits |
| DnsQuery.DnsQueryInfo | src/dns/dns.c:404-446 | the walk computes the question's name, type and reply size, within the caller's buffer |
| DnsQuery.QueryRoundTrip | src/dns/dns.c:404-446 | the reader gives back every well-formed name in lower case with its type and size 512, exactly when it has room; the query is 12 + name + 2 + 4 octets |
| DnsQuery.BuiltQueryIsRead | src/dns/dns.c:43-90 | the same from the text of the name, with or without final dot, with the buffer the forwarder uses |
| DnsReply.SkipNameAt | src/dns/dns.c:93-117 | the place behind a possibly compressed name |
| DnsReply.QuestionMatches | src/dns/dns.c:121-143 | ours exactly when the question repeats our name but for case, our type and class IN |
| DnsReply.OnlyOurQuestion | src/dns/dns.c:121-143 | a well-formed question is taken for ours if and only if it asks the same labels but for case, type and class |
| DnsReply.DnsParseResponse | src/dns/dns.c:145-194 | the loop computes status, addresses and time to live |
| DnsReply.ReplyIsRead | src/dns/dns.c:145-194 | every well-formed reply is read as what it says: its response code, else the first eight addresses of the type in order with the least time to live; and only for its own question and id |
| DnsReply.RecordsAreCollected | src/dns/dns.c:167-189 | the records of every well-formed answer section are read as written, compressed names included |
| DnsCache.Cache.Find | src/dns/dns.c:241-255 | the entry for name and type, letter case aside, if there is one |
| DnsCache.Cache.Fetch | src/dns/dns.c:353-363 | a hit exactly when an unexpired entry is there; it is the latest that was said for that name and type, before its time ran out |
| DnsCache.Cache.Slot | src/dns/dns.c:268-286 | the entry's own slot, else the first free or expired, else the first least recently used |
| DnsCache.Cache.Store | src/dns/dns.c:259-299 | only that slot changes; the cache keeps one entry per name and type, each the latest that was said for it by a reply that reads so, for its time to live held within 30 and 3600 |
| DnsCache.StoredKeeps | src/dns/dns.c:259-299 | storing keeps entries unique and backed by the record |
| Resolver.BackedOffExactly | src/dns/dns.c:301-314 | over every sequence of outcomes a server is backed off exactly for a minute after the latest of three or more failures in a row |
| Resolver.Resolver.BackedOff | src/dns/dns.c:301-314 | the same of the resolver's servers in every run: their health is that of their outcomes |
| Resolver.Resolver.Judge | src/dns/dns.c:301-314 | exactly this outcome is added to the server's |
| Resolver.OrderHealthyFirst | src/dns/dns.c:365-378 | the order asks every server once, healthy ones first, each group in list order |
| Resolver.HealthyFirstIsUnique | src/dns/dns.c:365-378 | there is only one such order |
| DnsTransport.QueryServer | src/dns/dns.c:322-340 | one call on the transport with the query for the name, and the status and answer of its reply; no call for a name that has no query |
| DnsTransport.Transport.Exchange | include/dns.h:87-92 | every use of the transport is on its log, with what came back |
| Resolver.Resolver.ListServers | src/dns/dns.c:365-378 | the nested loops compute that order |
| Resolver.Resolver.Begin | src/dns/dns.c:353-381 | the first locked section: a hit serves the latest that was said, a miss takes the order and the identifiers; only when a served entry was last used changes |
| Resolver.Resolver.Conclude | src/dns/dns.c:387-395 | the section after a call: the server is judged, and a usable answer goes on record with the reply that says so, brought by a call to that server with the query for that name |
| Resolver.Resolver.Others | src/dns/dns.c:342-400 | whatever calls and sections of other threads come in between, what was done in this lookup's name stays as it was, and the log only grows |
| Resolver.Resolver.DnsResolve | src/dns/dns.c:342-400 | with any calls and sections of other threads before each call and between it and the section after it: a hit asks nobody; otherwise the calls made, the judgements passed and the answer put on record are exactly those of one walk: each server of the order once, with its query, up to the first usable answer, or all failed |
| DnsOutcome.CallDecides | src/dns/dns.c:382-398 | each call of a walk ends it or sends it on, by what its reply reads as |
| DnsOutcome.ReplyDecides | src/dns/dns.c:382-398 | a well-formed reply to the j-th call with response code 3 or 0 ends the lookup there, with no such name, no address or the addresses, the server judged well and the answer on record with the packet; any other code sends it on |
| DnsOutcome.NoReplyGoesOn | src/dns/dns.c:382-398 | silence, a local error and a packet that is no reply to the query send the lookup on, the server judged to have failed |
| Resolver.ServedWasSaid | src/dns/dns.c:353-363 | what the cache serves is what a packet reads as that a server sent back, in a call on the log, to the query for that name and type, less than its time to live ago: its own held within 30 and 3600 seconds, 30 for a negative answer |
| DnsForward.CheckReply | src/dns/dns.c:466-484 | the check computes the match of identifier, flag, count and folded question |
| DnsForward.MatchingReplies | src/dns/dns.c:466-484 | exactly which well-formed replies are taken for a well-formed query's |
| DnsForward.ExactTypes | src/dns/dns.c:476-482 | folding confuses a type with no other if and only if neither of its octets is a letter |
| DnsForward.HttpsIsConfused | src/dns/dns.c:476-482 | a reply about type 97 is taken for the answer to a query for type 65 |
| DnsForward.DnsExchange | src/dns/dns.c:486-532 | with other threads at work in the same places: the query is passed to the servers in order, once each, until one has an acceptable reply, which is the result; each is judged by its reply; a query without a readable question is passed to nobody |
| Nat.FlowTable.Find | src/transparent/platform_windows.c:115-131 | a flow is found exactly when the plain set holds one that matches, with the local address given or left open |
| Nat.FlowTable.Add | src/transparent/platform_windows.c:133-157 | exactly the one flow is added or renewed; without memory a new one is not |
| Nat.FlowTable.Sweep | src/transparent/platform_windows.c:159-186 | exactly the expired flows go |
| Reflect.Handle | src/transparent/platform_windows.c:307-387 | the packet sent, its direction and the flows after it are those of one step against the plain set |
| ReflectRules.TurnedExactly | src/transparent/platform_windows.c:307-387 | a packet is turned around exactly when it is a listener's answer within a flow, or an application's from no own port to TLS at an address that is not local or to DNS, IPv6 only where on, within a flow or opening one |
| ReflectRules.TurnedBecomes | src/transparent/platform_windows.c:307-387 | what a packet that is turned around becomes, and how its flow is seen and starts closing |
| ReflectRules.OthersPass | src/transparent/platform_windows.c:307-387 | a packet that is not turned around leaves the flows alone and goes on as it is, but for refused QUIC |
| ReflectRules.OwnAreLeftAlone | src/transparent/platform_windows.c:350-351 | the daemon's own connections are never turned around and leave the flows as they are |
| ReflectRules.SweptExactly | src/transparent/platform_windows.c:159-186 | a sweep keeps exactly the flows seen within two hours, 30 seconds once closing, a minute for UDP |
| Reflect.RoundTrip | src/transparent/platform_windows.c:307-387 | a listener's reply leaves as the exact reverse of the original packet's addresses and ports if and only if the listeners can be told apart |
| Reflect.RepliesComeHome | src/transparent/platform_windows.c:159-387 | the same for a reply after any other packets and sweeps within the flow's limit |
| Reflect.DistinctAtListener | src/transparent/platform_windows.c:352-386 | packets look alike to a listener if and only if they are of the same flow |
| Reflect.SharedPortCollides | src/transparent/platform_windows.c:381-384 | with one port for both listeners, flows of the two services can collide |
| Reflect.FlowsAreOpened | src/transparent/platform_windows.c:366-379 | in every run each flow was opened by an application's own packet to that destination |
| Reflect.FlowPersists | src/transparent/platform_windows.c:159-186 | a flow outlives its idle or closing limit, whatever else happens |
| Reflect.OriginalDst | src/transparent/platform_windows.c:623-668 | a destination exactly for a connection of a reflected flow, and it is the peer's address with port 443 |
| Reflect.OriginalDstIsTrue | src/transparent/platform_windows.c:623-668 | in every run it is where an application sent a packet |
| Reflect.DnsPeerOk | src/transparent/platform_windows.c:670-683 | true exactly when some flow has the peer, whatever the application's address |

## Left out

- Sockets, poll loops, threads as such and OpenSSL are replaced by results the environment chooses; UDP and DoH transport by an object that logs its calls and whose replies the environment chooses.
- The texts of nftables and PF rule sets, WinDivert, pfctl, netlink, service and watchdog glue: their meaning lies in the kernel.
- Gathering the network fingerprint: it is a number, 0 meaning unknown.
- `src/strategy/strategy.c` and `src/discovery/*`: rule lookup is a given function from host to chain. (Its header promises the longest suffix, the code takes the first suffix rule in order.)
- `src/http/http.c`, SOCKS, option parsing, logging and statistics counters: easy, or only input and output.
- The receiving host's acknowledgement numbers, window, timers, TCP options and urgent pointer: a segment is taken by its place, its control bits and its checksums.
- Whether any technique defeats a given filter: not decided by the code.
- `dns_cache_flush`: it is called without the resolver's lock (`src/transparent/transparent.c:484`), so it is not one of the interleaved sections.
- The list of addresses with QUIC refused: whether an address is on it is a parameter of `Reflect.Handle`.
- Reading the ClientHello in pieces (`src/transparent/conn.c:75-148`), where a buffer that ends inside a record header is judged differently from its extension; independence of cutting is stated for the packet path's parser alone.
- IPv6 packets in packet mode: the code only classifies and accepts them; the IPv6 split itself is modelled.
- Counters that only grow (failures in a row, queries) are unbounded, and numbers in the decision file that do not fit their C type are read as held at the limit.
- NULL arguments, and text that is not a C string.
- A flow's state is a value stored in its table slot, and hash chains and grown arrays are sequences: `next` pointers, `realloc` moves and aliasing of entries are not modelled.
- The decision file's saving and the `dirty` flag's use by it; `dirty` itself is kept by the store.
- DnsReply.DnsParseResponse: the addresses gathered before a reply turned out malformed are not part of the result; the resolver discards them.
- `free_flows`, which only runs at shutdown.
- dns_name_is_local, dns_truncated_reply and dns_servfail_reply: they would only add easy members.
