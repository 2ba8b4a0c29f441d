# AnyMirror: a verified model of the gateway core

AnyMirror is a traffic gateway. It answers DNS queries for configured hosts with fake addresses,
intercepts TCP traffic to those addresses, rewrites it to local listeners, and decides for each
request, by a list of rules, whether to mirror, pass through, answer or reject it. This project
models five parts of it and proves what they are relied on for.

| part | files | main results |
|---|---|---|
| Rule engine | `RuleTrie`, `PathTrie`, `HostTrie`, `CidrTrie`, `Matching`, `Names`, `Rules`, `RuleMeaning`, `RuleIndex`, `Resolution`, `Explain`, `RuleSet`, `DnsHosts` | the compiled index decides exactly like the whole rule list, for every request whose path the path trie can compare, and the index sees every match if and only if it can; pruning by `min_rule_index` loses nothing; what the explain trace shows, and when its `final_match` is the decision; what each rule matches, and where a mirrored request goes, in terms of the parts of URLs |
| Fake addresses | `FakeIp`, `FakeIpRotation`, `FakeRange`, `FakeDns` | in every reachable state the two maps are inverse; allocation fails exactly when the range is used up; an address rests for a full round; every address lies where it is captured; TCP traffic is intercepted exactly if it goes to a live fake address; DNS answers lead back to the name asked for until they expire, and share an address exactly if their names are the same |
| NAT and packets | `Nat`, `Packets`, `Intercept`, `PacketLayout`, `InterceptRuns`, `InterceptCleanup` | over every interleaving, a reply is given the source its client last asked for, and a mapping lives as long as it was promised; a rewrite touches only address and port bytes; as long as clock readings reach the table in order, no packet of any run can tell whether and when the table was cleaned up; otherwise one can |
| Hot reload | `Reload`, `ReloadQueue`, `WatchRuns` | from startup through any reloads, also ones that fail half way, to shutdown, no state has an intercept backend pointing at a stopped component; the components serve the last config, and one is kept exactly if what it depends on is the same in all configs; every settled change of the file is sent, and nothing else; over every interleaving of watcher and runtime, failing reloads included, requests are neither lost nor applied out of order |
| Streams | `Sniff`, `SniffStray`, `ConnectStream` | the SNI of every well-formed ClientHello, and exactly when bytes after it can spoil the answer; a shorter payload never changes the answer; CONNECT sniffing loses, repeats and reorders no byte, in both directions |

The form follows the source. Objects that the source updates in place are classes (`Trie`,
`FakeIpStore`, `NatTable`, `Interceptor`, `TransparentRuntime`, `ConfigWatch`, `Gateway`,
`PrefixedIo`), packets
are arrays written in place, loops are loops, and each such method is proved against a
specification function about which the properties are then proved as lemmas. What the source
computes by expressions is functions.

Four properties one might expect are false of the code. For each there is an input that shows it
and the exact condition under which it holds:

- `final_match` of an explain trace need not be the rule that `resolve` picks, because later groups
  keep overwriting it (`RuleSet.FinalMatchCanDiffer`); it is exactly when no level has a winner below
  a level whose winner is not spread (`Explain.FinalMatchIsDecision`).
- A request matched by a non-direct host or URL rule need not have a host in the fake-IP flow
  (`DnsHosts.DotHostStaysOut`); it has exactly when the host normalizes
  (`DnsHosts.MatchedHostEntersFakeIp`).
- An IPv6 fake address need not differ from the network, TUN and DNS addresses, because saturating
  sums collapse at the top of the address space (`FakeRange.TopRangeHandsOutNetwork`); it does
  exactly when the network leaves three addresses above it (`FakeRange.FakeIpv6IsUnreserved`).
- The SNI reader can return a name that a ClientHello does not offer, because it does not look at
  the record length (`Sniff.StrayBytesReadAsName`); with an extensions field the answer is always
  right (`Sniff.SniOfClientHello`), without one it is wrong exactly when the bytes that follow carry
  a host name the way such a field does (`SniffStray.WrongIffNameCarried`).

## Model

| member | source | states |
|---|---|---|
| `RuleTrie.UpdatedMin` | src/rules/pool/trie.rs:286-292 | the slot becomes the smaller of its old value and the index |
| `RuleTrie.Trie.Insert` | src/rules/pool/trie.rs:56-67 | an insert walk keeps every node equal to its meaning: terminals at its key, and minimum over its subtree, for the insertions made so far |
| `RuleTrie.Trie.MarkDns` | src/rules/pool/trie.rs:110-116 | marking creates the missing nodes, sets one flag and changes no rule data |
| `RuleTrie.Trie.Visit` | src/rules/pool/trie.rs:241-267 | the pruned walk reports, in order, what a walk without any pruning would |
| `RuleTrie.Trie.MeetsMark` | src/rules/pool/trie.rs:148-160 | the walk succeeds exactly when some non-empty prefix of the key is marked |
| `RuleTrie.MinBelowIsMin` | src/rules/pool/trie.rs:286-292 | `min_rule_index` is a lower bound of the indices inserted in the subtree, and attained |
| `RuleTrie.MissingMeansBlank` | src/rules/pool/trie.rs:79-81 | where a child is missing nothing was inserted at or below it |
| `RuleTrie.PruningLosesNothing` | src/rules/pool/trie.rs:298-303 | below a skipped subtree there is nothing left to report |
| `RuleTrie.ReportsAre` | src/rules/pool/trie.rs:241-279 | a walk reports exactly the insertions on its way that are below the cutoff and match at their depth |
| `PathTrie.VisitMatches` | src/rules/pool/trie.rs:69-96 | after any inserts the visit yields exactly the indices below the cutoff with a reached prefix |
| `PathTrie.ReachedIffPrefix` | src/rules/matching.rs:16-30 | the walk agrees with `path_has_prefix` on a pair if and only if the pair is comparable; rooted pairs are |
| `HostTrie.VisitRuleMatches` | src/rules/pool/trie.rs:118-146 | the walk over reversed labels yields exactly the indices below the cutoff whose suffix test holds |
| `HostTrie.Matches` | src/rules/pool/trie.rs:148-160 | the DNS walk succeeds exactly when a marked suffix covers the host |
| `HostTrie.UnsplitRSplit` | src/rules/pool/trie.rs:103-106 | splitting into labels loses nothing, empty labels included |
| `HostTrie.LabelPrefixIsSuffix` | src/rules/pool/runtime.rs:171-183 | reversed labels are a prefix exactly when the host equals the suffix or has it after a dot, for all strings |
| `CidrTrie.VisitMatches` | src/rules/pool/trie.rs:241-267 | the bit walk yields exactly the indices below the cutoff whose network contains the address, for every width and prefix length |
| `CidrTrie.LeadingBits` | src/rules/pool/trie.rs:281-284 | the bits read by `cidr_bit` agree up to a length exactly when the block numbers agree |
| `CidrTrie.BitPrefixIsContains` | src/rules/pool/trie.rs:231-239 | a network's bits prefix an address's bits exactly when network <= address <= last address |
| `Matching.JoinPaths` | src/rules/matching.rs:32-48 | the pushes build base and suffix joined by one slash |
| `Matching.JoinedPathSeam` | src/rules/matching.rs:32-48 | a joined path is rooted, extends the trimmed base, and neither doubles nor drops the slash at the seam |
| `Names.TrimEndTakesRun` | src/rules/matching.rs:55-57 | trimming takes off exactly the run of the character put behind a text that does not end in it |
| `Names.NormalizeHostIff` | src/rules/matching.rs:55-70 | normalizing succeeds exactly on white space around a bare host and trailing dots, and gives that host with A to Z folded, character by character |
| `Names.SameNameIf` | src/traffic/shared/dns/fake_ip.rs:208-210 | two domains have the same name exactly if they agree, capitals aside, up to their trailing dots |
| `RuleIndex.Compile` | src/rules/pool/compiled.rs:58-125 | every map and trie of the index holds exactly the keys of every rule, the two address tries and the path tries are different objects |
| `RuleIndex.FileRule` | src/rules/pool/compiled.rs:68-113 | filing one more rule adds its keys to each part and disturbs no other |
| `RuleIndex.PushAll` | src/rules/pool/compiled.rs:89-96 | each listed host gains the rule index once per mention, other buckets stay |
| `RuleSet.CollectCandidates` | src/rules/pool/runtime.rs:279-318 | the collected indices are exactly the rules with a key the request meets |
| `RuleSet.MatchIsCandidate` | src/rules/pool/runtime.rs:90-131 | a matching rule is always collected, given comparable paths |
| `RuleSet.IndexSeesAll` | src/rules/pool/runtime.rs:279-318 | the index sees every match if and only if every prefix rule of the request's origin has a comparable path |
| `RuleSet.RootedIsIndexable` | src/rules/pool/runtime.rs:286-290 | rooted paths, all that http and https URLs have, are comparable |
| `RuleSet.Resolve` | src/rules/pool/runtime.rs:255-267 | the result is the decision on what the index sees, hence of the whole rule list when paths are comparable, with that rule's own resolved action |
| `RuleSet.ExplainRequest` | src/rules/pool/runtime.rs:269-277 | the trace lists exactly the candidates; the decision is read off its groups; `final_match` is it exactly when no level wins below a non-spread winner |
| `RuleSet.CompileAndResolve` | src/rules/pool/mod.rs:84-91 | for every rule list and request: compiling and resolving gives the decision on what the index sees, hence of the whole list when paths are comparable |
| `RuleSet.CompileAndExplain` | src/rules/pool/mod.rs:93-95 | for every rule list and request the trace explains what resolving returns: the same rule read off the groups, and `final_match` is it exactly when no level wins below a non-spread winner |
| `RuleSet.FinalMatchCanDiffer` | src/rules/pool/runtime.rs:523-526 | two ordinary rules for one URL on two levels: resolve returns the first, every trace ends on the second |
| `Rules.MirrorStaysBelowUpstream` | src/rules/pool/runtime.rs:343-359 | a mirrored request stays on the upstream's origin, its path is rooted and extends the upstream's, its query is the request's unless the rule names one exact URL |
| `Rules.MirrorCarriesPath` | src/rules/pool/runtime.rs:116-119 | what follows the prefix of a URL rule is what the mirrored path goes on with |
| `RuleMeaning.MirrorCarriesPath` | src/rules/pool/runtime.rs:577-587 | for URL, host and IP rules, with and without path prefix: what follows the prefix follows the upstream's path at one slash, and nothing but path, query and fragment of the upstream changes |
| `RuleMeaning.MirrorOfUnrooted` | src/rules/pool/runtime.rs:577-587 | a matching path outside the prefix only occurs with the prefix "/", and leads to the upstream's own path |
| `RuleMeaning.ActionIs` | src/rules/pool/runtime.rs:42-58 | what every other action resolves to, field by field |
| `RuleMeaning.MatchesIff` | src/rules/pool/runtime.rs:90-252 | a rule matches exactly the requests it is meant for: equal URL parts, a path below the prefix, a host at or under the pattern, an address with the network's leading bits |
| `RuleMeaning.ListedIff` | src/rules/pool/runtime.rs:279-318 | a trace lists exactly the rules whose URL, hosts or addresses the request meets, whatever else they ask for |
| `Decision.DecisionIsUnique` | src/rules/pool/runtime.rs:361-400 | highest non-spread level winner, else lowest spread one: the definition leaves one answer |
| `Decision.LevelHasWinner` | src/rules/pool/runtime.rs:383-389 | every level with a matching rule has a winner |
| `Decision.OrdinaryDecision` | src/rules/pool/runtime.rs:361-400 | without spread, the first rule of the highest matching level decides |
| `Decision.SpreadDecision` | src/rules/pool/runtime.rs:361-400 | with spread only, the first rule of the lowest matching level decides |
| `Decision.StopDecision` | src/rules/pool/runtime.rs:373-378 | a non-spread level winner above which only spread wins decides, whatever lies below |
| `Resolution.SortAndDedup` | src/rules/pool/runtime.rs:262-264 | the result is strictly ordered and has the same members |
| `Resolution.SortOrders` | src/rules/pool/runtime.rs:402-407 | sorting orders by priority descending, then index ascending |
| `Resolution.DedupIsStrict` | src/rules/pool/runtime.rs:262-264 | dropping equal neighbours of an ordered list makes the order strict |
| `Resolution.ResolveCandidates` | src/rules/pool/runtime.rs:361-400 | on any strictly ordered candidates that cover all matches the loop returns the decision; non-matching candidates have no influence |
| `Resolution.LevelEnds` | src/rules/pool/runtime.rs:373-381 | when a level ends its spread winner becomes the carried one |
| `Explain.FinalizeGroup` | src/rules/pool/runtime.rs:506-536 | a closed group shows its level; `final_match` is the last group winner |
| `Explain.ExplainCandidates` | src/rules/pool/runtime.rs:409-504 | the groups split the candidates by level, in order, with the first match as winner, later ones untried, and concatenate to the input |
| `Explain.GroupsConcatenate` | src/rules/pool/runtime.rs:409-504 | the groups lose, add and reorder no candidate |
| `Explain.ShownIs` | src/rules/pool/runtime.rs:440-490 | each candidate is shown with its result, or untried exactly if an earlier one of its level matched |
| `Explain.GroupWinnerWins` | src/rules/pool/runtime.rs:506-536 | a group winner wins its level among all rules |
| `Explain.ExplainedReflects` | src/rules/pool/runtime.rs:409-536 | the groups show exactly the level winners of all rules, from the highest level down |
| `Explain.PickDecides` | src/rules/pool/runtime.rs:506-536 | the winner of the first stopping group, else of the last continuing one, is the decision |
| `Explain.WinnerAfterStopIff` | src/rules/pool/runtime.rs:523-532 | a winner follows a stopping group if and only if some level of the rules wins below a non-spread winner |
| `Explain.FinalMatchIsDecision` | src/rules/pool/runtime.rs:523-526 | `final_match` is the decision if and only if no level of the rules wins below a non-spread winner |
| `Explain.FinalMatchIsLowest` | src/rules/pool/runtime.rs:523-526 | `final_match` is the winner of the lowest level that has one |
| `DnsHosts.MatchesDnsHost` | src/rules/pool/runtime.rs:320-327 | holds exactly when the query names a host, whatever its case, trailing dots and blanks, that some non-direct, non-IP rule's matcher covers |
| `DnsHosts.SpellingDoesNotMatter` | src/rules/pool/runtime.rs:320-327 | two spellings of one host are both wanted or both not |
| `DnsHosts.OriginHostIsWanted` | src/rules/pool/compiled.rs:149-179 | a non-direct URL rule wants exactly the host its URL names |
| `DnsHosts.HostRuleWants` | src/rules/pool/compiled.rs:149-179 | what a non-direct host rule wants; direct and IP rules want nothing |
| `DnsHosts.DnsPartsAre` | src/rules/pool/compiled.rs:149-179 | the DNS parts of the index cover exactly the hosts some rule wants |
| `DnsHosts.MatchedHostEntersFakeIp` | src/rules/pool/runtime.rs:320-327 | the host of a request matched, and so of one resolved, by a non-direct, non-IP rule enters the fake-IP flow if and only if it normalizes |
| `DnsHosts.DotHostStaysOut` | src/rules/matching.rs:55-62 | the host "." is routed by an exact rule and does not enter |
| `FakeIp.FirstFree` | src/traffic/shared/dns/fake_ip.rs:137-158 | the step found is free and all earlier ones are taken; none found means all are taken |
| `FakeIp.AllocateNext` | src/traffic/shared/dns/fake_ip.rs:137-181 | the cyclic scan terminates with the first free address from the clamped cursor, and the cursor after it |
| `FakeIp.PruneExpired` | src/traffic/shared/dns/fake_ip.rs:183-206 | exactly the entries that expire after now stay, in both maps, whatever the order of removals |
| `FakeIp.FakeIpStore.AllocateOrRefreshIpv4` | src/traffic/shared/dns/fake_ip.rs:56-85 | prunes both families, then refreshes a live entry or maps the first free address; until it expires the address leads back to the name asked for, and of the addresses in use before it is the one of that name and of no other |
| `FakeIp.FakeIpStore.AllocateOrRefreshIpv6` | src/traffic/shared/dns/fake_ip.rs:87-116 | the same for IPv6 |
| `FakeIp.FakeIpStore.ResolveDomain` | src/traffic/shared/dns/fake_ip.rs:118-134 | a domain is returned exactly if it holds the address and has not expired |
| `FakeIp.AllocateAnswers` | src/traffic/shared/dns/fake_ip.rs:56-116 | the promise of an answer about the name asked for, in its characters |
| `FakeIp.FirstAnswerIsFirst` | src/traffic/shared/dns/fake_ip.rs:41-54 | the first address ever handed out is the first of the range |
| `FakeIp.PrunedOk` | src/traffic/shared/dns/fake_ip.rs:183-206 | pruning keeps the maps inverse and within the range |
| `FakeIp.AllocateKeepsOk` | src/traffic/shared/dns/fake_ip.rs:56-116 | so does allocating or refreshing |
| `FakeIp.RunOk` | src/traffic/shared/dns/fake_ip.rs:56-134 | in every reachable state the two maps are inverse bijections within the range |
| `FakeIp.NoSharing` | src/traffic/shared/dns/fake_ip.rs:56-134 | two domains never share an address |
| `FakeIp.ScanFailsIffFull` | src/traffic/shared/dns/fake_ip.rs:137-181 | the scan finds nothing exactly when as many addresses are mapped as the range has |
| `FakeIp.AllocationFailsIff` | src/traffic/shared/dns/fake_ip.rs:68-74 | allocation fails exactly for a domain without live entry when the range is empty or the live entries fill it |
| `FakeIp.RefreshKeepsAddress` | src/traffic/shared/dns/fake_ip.rs:68-71 | an unexpired domain keeps its address, and an answer can be looked up exactly until it expires |
| `FakeIpRotation.VisitsMean` | src/traffic/shared/dns/fake_ip.rs:144-157 | a visited address is the one handed out or is taken |
| `FakeIpRotation.TrailSteady` | src/traffic/shared/dns/fake_ip.rs:234-240 | over every run the cursor moves one address at a time |
| `FakeIpRotation.AddressRests` | src/traffic/shared/dns/fake_ip.rs:144-157 | over every run, between two visits to an address every other address is handed out or found occupied |
| `FakeRange.FakeIpv4IsWellPlaced` | src/traffic/shared/dns/fake_ip.rs:212-224 | for all ranges: in the capture range and filter window, never network, TUN or DNS address |
| `FakeRange.FakeIpv6IsCaptured` | src/traffic/windivert/filters.rs:73-90 | for all ranges: in the capture range and filter window |
| `FakeRange.FakeIpv6IsUnreserved` | src/traffic/tun/dns_hijack/mod.rs:32-44 | no fake address is reserved if and only if the network leaves three addresses above it; prefixes up to 126 do |
| `FakeRange.TopRangeHandsOutNetwork` | src/traffic/shared/dns/fake_ip.rs:242-260 | the range holding only the last address hands out its own network address |
| `FakeRange.FakeTrafficIsIntercepted` | src/traffic/shared/intercept/tcp.rs:309-340 | in every reachable store, a TCP packet to a live fake address on any other port is redirected and recorded |
| `FakeRange.HandleRequest` | src/traffic/shared/intercept/tcp.rs:309-376 | with the fake DNS store at hand: a packet is intercepted if and only if it is TCP, goes to neither local listener, into the family's range and to an address that is live in the store; otherwise bytes, tables and direction are unchanged |
| `FakeRange.RequestModifiedIff` | src/traffic/shared/intercept/tcp.rs:309-340 | the same over every reachable store |
| `FakeRange.Ipv4PoolSize` | src/traffic/shared/dns/fake_ip.rs:212-224 | an IPv4 range hands out all its addresses but four |
| `FakeRange.Ipv6PoolSize` | src/traffic/shared/dns/fake_ip.rs:242-260 | an IPv6 range hands out all but three, unless it ends the address space |
| `FakeRange.RangeLayout` | src/traffic/tun/dns_hijack/mod.rs:32-44 | where TUN, DNS and the filter windows lie in a range with room for them |
| `FakeDns.BuildFakeAnswers` | src/traffic/shared/dns/mod.rs:197-227 | whatever rules are live at each query: answers exactly the wanted A and AAAA queries, in order; fails only on an unusable name or an exhausted family; with queries served before the first can expire, every address leads back to the name asked for until then, and two answers of a family share one exactly if their names are the same |
| `FakeDns.WantedIff` | src/traffic/shared/dns/mod.rs:203-221 | a query is wanted exactly if it is A or AAAA for a host, however spelled, that some rule wants |
| `FakeDns.AnswerQuery` | src/traffic/shared/dns/mod.rs:203-221 | one more answer leaves earlier answers valid in both families |
| `FakeDns.HoldsThroughAllocate` | src/traffic/shared/dns/mod.rs:203-221 | an allocation for any domain keeps an unexpired mapping |
| `Nat.NatTable.Upsert` | src/traffic/shared/nat.rs:61-85 | the client's entry is replaced, no other changes |
| `Nat.NatTable.Touch` | src/traffic/shared/nat.rs:87-110 | a live entry is prolonged and returned, an expired one removed |
| `Nat.NatTable.Prune` | src/traffic/shared/nat.rs:112-123 | exactly the live entries stay, and the number removed is returned |
| `Nat.TouchAnswersIff` | src/traffic/shared/nat.rs:87-110 | a touch answers exactly while the entry has not expired, prolongs it, and changes no other entry |
| `Nat.CleanupIsUnobservable` | src/traffic/shared/nat.rs:87-123 | with non-decreasing times every touch answers as in the run without cleanups |
| `Nat.AnyTwoCleanupSchedules` | src/traffic/shared/nat.rs:38-59 | two runs that differ only in cleanups answer alike |
| `Nat.LateClockIsObservable` | src/traffic/shared/nat.rs:87-123 | the order of times is needed |
| `InterceptCleanup.CleanupIsInvisible` | src/traffic/shared/nat.rs:38-59 | for every interleaving at non-decreasing times, each packet is passed or modified, byte for byte, as in the run without the cleanups |
| `InterceptCleanup.StepAgrees` | src/traffic/shared/intercept/tcp.rs:294-453 | tables with the same live entries do the same to a packet and agree again after it |
| `InterceptCleanup.OutcomesFollowRun` | src/traffic/shared/intercept/tcp.rs:294-453 | these outcomes are those of the runs above: one more packet meets the tables the run has led to |
| `Packets.CopyInto` | src/traffic/shared/family/v4.rs:28-34 | the loop overwrites the given bytes and no other |
| `Packets.SameHeaders` | src/traffic/shared/intercept/tcp.rs:219-241 | bytes outside addresses and ports decide family, header lengths and flags |
| `Packets.RedirectedParses` | src/traffic/shared/family/v4.rs:28-30 | parsing a redirected packet gives the new destination and otherwise the same context |
| `Packets.ResourcedParses` | src/traffic/shared/family/v6.rs:36-38 | parsing a packet with rewritten source gives that source and otherwise the same context |
| `PacketLayout.Ipv4PacketReads` | src/traffic/shared/intercept/tcp.rs:210-266 | every IPv4 TCP packet, given byte by byte with any options and payload, is read for what it is |
| `PacketLayout.Ipv6PacketReads` | src/traffic/shared/intercept/tcp.rs:210-266 | the same for every IPv6 TCP packet without extension headers |
| `PacketLayout.OnlyTcpParses` | src/traffic/shared/family/v4.rs:36-43 | other versions, other protocols and cut-off headers do not parse |
| `Intercept.Interceptor.HandleRequestPacket` | src/traffic/shared/intercept/tcp.rs:294-376 | modified if and only if it is TCP to neither local listener, into the family's range and owned; then bytes, tables and direction flag, otherwise nothing changes |
| `Intercept.Interceptor.HandleDnsTcpPacket` | src/traffic/shared/intercept/tcp.rs:378-416 | modified if and only if it is TCP to port 53 and not from the local DNS port; otherwise nothing changes |
| `Intercept.Interceptor.HandleResponsePacket` | src/traffic/shared/intercept/tcp.rs:418-453 | modified if and only if it comes from a local listener and its client has an unexpired mapping; otherwise bytes and direction are unchanged |
| `InterceptRuns.EntryAfter` | src/traffic/shared/intercept/tcp.rs:294-453 | after any step an entry is the step's own redirect or has its old destination |
| `InterceptRuns.TableRemembersLast` | src/traffic/shared/intercept/tcp.rs:294-453 | over every interleaving an entry names its client's last redirected destination |
| `InterceptRuns.ResponseRestoresDestination` | src/traffic/shared/intercept/tcp.rs:418-453 | a rewritten response has as source exactly that destination and is otherwise parsed the same |
| `InterceptRuns.ResponseTouchesOnlySource` | src/traffic/shared/intercept/tcp.rs:448-451 | it changes only source address and port bytes |
| `InterceptRuns.RedirectGoesToLocalPort` | src/traffic/shared/intercept/tcp.rs:336-340 | a redirect changes only destination address and port bytes, to the client's own address and the local port |
| `InterceptRuns.RoundTrip` | src/traffic/shared/intercept/tcp.rs:294-453 | request and reply compose to a conversation with the original destination, whatever happens in between, while the mapping is alive |
| `InterceptRuns.RedirectIsAlive` | src/traffic/shared/intercept/tcp.rs:455-461 | a redirect promises its mapping a lifetime |
| `InterceptRuns.ReplyWindow` | src/traffic/shared/intercept/tcp.rs:455-461 | the first reply is rewritten exactly within 300 seconds, or 30 if the redirected packet was closing |
| `InterceptRuns.ReplyProlongs` | src/traffic/shared/intercept/tcp.rs:437-451 | a rewritten reply starts the lifetime anew |
| `InterceptRuns.MappingSurvives` | src/traffic/shared/nat.rs:61-123 | a mapping lives as long as promised through any other traffic and cleanups; only a closing reply or a new redirect of that client can change that |
| `InterceptRuns.Conversation` | src/traffic/shared/intercept/tcp.rs:294-453 | the round trip from conditions on the run alone: every reply before the lifetime ends is restored |
| `InterceptRuns.DnsConversation` | src/traffic/shared/intercept/tcp.rs:378-453 | for all endpoints, a DNS-over-TCP opening packet and its answer, byte by byte |
| `InterceptRuns.LiveMappingIsRedirected` | src/traffic/shared/intercept/tcp.rs:309-340 | a packet to a live address in the capture range is redirected to the TLS or the proxy port and recorded |
| `Reload.StartTransparentComponents` | src/gateway/runtime.rs:475-514 | which components are started, in order, up to the first failing start; every state is safe, and success serves the config |
| `Reload.StartupIsSafe` | src/gateway/runtime.rs:475-514 | the intercept backend is started last, when all it points at runs |
| `Reload.TransparentRuntime.Reload` | src/gateway/runtime.rs:398-472 | the exact history of starts and stops, up to the first failing start; every state of it is safe; succeeds exactly when every planned start does, and then serves the new config, with each component kept if the config fields it depends on are unchanged and younger otherwise |
| `Reload.ReloadIsSafe` | src/gateway/runtime.rs:398-472 | whichever starts fail, no state of a reload has a backend pointing at a stopped component |
| `Reload.FailedReloadHasNoBackend` | src/gateway/runtime.rs:411-415 | a reload that fails has stopped the intercept backend and not started it again |
| `Reload.ReloadLeads` | src/gateway/runtime.rs:398-472 | the single starts and stops lead to new instances of the planned components and leave the others |
| `Reload.TransparentRuntime.Shutdown` | src/gateway/runtime.rs:383-396 | the exact history of stops, intercept backend first; every state is safe and everything ends stopped |
| `Reload.WholeRunIsSafe` | src/gateway/runtime.rs:383-514 | from startup through any reloads to a last reload with any failing starts, or to shutdown, every state is safe |
| `Reload.OtherOrderIsUnsafe` | src/gateway/runtime.rs:383-396 | stopping the DNS server before the backend would be unsafe |
| `Reload.ReloadsServe` | src/gateway/runtime.rs:398-472 | after any sequence of reloads the components serve the last config |
| `Reload.SurvivesIffUnaffected` | src/gateway/runtime.rs:516-541 | a component is the same instance at the end if and only if no reload on the way had to restart it |
| `Reload.KeptIffSame` | src/gateway/runtime.rs:516-541 | over every sequence of reloads each component is kept exactly if listen address, TLS port, DNS options or all of these and the backend are the same in all configs, and is younger otherwise |
| `Reload.OtherChangesRestartNothing` | src/gateway/runtime.rs:516-541 | configs that agree in these, whatever their plugins, start and stop nothing |
| `Reload.TlsPortIs` | src/gateway/runtime.rs:537-541 | the TLS port is the one set, else the port after the HTTP port |
| `Reload.ReloadOrder` | src/gateway/runtime.rs:408-466 | the starts and stops of a reload that changes everything, in order |
| `Reload.StartupOrder` | src/gateway/runtime.rs:475-514 | DNS, HTTP, TLS, intercept backend |
| `Reload.ShutdownOrder` | src/gateway/runtime.rs:383-396 | intercept backend, DNS, HTTP, TLS |
| `Reload.NeverOlder` | src/gateway/runtime.rs:398-472 | a reload keeps an instance or replaces it by a younger one |
| `ReloadQueue.ConfigWatch.Turn` | src/watch.rs:46-219 | one turn of the debounce loop: what is remembered and what is sent; a request that cannot be sent uses up no generation |
| `ReloadQueue.LoadTimesIncrease` | src/watch.rs:46-219 | over every run no version of the file is loaded twice |
| `ReloadQueue.LoadNeedsTwoSightings` | src/watch.rs:46-219 | a version is loaded only after an earlier poll saw it |
| `ReloadQueue.SentAreNumbered` | src/watch.rs:145-198 | the n-th request carries generation n, saturating at the top |
| `WatchRuns.ChangeIsSent` | src/watch.rs:108-217 | a new version of the file is sent, once, with its config and the next generation, on the first poll after its first sighting that finds it settled and can load it |
| `WatchRuns.SentComesFromPoll` | src/watch.rs:108-217 | every request sent has its own poll, settled, loadable, of a time seen before, and carries that poll's config |
| `WatchRuns.ChangeIsQueued` | src/watch.rs:145-198 | in every run of watcher and runtime such a version is queued behind everything before it and is the last config sent |
| `ReloadQueue.Gateway.WatchTurn` | src/watch.rs:96-219 | a turn of the watcher is a step of the run, at whatever point of the runtime's loop |
| `ReloadQueue.Gateway.TakeLatest` | src/gateway/runtime.rs:359-372 | with the watcher sending meanwhile: the queue is found empty, the newest request is in hand and the skipped ones are counted |
| `ReloadQueue.Gateway.ApplyRequest` | src/gateway/runtime.rs:233-260 | discarding a stale request or reloading is a step of the run; also after a failing reload the starts and stops of the runtime are those of the run |
| `ReloadQueue.Gateway.ServeReload` | src/gateway/runtime.rs:220-260 | a round of the serve loop goes on with the run and ends idle or failed |
| `ReloadQueue.RunInv` | src/gateway/runtime.rs:220-260 | over every interleaving of watcher turns and runtime steps: numbering, counts, safe starts and stops, components that serve the active config while the runtime goes on, and no running backend after a failed reload |
| `ReloadQueue.RunIsSafe` | src/gateway/runtime.rs:220-260 | at no moment of any run, a failed reload included, does a running backend point at a stopped component |
| `ReloadQueue.StaleIffSaturated` | src/gateway/runtime.rs:233-240 | a request is discarded as stale if and only if the active generation is 2^64-1 |
| `ReloadQueue.NeverStale` | src/gateway/runtime.rs:233-240 | so never in the first 2^64-1 requests |
| `ReloadQueue.GenerationOnlyGrows` | src/gateway/runtime.rs:259-260 | the active generation grows exactly when a request is applied |
| `ReloadQueue.NothingLost` | src/gateway/runtime.rs:220-260 | sent = applied + skipped + queued + in hand, the components serve the active config until a reload fails, and an idle runtime with empty queue has the last config sent |
| `ReloadQueue.NeverStuck` | src/gateway/runtime.rs:220-260 | in every phase the runtime has a step to take or waits for a request |
| `Sniff.ExtractTlsSni` | src/traffic/shared/sniff.rs:15-60 | the cursor loop returns the specified name if it is UTF-8 |
| `Sniff.SniOfPrefix` | src/traffic/shared/sniff.rs:15-60 | on any prefix of any payload the answer is nothing or the answer on the whole |
| `Sniff.NameNeedsClientHello` | src/traffic/shared/sniff.rs:15-22 | only a handshake record with a ClientHello, complete up to its random, has a name |
| `Sniff.SniOfClientHello` | src/traffic/shared/sniff.rs:15-60 | for every well-formed ClientHello and whatever follows it: with an extensions field, the name of the first server_name extension whose first entry is a host_name, or nothing; without one, what the following bytes read as such a field give; right if and only if there is a field or those bytes give nothing |
| `Sniff.StrayBytesReadAsName` | src/traffic/shared/sniff.rs:31-34 | twelve bytes after any message without extensions give a name it does not offer |
| `SniffStray.FieldNamesIff` | src/traffic/shared/sniff.rs:31-58 | bytes read as an extensions field give a name if and only if they encode a list of extensions without host name and then, more than three bytes before the announced end, one that opens with that host name |
| `SniffStray.WrongIffNameCarried` | src/traffic/shared/sniff.rs:31-58 | after a message without the field the answer is wrong if and only if the following bytes encode such a list |
| `Sniff.ScanShift` | src/traffic/shared/sniff.rs:36-57 | the extension loop looks only at bytes from its offset on |
| `ConnectStream.SniffConnectStream` | src/gateway/handlers/proxy_entry.rs:135-160 | for every way reads are split: the first two bytes, or all if fewer, the rest left in the stream; TLS exactly if they are 0x16 0x03, or 0x16 alone |
| `ConnectStream.ClientHelloOpensTls` | src/gateway/handlers/proxy_entry.rs:155-160 | every stream that opens with a well-formed ClientHello is TLS |
| `ConnectStream.PrefixedIo.PollRead` | src/gateway/handlers/proxy_entry.rs:193-211 | what a poll delivers plus what is left is what was left before; end of stream only when nothing is |
| `ConnectStream.ReadAll` | src/gateway/handlers/proxy_entry.rs:193-211 | for every sequence of buffer sizes: a reader that meets the end of stream has the whole stream, each productive poll before brings a byte, and more of them than bytes meet the end |
| `ConnectStream.ProxyTunnel` | src/gateway/handlers/proxy_entry.rs:162-175 | for every order of turns: upstream receives the peeked bytes and then the whole stream, the client the whole of upstream's |
| `ConnectStream.HandleUpgradedConnect` | src/gateway/handlers/proxy_entry.rs:84-133 | on both paths what is received is the client's own stream from its first byte, and all of it once the end is met, which the tunnel always does and the TLS reader does if it polls often enough |

## Left out

- RuleTrie.Trie: the three node types are one class, and nested child maps are one map keyed by the path to a node, so the ownership of boxed nodes is not captured.
- PathTrie.VisitMatches: paths are sequences of characters rather than UTF-8 bytes; the bytes singled out are whole characters, so the comparisons agree.
- RuleIndex.Compile: the loop over the rules is a recursion, one rule per call.
- Resolution.SortAndDedup: the library's unstable sort is an insertion sort; both give the one strictly ordered list of the same members.
- Explain.ExplainCandidates: mismatch reasons and the descriptive fields of a trace entry are not modelled, only which rule, whether tried and whether matched.
- Rules: URL parsing, `set_path` normalization and parsing an address out of a host are taken as given fields of the request.
- Sniff.ExtractTlsSni: the UTF-8 test is a parameter; a ClientHello split over several TLS records is not a well-formed message here. `extract_http_host` is not modelled.
- FakeIp.FakeIpStore: one `Pool` serves both families, instants are natural numbers, and the order in which expired entries are removed is arbitrary.
- FakeRange.FakeIpv6IsCaptured: `network | host_mask` is network plus mask, the same since a network address has no host bits.
- FakeDns.BuildFakeAnswers: building a record is a test of the name; upstream resolution and message encoding are not modelled.
- Intercept.Interceptor.HandleRequestPacket: whether the fake store owns the destination is a parameter; `FakeRange.HandleRequest` asks the store. Log output and checksums are not modelled.
- PacketLayout.Ipv6PacketReads: IPv6 extension headers in front of TCP are not looked through, as in the source.
- InterceptRuns.RoundTrip: each handler's access to the table is one step, as the lock makes it; a poisoned lock is not modelled.
- Reload.TransparentRuntime.Reload: configs without `tls_port` on port 65535 are excluded, where the source overflows; plugin reloading is not modelled.
- Reload.StartTransparentComponents: what dropping the components of a failed startup does is not modelled.
- Reload: whether the local fake DNS listener runs after a reload is not claimed, because the plan compares only the DNS options; the explicit-mode serve loop is not modelled.
- ReloadQueue.ConfigWatch.Turn: the warning about non-reloadable changes and the replacement of the live rules are not modelled.
- ReloadQueue.Gateway.ApplyRequest: a reload is one step of the interleaving; watcher turns during it could only add to the queue, which it does not look at.
- ReloadQueue.Gateway.ServeReload: explicit mode has its own loop, which is not modelled; polled configs leave room for the TLS port, as for reloads.
- ConnectStream.ProxyTunnel: I/O errors, a failing upstream connection among them, end the connection and are not modelled.
- The QUIC drop path, the TUN user-space stack, WinDivert handles and filter text are not modelled.
- HTTP forwarding, TLS termination, certificates, the plugin engine, YAML loading and config validation, observability and worker supervision are not modelled.
