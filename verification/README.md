# MACHETE and Darshana: a verified model

MACHETE splits the traffic between a sender and a receiver over several overlay nodes by
installing NAT rules; Darshana measures each path and alerts the sender when traffic seems
to be diverted. This project models, in Dafny, the parts of both that keep state or compute
something, and proves what they promise.

The modules, from the bottom up:

- `Wrappers`, `Seqs`, `Arithmetic`, `Reals`, `Bytes`: optional values, and the few facts about
  sequences, quotients and products that the rest cites.
- `Text`, `WireFormats`: `sprintf("%d")`, `atoi`, `strtok`, and the three text messages.
- `NatTable`: ordered rule chains; `-A` appends, `-D` removes the first equal rule, the first
  match wins. `Flows`: which flow uses which overlay node, and which commands it takes.
- `Forwarding`, `EndToEnd`: where the packets of a session go after the setup, and after the
  clean-up.
- `OverlayNode`: the node that turns rule messages into commands. `Sessions`: many senders at
  one node, one whole request a step. `Handshake`: the two-message exchange in small steps,
  with the node executing one `iptables` command at a time, and why every interleaving of it
  amounts to a run of `Sessions`. `SharedNode`: the packets of one sender meanwhile.
- `SenderSpec`, `Sender`, `Provisioning`: the sender's loops over sources and destinations.
- `LinkedList`, `MonitoredPaths`, `AlertsReceiver`: the heap lists of alerts and paths.
- `Reaction`, `Premium`: the run of the whole sender process, alerts and signal included.
- `MovingAverage`, `LatencyMonitor`, `PathMonitor`, `PropagationMonitor`, `ProbeSchedule`,
  `Traceroute`: Darshana's measurements and verdicts.
- `Checksum`, `Probing`, `Stun`, `StunAlignment`: the Internet checksum of the echo request,
  the loop that probes overlay nodes, and the address in a STUN response.

Code that updates state is modelled by methods and classes with the same fields and loops,
each proved against a specification function; the results are lemmas about those functions.

Some results are about what the code does where a reader might expect otherwise:

- End-to-end forwarding needs every row of the nested loops to use pairwise different hops:
  for distinct hops, `numDsts <= numHops`. Otherwise a packet is delivered to the
  destination of the first column with its hop (`Forwarding.AllDeliveredIff`,
  `AllDeliveredIffEnoughHops`).
- `setup_sender` registers the paths and then empties the list, so no path is monitored when
  it returns and alerts flag none (`Premium.Process.SetupSender`, `RunSession`).
- The probing loop does not close the gap a silent node leaves: it can return a node twice,
  which costs deliveries, and it never returns when two consecutive entries are silent
  (`Probing.ReturnsIffPassable`, `KeptDistinctIff`, `EndToEnd.SilentNodeMisdelivers`).
- With the configured threshold of 1 a permanent increase of the latency is reported for ever
  (`LatencyMonitor.ReportedForEverIff`).
- In path mode an AS that is missing once is lost for the baseline. A return to the first
  path is reported exactly when too few of its ASes are left, and then for ever
  (`PathMonitor.RecoveryIff`, `StaysReported`).
- The visibility quotient divides integers, so one answering hop is enough for a conclusive
  result (`Traceroute.InconclusiveIffSilent`).
- The STUN walk does not skip the padding of attributes, contrary to section 15 of RFC 5389
  (`StunAlignment.AlwaysDecodesIffAligned`), and takes lengths as signed: it goes round for
  ever exactly when it comes back to an index (`Stun.Termination`).

Inputs of the outside world are parameters: which nodes answer, what sockets deliver, the
samples that are measured, the answers of whois, the interfaces that are found, the time.

## Model

| member | source | states |
|---|---|---|
| EndToEnd.SetupDelivers | MACHETE/SCMultipath/sending_handler.c:136-199 | After the nested setup loops a segment srcs[i] -> dsts[j] goes to its own hop and leaves it as hop -> dsts[c], where c is the first column of row i with that hop, even if hops repeat; for distinct hops c = j % numHops |
| EndToEnd.TeardownForgets | MACHETE/SCMultipath/sending_handler.c:218-267 | After setup and clean-up every packet is treated as before, if none of the session's rules was there |
| EndToEnd.SenderIsASession | MACHETE/SCMultipath/sending_handler.c:136-251 | At every node the sender's setup and clean-up are the two halves of one session's requests |
| EndToEnd.ProbedNodesDeliver | MACHETE/SCMultipath/sending_handler.c:358-386 | If none but the last of the probed nodes was silent, all pairs are delivered if and only if numDsts <= numHops |
| EndToEnd.SilentNodeMisdelivers | MACHETE/SCMultipath/utils/connectivity_utils.c:122 | A silent node in front of another one leaves a double, and of two neighbouring columns that get it the second is not delivered to its destination |
| SharedNode.DeliveredMeanwhile | MACHETE/SCNodeCode/forwarding_handler.c:86-141 | In every reachable world in which a sender is outside a call, a packet of one of its live flows leaves the node for its own destination, whatever the other senders have under way |
| Forwarding.WhereFlowsGo | MACHETE/SCNodeCode/on_rules_utils.c:17-35 | Exact end-to-end forwarding for any sources, destinations and hops, repeated ones included: which rule captures which packet on the sender and on the hop |
| Forwarding.AllDeliveredIff | MACHETE/SCMultipath/sending_handler.c:139 | Every pair is delivered to its own destination if and only if no row of the nested loops uses a hop address twice |
| Forwarding.RowsDistinctMeans | MACHETE/SCMultipath/sending_handler.c:139 | What that is in terms of the picked hops: those of the columns of a row are pairwise different |
| Forwarding.AllDeliveredIffEnoughHops | MACHETE/SCMultipath/sending_handler.c:139 | For distinct hops that is numDsts <= numHops, which the code does not check |
| Forwarding.OtherPortsStopAtHop | MACHETE/SCMultipath/utils/rules_utils.c:14-32 | The sender diverts every TCP port of a destination, the hop relays only the receiver's: other ports are stranded at the hop |
| Forwarding.EmittedToItsHop | MACHETE/SCMultipath/utils/rules_utils.c:24-32 | The sender's OUTPUT chain sends each pair's packet to the hop of that pair |
| Forwarding.RoutedToItsHop | MACHETE/SCMultipath/utils/rules_utils.c:14-19 | The sender's PREROUTING chain sends each pair's packet to the same hop |
| Forwarding.FirstColumnOfDistinctHops | MACHETE/SCMultipath/sending_handler.c:139 | For distinct hops the first column with the hop of column j is j % numHops: the first numHops flows of one source land on pairwise different hops |
| Forwarding.CapturedByFirstColumn | MACHETE/SCNodeCode/on_rules_utils.c:17-26 | On the hop the first PREROUTING rule that matches the packet is that of the first column with this hop |
| Forwarding.SourceRewritten | MACHETE/SCNodeCode/on_rules_utils.c:28-35 | The hop's POSTROUTING chain gives the packet the hop's address as source |
| Flows.DoneIsFirst | MACHETE/SCMultipath/sending_handler.c:136-139 | The nested i/j loops deal with the flows in the order of the index i*numDsts+j, which also picks the hop |
| Flows.LoadExact | MACHETE/SCMultipath/sending_handler.c:139 | How many of the first n flows each hop relays, exactly |
| Flows.HopsAreBalanced | MACHETE/SCMultipath/sending_handler.c:139 | Every hop relays between floor and ceiling of flows/hops flows, and none is idle when there are at least as many flows |
| Flows.LoadCountsFlows | MACHETE/SCMultipath/sending_handler.c:139 | That load counts the flows of the plan that use the hop |
| NatTable.AppendsExtend | MACHETE/SCNodeCode/on_rules_utils.c:17-55 | -A commands extend each chain by exactly their rules, in order |
| NatTable.UndoPrefix | MACHETE/SCNodeCode/on_rules_utils.c:62-100 | Deleting the first part of what was appended leaves the rest as if it alone had been appended |
| NatTable.UndoRestoresChains | MACHETE/SCNodeCode/on_rules_utils.c:62-100 | -D of all that -A added restores the chains as sequences, if none of the rules was there |
| NatTable.UndoRestoresRules | MACHETE/SCNodeCode/on_rules_utils.c:62-100 | -D of all that -A added restores the chains as multisets, whatever was there |
| NatTable.UndoOneIff | MACHETE/SCNodeCode/on_rules_utils.c:62-71 | One -A undone by one -D gives the table back if and only if every older copy of the rule stands at the end of its chain |
| NatTable.KeepRun | MACHETE/SCNodeCode/on_rules_utils.c:17-55 | Commands about other rules neither move nor drop the rules one looks at |
| OverlayNode.SpecMeansRequest | MACHETE/SCMultipath/overlay_manager.c:111-133 | The node understands a sender's text rule as the request it was built from |
| OverlayNode.Node.ForwardPaths | MACHETE/SCNodeCode/on_rules_utils.c:10-57 | The four rules of a flow, written out, are appended to the two chains in this order |
| OverlayNode.Node.RemoveRules | MACHETE/SCNodeCode/on_rules_utils.c:59-102 | The same four rules are deleted, in the same order |
| OverlayNode.Node.ReceiveForwardingRule | MACHETE/SCNodeCode/forwarding_handler.c:112-141 | Cuts the rule with strtok, answers the type letter, appends for A and deletes for anything else |
| OverlayNode.Node.StartOverlay | MACHETE/SCNodeCode/forwarding_handler.c:86-97 | The accept loop's effect on the table is that of the requests served one after the other |
| OverlayNode.ReceiveDarshanaRule | MACHETE/SCNodeCode/forwarding_handler.c:151-162 | Cuts the seven fields of a Darshana rule |
| Handshake.ProtocolHolds | MACHETE/SCMultipath/overlay_manager.c:57-91 | Invariant of the two-message exchange over all interleavings: which messages are under way in every phase of every connection |
| Handshake.OnlyFinishedIsStuck | MACHETE/SCNodeCode/forwarding_handler.c:86-97 | No deadlock: a reachable world without a next step is one in which every session is finished |
| Handshake.EveryRunAmounts | MACHETE/SCNodeCode/forwarding_handler.c:112-141 | Refinement: every interleaving of connects, reads, answers and single iptables commands amounts to whole requests served one after the other |
| Handshake.ReturnedCallIsInPlace | MACHETE/SCMultipath/overlay_manager.c:57-91 | When setup_overlay_node returns, the caller's rules on the node are exactly those of its live flows in order, although the node answers before it acts |
| Handshake.RunsAreBounded | MACHETE/SCNodeCode/forwarding_handler.c:86-97 | Twelve moves a request at most, and a run is finished exactly at that length |
| Handshake.StuckRunRestores | MACHETE/SCNodeCode/forwarding_handler.c:86-141 | A run that cannot go on has restored the node's table |
| Sessions.TableIsBasePlusLive | MACHETE/SCNodeCode/forwarding_handler.c:86-141 | Any interleaving: each chain is, counted, the base rules plus the four rules of each live flow |
| Sessions.SessionRunsAsIfAlone | MACHETE/SCNodeCode/forwarding_handler.c:86-141 | Noninterference: seen through one session's rules the table is what that session alone would have made of it |
| Sessions.ForeignRulesStay | MACHETE/SCNodeCode/on_rules_utils.c:59-102 | Rules of no session are never moved nor lost |
| Sessions.SessionRulesInOrder | MACHETE/SCNodeCode/on_rules_utils.c:10-102 | In every reachable table a session's rules are those of its live flows in setup order |
| Sessions.FinishedRunRestores | MACHETE/SCNodeCode/on_rules_utils.c:59-102 | Once all sessions have finished the table is back, as multisets and, if the base held none of the rules, as sequences |
| Sessions.NodeSetupIsSetup | MACHETE/SCMultipath/sending_handler.c:136-183 | The commands a sender's flows call for at a node are those of its session there |
| Sender.Sender.SetSenderOwnRules | MACHETE/SCMultipath/utils/rules_utils.c:10-35 | Appends the rule from source to destination with the hop as target to PREROUTING and to OUTPUT, and nothing else |
| Sender.Sender.RemoveSenderOwnRules | MACHETE/SCMultipath/utils/rules_utils.c:37-62 | Deletes the two rules in the same order |
| Sender.Sender.SetupOverlayNode | MACHETE/SCMultipath/overlay_manager.c:57-91 | One connection changes the node's table by the four appends or the four deletions of the flow |
| Sender.Sender.Pick | MACHETE/SCMultipath/sending_handler.c:139 | The addresses picked in pass (i, j) are those of the next flow |
| Sender.Sender.SetupEachFlow | MACHETE/SCMultipath/sending_handler.c:125-201 | The nested setup loops bring up every flow on sender, nodes and path list, in order |
| Sender.Sender.CleanNodes | MACHETE/SCMultipath/sending_handler.c:218-251 | First clean-up pass: the removal messages for every flow |
| Sender.Sender.CleanOwn | MACHETE/SCMultipath/sending_handler.c:259-267 | Second clean-up pass: the sender's own rules |
| Sender.Sender.CleanRules | MACHETE/SCMultipath/sending_handler.c:208-274 | Nodes first, then the sender, with the same indices as the setup |
| SenderSpec.TeardownUndoesSetup | MACHETE/SCMultipath/sending_handler.c:136-267 | Setup then clean-up restores the tables of the sender and of every node, as multisets always and as sequences if they held none of the session's rules |
| SenderSpec.SetupOfNode | MACHETE/SCMultipath/sending_handler.c:136-183 | A node receives exactly the rules of the flows whose turn it was, in order |
| SenderSpec.CleaningOfNode | MACHETE/SCMultipath/sending_handler.c:218-246 | A node is sent exactly the deletions of those rules, in order |
| SenderSpec.RegisteredPaths | MACHETE/SCMultipath/sending_handler.c:195 | Monitored path number k is that of the k-th flow, relayed by its hop, unflagged and without times |
| Provisioning.Interfaces.GetLocalInterfaces | MACHETE/SCMultipath/utils/virtual_int_utils.c:27-38 | The interfaces found are the sources, and their number replaces the old one |
| Provisioning.EnoughIsLeast | MACHETE/SCMultipath/sending_handler.c:93 | Some number of sources gives every hop a flow, so that the loop ends, if and only if there is a destination or no hop; ceil(numHops/numDsts) is the least |
| Provisioning.Interfaces.AddSources | MACHETE/SCMultipath/sending_handler.c:93-108 | The loop ends with max(initial, ceil(numHops/numDsts)) sources, the least number that gives every hop a flow |
| Provisioning.Interfaces.SetupMacheteInfo | MACHETE/SCMultipath/sending_handler.c:79-115 | Sources stay within MAX_FLOWS, and if the recount agrees every hop relays at least one flow |
| Text.StrtokRecoversFields | MACHETE/SCNodeCode/forwarding_handler.c:121-124 | strtok gives joined fields back if and only if every field is non-empty and free of the delimiter |
| Text.Tokenizer.Next | MACHETE/SCNodeCode/forwarding_handler.c:121-124 | One strtok call returns the next token, or NULL at the end |
| Text.AtoiInvertsDecimal | MACHETE/SCMultipath/overlay_manager.c:117 | The decimal text of a port denotes the same port |
| Text.DecimalDigits | MACHETE/SCMultipath/overlay_manager.c:117 | What decimal text is: the digits of the number, units last |
| WireFormats.ForwardSpecRoundTrip | MACHETE/SCMultipath/overlay_manager.c:111-133 | The four fields of the forwarding rule come back exactly |
| WireFormats.DarshanaSpecRoundTrip | MACHETE/SCMultipath/path_monitoring.c:159-192 | The seven fields of the Darshana rule, ports included, come back exactly |
| WireFormats.AlertRoundTrip | Darshana/darshana/src/main/java/pt/ulisboa/tecnico/darshana/AlertsBroadcaster.java:37-39 | The four fields of an alert printed in Java come back from the C parser if and only if each is non-empty and free of commas |
| WireFormats.RulesFit | MACHETE/SCMultipath/overlay_manager.c:111-133 | With the repository's field sizes both rules fit in RULE_SIZE |
| LinkedList.List.InsertEnd | MACHETE/SCMultipath/dar/hijack_alert_handler.c:111-123 | The walk to the last node appends one element; the list stays finite, acyclic and null-terminated |
| LinkedList.List.Update | MACHETE/SCMultipath/dar/monitored_paths_handler.c:112-121 | A node updated in place changes one element of the list |
| MonitoredPaths.FirstRelay | MACHETE/SCMultipath/dar/monitored_paths_handler.c:136-145 | The first path from a place on with the given relay |
| MonitoredPaths.FirstHijacked | MACHETE/SCMultipath/dar/monitored_paths_handler.c:147-156 | The first path from a place on with the given flag |
| MonitoredPaths.LookupByRelay | MACHETE/SCMultipath/dar/monitored_paths_handler.c:136-145 | The pointer walk finds the first path of a relay |
| MonitoredPaths.LookupByHijackValue | MACHETE/SCMultipath/dar/monitored_paths_handler.c:147-156 | The pointer walk finds the first path with a flag |
| MonitoredPaths.UpdatePathStatus | MACHETE/SCMultipath/dar/monitored_paths_handler.c:112-121 | Sets the flag and shifts the last alert time into the previous one |
| MonitoredPaths.AnalyseHijackAlert | MACHETE/SCMultipath/dar/monitored_paths_handler.c:96-110 | Updates the first path relayed by the alert's source, otherwise by its destination, otherwise nothing |
| MonitoredPaths.ResolveMeans | MACHETE/SCMultipath/dar/monitored_paths_handler.c:96-110 | The path an alert is about is the first one relayed by its source or, if there is none, the first one relayed by its destination |
| MonitoredPaths.AnalyseMeans | MACHETE/SCMultipath/dar/monitored_paths_handler.c:96-121 | What an alert does to every entry: that path is flagged and its times shifted, all others stay |
| MonitoredPaths.RoutesNeverChange | MACHETE/SCMultipath/dar/monitored_paths_handler.c:96-121 | Alerts never change which path an alert resolves to |
| MonitoredPaths.StatusSumsUpAlerts | MACHETE/SCMultipath/dar/monitored_paths_handler.c:96-121 | After any run of alerts flag, last and previous time are the non-emptiness, last and second-to-last of the alerts that resolve to the path |
| MonitoredPaths.TimesGrow | MACHETE/SCMultipath/dar/monitored_paths_handler.c:96-121 | One more alert adds its time to those of the path it is about |
| MonitoredPaths.LaterPathsOfARelayStayClean | MACHETE/SCMultipath/dar/monitored_paths_handler.c:136-145 | Of several paths through one relay only the first is ever flagged |
| MonitoredPaths.ShowHijackedPaths | MACHETE/SCMultipath/dar/monitored_paths_handler.c:192-199 | Prints exactly the paths with the flag, once each, in list order |
| MonitoredPaths.FlaggedGrows | MACHETE/SCMultipath/dar/monitored_paths_handler.c:192-199 | One more path is printed at the end if it has the flag |
| AlertsReceiver.ParseHijackAlert | MACHETE/SCMultipath/dar/hijack_alert_handler.c:17-39 | The four comma-separated fields become the alert |
| AlertsReceiver.PrintedAlertParses | Darshana/darshana/src/main/java/pt/ulisboa/tecnico/darshana/AlertsBroadcaster.java:37-39 | An alert as Darshana prints it is parsed back with every field in its place |
| AlertsReceiver.Dar.SetupDar | MACHETE/SCMultipath/dar/alerts_receiver.c:27-35 | Empties both lists, also the paths registered before, and stores the maximum |
| AlertsReceiver.Dar.HandleClientAlert | MACHETE/SCMultipath/dar/alerts_receiver.c:89-103 | Records the alert at the end of the history and marks the path it resolves to |
| Reaction.EveryRun | MACHETE/SCMultipath/dar/alerts_receiver.c:105-137 | Any run of reads: torn down once if and only if the policy does so and max(1, max_dar_alerts) alerts arrive; history and paths have seen exactly the alerts up to that one |
| Reaction.WholeSession | MACHETE/SCMultipath/sending_handler.c:276-329 | From a session that has been set up: history, exit, number of teardowns and tables, as functions of the reaction's name, the maximum and the alerts received |
| Reaction.EveryReaction | MACHETE/SCMultipath/sending_handler.c:276-329 | Each reaction by its name: whether and when it tears down, whether it ends the process, and which alerts are recorded |
| Reaction.ReceivedAre | MACHETE/SCMultipath/dar/alerts_receiver.c:112-129 | The alerts of a run: the reads up to the first that fails, each cut into its four fields |
| Reaction.FiredRunRestores | MACHETE/SCMultipath/sending_handler.c:276-329 | After a run that fires every table is back to its contents before the setup |
| Reaction.QuietRun | MACHETE/SCMultipath/sending_handler.c:297-315 | Under a policy that does nothing no number of alerts tears the session down |
| Reaction.ShortRun | MACHETE/SCMultipath/dar/alerts_receiver.c:131-135 | Fewer alerts than needed leave the session up |
| Reaction.FatalRun | MACHETE/SCMultipath/dar/alerts_receiver.c:131-135 | The alert that completes the number is the last one recorded |
| Premium.Process.SetupSender | MACHETE/SCMultipath/sending_handler.c:384-404 | All flows up, then empty alert lists, then the connection: no path is monitored after the setup |
| Premium.Process.TeardownSender | MACHETE/SCMultipath/sending_handler.c:410-422 | Connection and alert socket closed, all rules cleaned |
| Premium.Process.HandleDarSignal | MACHETE/SCMultipath/sending_handler.c:276-329 | By the name of the reaction: shutting down and an unknown number tear down and end the process, shutting down to start again tears down, the others do nothing |
| Premium.Process.AlertMachete | MACHETE/SCMultipath/dar/alerts_receiver.c:131-135 | The signal is raised once the maximum is reached, and handled in the same thread |
| Premium.Process.HandleDarshanaClientLoop | MACHETE/SCMultipath/dar/alerts_receiver.c:105-137 | The alert loop over heap lists and tables does what the run function says |
| Premium.Process.RunSession | MACHETE/SCMultipath/sending_handler.c:384-422 | A whole session: history, number of teardowns, exit and all tables, as functions of the reaction's name, the maximum and the alerts |
| MovingAverage.ExponentialMovingAverage.Average | Darshana/darshana/src/main/java/pt/ulisboa/tecnico/darshana/utils/ExponentialMovingAverage.java:11-21 | Each call returns the moving average of all values seen so far |
| MovingAverage.EmaWithin | Darshana/darshana/src/main/java/pt/ulisboa/tecnico/darshana/utils/ExponentialMovingAverage.java:11-21 | The average stays between any bounds of its values |
| MovingAverage.EmaOfShift | Darshana/darshana/src/main/java/pt/ulisboa/tecnico/darshana/utils/ExponentialMovingAverage.java:11-21 | With alpha 1/2 the average of n values a and m values b is b less (b-a) halved m times |
| MovingAverage.FirstTwice | Darshana/darshana/src/main/java/pt/ulisboa/tecnico/darshana/RouteMon.java:316-317 | Averaging the first value twice changes nothing |
| LatencyMonitor.RouteMon.RttMeasurement | Darshana/darshana/src/main/java/pt/ulisboa/tecnico/darshana/RouteMon.java:482-497 | Judges the last sample by the average of exactly the samples before it |
| LatencyMonitor.RouteMon.MonitoringOnlyLat | Darshana/darshana/src/main/java/pt/ulisboa/tecnico/darshana/RouteMon.java:380-396 | Every verdict of latency mode is taken against the average of exactly the earlier samples |
| LatencyMonitor.RouteMon.ExecuteTrace | Darshana/darshana/src/main/java/pt/ulisboa/tecnico/darshana/RouteMon.java:307-323 | Adds a hop count, averages it, and remembers an incomplete trace |
| LatencyMonitor.RouteMon.HopCountMeasurement | Darshana/darshana/src/main/java/pt/ulisboa/tecnico/darshana/RouteMon.java:452-518 | Judges the new hop count, or always alarms after an incomplete trace |
| LatencyMonitor.RouteMon.MonitoringOnlyHop | Darshana/darshana/src/main/java/pt/ulisboa/tecnico/darshana/RouteMon.java:398-413 | Hop mode gives the verdicts of latency mode although the first count is averaged twice; after an incomplete trace all alarm |
| LatencyMonitor.VerdictBounds | Darshana/darshana/src/main/java/pt/ulisboa/tecnico/darshana/RouteMon.java:352-374 | A sample above threshold times the maximum of the earlier ones always alarms, one at or below threshold times the minimum never |
| LatencyMonitor.ShiftBaselineExact | Darshana/darshana/src/main/java/pt/ulisboa/tecnico/darshana/RouteMon.java:482-497 | After a shift from a to b the baseline of the m-th b is b-(b-a)/2^(m-1) |
| LatencyMonitor.ShiftVerdict | Darshana/darshana/src/main/java/pt/ulisboa/tecnico/darshana/RouteMon.java:352-374 | The exact verdict on that sample |
| LatencyMonitor.AlarmsArePrefix | Darshana/darshana/src/main/java/pt/ulisboa/tecnico/darshana/RouteMon.java:380-396 | Alarms after an increase come as a prefix |
| LatencyMonitor.LowThresholdNeverStops | Darshana/darshana/src/main/java/pt/ulisboa/tecnico/darshana/RouteMon.java:380-396 | With a threshold of at most 1, as configured, the alarm after an increase never stops |
| LatencyMonitor.HighThresholdStops | Darshana/darshana/src/main/java/pt/ulisboa/tecnico/darshana/RouteMon.java:380-396 | With a threshold above 1 it stops |
| LatencyMonitor.ReportedForEverIff | Darshana/darshana/src/main/java/pt/ulisboa/tecnico/darshana/RouteMon.java:380-396 | A permanent increase is reported for ever if and only if the threshold is at most 1, otherwise for a finite time from the start |
| PathMonitor.AsList.RetainAll | Darshana/darshana/src/main/java/pt/ulisboa/tecnico/darshana/utils/Utils.java:96 | Keeps in place, in order, what the other list also holds |
| PathMonitor.RetainGrows | Darshana/darshana/src/main/java/pt/ulisboa/tecnico/darshana/utils/Utils.java:96 | One more element is kept at the end if the other list has it |
| PathMonitor.RouteMon.CalcSorensen | Darshana/darshana/src/main/java/pt/ulisboa/tecnico/darshana/utils/Utils.java:74-104 | Compares the last two paths and leaves only their common part in the last one |
| PathMonitor.RouteMon.MonitoringOnlyPath | Darshana/darshana/src/main/java/pt/ulisboa/tecnico/darshana/RouteMon.java:415-430 | Every verdict of path mode, and the path that stays stored |
| PathMonitor.StoredIsIntersection | Darshana/darshana/src/main/java/pt/ulisboa/tecnico/darshana/utils/Utils.java:95-97 | After k measurements the stored baseline is the first path intersected with all k new ones |
| PathMonitor.BaselinesShrink | Darshana/darshana/src/main/java/pt/ulisboa/tecnico/darshana/utils/Utils.java:95-97 | Baselines only shrink |
| PathMonitor.CoefficientMeaning | Darshana/darshana/src/main/java/pt/ulisboa/tecnico/darshana/utils/Utils.java:92-103 | Every coefficient is in [0, 1], and 1 if and only if the two paths have the same ASes |
| PathMonitor.VerdictExactly | Darshana/darshana/src/main/java/pt/ulisboa/tecnico/darshana/RouteMon.java:256-282 | Every verdict, exactly: an alarm if and only if twice what is still in common is less than threshold times the sizes of the new and the stored path |
| PathMonitor.RecoveryIff | Darshana/darshana/src/main/java/pt/ulisboa/tecnico/darshana/RouteMon.java:415-430 | When the first path is measured again it alarms if and only if 2c < threshold*(|first|+c), with c of its ASes in all the paths since |
| PathMonitor.StaysReported | Darshana/darshana/src/main/java/pt/ulisboa/tecnico/darshana/RouteMon.java:415-430 | Once a return to the first path is reported every later one is |
| PathMonitor.NeverRecovers | Darshana/darshana/src/main/java/pt/ulisboa/tecnico/darshana/RouteMon.java:256-282 | The extreme case: after one disjoint measurement every later non-empty path alarms |
| PropagationMonitor.GetMeanMeasuresUpgraded | Darshana/darshana/src/main/java/pt/ulisboa/tecnico/darshana/MoniTools.java:88-107 | The three means of a burst of pings, and no number for an empty burst |
| PropagationMonitor.MeanGrows | Darshana/darshana/src/main/java/pt/ulisboa/tecnico/darshana/MoniTools.java:88-107 | What the means are: a single measurement is its own, and mean times count grows by each further one |
| PropagationMonitor.MeanSplits | Darshana/darshana/src/main/java/pt/ulisboa/tecnico/darshana/MoniTools.java:88-107 | Averaging keeps rtt = propagation + remaining delay and positive propagation |
| PropagationMonitor.CalcMinOtherDelay | Darshana/darshana/src/main/java/pt/ulisboa/tecnico/darshana/utils/Utils.java:54-67 | The least of the first delay and all non-zero ones |
| PropagationMonitor.VerifyPropDelay | Darshana/darshana/src/main/java/pt/ulisboa/tecnico/darshana/RouteMon.java:212-253 | The verdict on the latest measurement, determined by the measurements |
| PropagationMonitor.VerdictMeans | Darshana/darshana/src/main/java/pt/ulisboa/tecnico/darshana/RouteMon.java:212-253 | The verdict from the measurements alone: latest round trip less greatest other delay, over greatest earlier round trip less least other delay, exceeds the threshold; without a division on exactly split measurements |
| PropagationMonitor.VerdictExactly | Darshana/darshana/src/main/java/pt/ulisboa/tecnico/darshana/RouteMon.java:212-253 | On exactly split measurements least <= largest other delay, the denominator is positive and the verdict is a comparison without division |
| PropagationMonitor.NoFalseAlarm | Darshana/darshana/src/main/java/pt/ulisboa/tecnico/darshana/RouteMon.java:212-253 | A latest round trip no longer than an earlier one is never reported for a threshold of at least 1 |
| PropagationMonitor.RouteMon.MonitoringOnlyProp | Darshana/darshana/src/main/java/pt/ulisboa/tecnico/darshana/RouteMon.java:432-450 | Every verdict of propagation mode over a run of bursts |
| PropagationMonitor.AlarmNeedsNewMaximum | Darshana/darshana/src/main/java/pt/ulisboa/tecnico/darshana/RouteMon.java:432-450 | In any run an alarm comes only with a mean round trip longer than all before it |
| ProbeSchedule.FullMode | Darshana/darshana/src/main/java/pt/ulisboa/tecnico/darshana/RouteMon.java:81-84 | Step n is a trace if n mod 36 = 35, else a hop count if n mod 6 = 5, else a ping |
| ProbeSchedule.CountersAre | Darshana/darshana/src/main/java/pt/ulisboa/tecnico/darshana/RouteMon.java:585-609 | The counters after n steps in closed form |
| Traceroute.TreatOne | Darshana/darshana/src/main/java/pt/ulisboa/tecnico/darshana/MoniTools.java:170-200 | A parsed route has one node per line, NONE for a star, and numNones is the number of NONE nodes |
| Traceroute.TreatTracerouteData | Darshana/darshana/src/main/java/pt/ulisboa/tecnico/darshana/MoniTools.java:159-209 | The same for every protocol's output, with the counters reset in between |
| Traceroute.MostCompletePath | Darshana/darshana/src/main/java/pt/ulisboa/tecnico/darshana/MoniTools.java:211-238 | Selects the first route with the fewest silent hops and lists its ASes without repetition |
| Traceroute.AsesAre | Darshana/darshana/src/main/java/pt/ulisboa/tecnico/darshana/MoniTools.java:220-230 | An AS is listed if and only if some host that answered belongs to it |
| Traceroute.AsesGrow | Darshana/darshana/src/main/java/pt/ulisboa/tecnico/darshana/MoniTools.java:220-230 | Each host that answers adds its AS at the end unless it is there |
| Traceroute.InconclusiveIffSilent | Darshana/darshana/src/main/java/pt/ulisboa/tecnico/darshana/RouteMon.java:135-146 | With a threshold in [0, 1) the integer division makes the result inconclusive if and only if the route is entirely silent |
| Traceroute.SilentChoiceIsShortest | Darshana/darshana/src/main/java/pt/ulisboa/tecnico/darshana/MoniTools.java:213 | A chosen route that is entirely silent is no longer than any other |
| Checksum.Checksum | MACHETE/SCMultipath/utils/connectivity_utils.c:32-46 | The accumulation loop, the odd byte and the two folds compute the specified result |
| Checksum.WordSumGrows | MACHETE/SCMultipath/utils/connectivity_utils.c:38-41 | What is summed: 16-bit words, low byte first, and an odd last byte by itself |
| Checksum.WrappedResult | MACHETE/SCMultipath/utils/connectivity_utils.c:35-44 | For any length the result cancels the sum modulo 2^32 and is 65535 only if that is zero |
| Checksum.ChecksumIsRfc1071 | MACHETE/SCMultipath/utils/connectivity_utils.c:32-46 | For up to 131074 bytes the 32-bit sum does not wrap, two folds suffice: the result is the complement of the one's complement sum of section 1 of RFC 1071, and cancels the word sum modulo 65535 |
| Checksum.AllOnesOnlyForZeros | MACHETE/SCMultipath/utils/connectivity_utils.c:42-44 | The folded sum is zero if and only if the data are all zero |
| Checksum.RightForAllIff | MACHETE/SCMultipath/utils/connectivity_utils.c:32-46 | The checksum is right for all data of a length if and only if the length is at most 131074 |
| Checksum.SumMayWrap | MACHETE/SCMultipath/utils/connectivity_utils.c:35-39 | Of every greater length there are data whose sum wraps and whose checksum is wrong |
| Checksum.StoredChecksumVerifies | MACHETE/SCMultipath/utils/connectivity_utils.c:95 | With the checksum stored in its zeroed field the checksum of an even-length packet is 0 |
| Checksum.FillPacket | MACHETE/SCMultipath/utils/connectivity_utils.c:86-95 | The echo request is filled as specified and its checksum is 0 |
| Checksum.FilledFields | MACHETE/SCMultipath/utils/connectivity_utils.c:86-95 | Type 8, identifier and sequence number read back from the filled packet, and the counting payload |
| Probing.ProbeOverlayNodes | MACHETE/SCMultipath/utils/connectivity_utils.c:104-126 | The in-place loop returns num_hops and leaves in entry k the original k or, where that is silent, k+1 |
| Probing.ReturnsIffPassable | MACHETE/SCMultipath/utils/connectivity_utils.c:114-124 | The loop returns if and only if every silent entry is followed by one that answers, counting the one behind the last if the table has it |
| Probing.KeptAnswer | MACHETE/SCMultipath/utils/connectivity_utils.c:117-122 | Every kept entry answers |
| Probing.SilentLeavesDouble | MACHETE/SCMultipath/utils/connectivity_utils.c:122 | A silent node in front of another leaves that other one twice |
| Probing.KeptDistinctIff | MACHETE/SCMultipath/utils/connectivity_utils.c:122 | The kept nodes are pairwise different if and only if only the last one may have been silent |
| Stun.StunGetPublicIp | MACHETE/SCMultipath/utils/stun_public_ip.c:74-91 | The walk over any buffer gives the specified outcome, which is that it goes on for ever exactly when no number of turns ends it |
| Stun.EveryOutcome | MACHETE/SCMultipath/utils/stun_public_ip.c:74-91 | Every outcome from the index at which the walk is in the end |
| Stun.AddressIsText | MACHETE/SCMultipath/utils/stun_public_ip.c:86 | The text: bytes 8 to 11 of the attribute, unmasked with 21 12 A4 42, in decimal and dotted |
| Stun.DecodeInvertsEncode | MACHETE/SCMultipath/utils/stun_public_ip.c:74-91 | For every response written out in bytes, with octets combined with the magic cookie, whose earlier attributes have lengths divisible by 4, the walk returns the address as dotted decimal text |
| Stun.WalkPasses | MACHETE/SCMultipath/utils/stun_public_ip.c:78-90 | The walk passes aligned attributes of other types |
| Stun.MoreTurns | MACHETE/SCMultipath/utils/stun_public_ip.c:78-90 | A walk that has ended gives one outcome |
| Stun.Termination | MACHETE/SCMultipath/utils/stun_public_ip.c:78-90 | Exactly when the walk ends, for every buffer and start: within 197 turns or never, and never if and only if it comes back to an index |
| Stun.LowBytesEnd | MACHETE/SCMultipath/utils/stun_public_ip.c:78-90 | With every byte below 0x80 it ends within (200-i)/4 turns, rounded up |
| StunAlignment.AlwaysDecodesIffAligned | MACHETE/SCMultipath/utils/stun_public_ip.c:89 | A shape of response is always decoded if and only if the lengths before the address are multiples of 4, because the walk skips no padding |
| StunAlignment.SomeResponseIsLost | MACHETE/SCMultipath/utils/stun_public_ip.c:89 | For every other shape a well-formed response, ending with the address, that the walk does not decode |

## Left out

- Sender.Sender.SetupOverlayNode: is one step that cannot fail; `Handshake` shows that the exchange of messages amounts to that. A node that cannot be reached, and a connection that breaks, are not modelled.
- Sender.Sender.SetupEachFlow: assumes `use_stun_server == 0`. With STUN on, `srcs[i]` changes between the two installations (MACHETE/SCMultipath/sending_handler.c:160-164) and setup and clean-up no longer name the same rules.
- Sender.Sender.CleanRules: does not cover `clean_virtual_interfaces`, which follows it. The addresses in use are a fixed value of the class, as nothing changes them between setup and clean-up; the nodes' tables are a map from address to table.
- Provisioning.Interfaces.SetupMacheteInfo: requires a destination if there is a hop, without which the source loop never ends (`EnoughIsLeast`), and so does Provisioning.Interfaces.AddSources; the commands that create an interface are a step that only counts. With no hop at all the setup divides by zero, so `Sender` requires one.
- Premium.Process.SetupSender: starts with the addresses known. Looking the nodes up, probing and provisioning come before it and are modelled on their own; so do Premium.Process.RunSession and its session.
- Premium.Process.TeardownSender: does not cover `clean_virtual_interfaces` and the end of the log.
- LatencyMonitor.RouteMon.ExecuteTrace: does not keep the AS path, which `PathMonitor` is about.
- Probing.ProbeOverlayNodes: requires exactly the condition under which the loop returns (`ReturnsIffPassable`), with a fixed answer for each address; the ten attempts of one ping are one answer. A read behind a full table counts as not returning. The test of `nodes[0]` for NULL is left out: the table's entries are always allocated.
- Stun.StunGetPublicIp: gives a read beyond the 200 bytes, and a walk that never ends, as outcomes of their own. The request, the unused port and what the rest of a longer datagram holds are left out.
- PropagationMonitor.RouteMon.MonitoringOnlyProp: takes bursts of which at least one ping succeeds; the paths that this mode also records have no part in its verdicts.
- Checksum.Checksum: reads 16-bit words on a little-endian machine.
- Forwarding.WhereFlowsGo: follows the packets from the sender to the receiver. Replies, connection tracking, and the rules for the way back as to what they match, are left out; setup and clean-up do cover them.
- Reaction.EveryRun: starts when the signal handler has been registered; the alert thread is started just before that. Reads that fail and well-formed alerts are the only inputs: an alert of fewer than four fields, or an empty datagram, makes the C code dereference NULL.
- OverlayNode.Node.ReceiveForwardingRule: requires four fields in the message, and OverlayNode.ReceiveDarshanaRule seven, for the same reason.
- PathMonitor.CoefficientMeaning: requires paths without repetitions, which `mostCompletePath` delivers, and not both empty, when the quotient is not a number.
- Floating point: doubles and floats are reals, samples are positive; rounding, infinities and NaN are left out, apart from the NaN of two empty paths and a zero denominator in the propagation verdict.
- Starting and cancelling Darshana clients on sender and nodes, its threads and its full-mode decision beyond which tool runs when.
- The simulated hijack (deviated routes and latencies), geographic distances, whois, and the ping scripts.
- Sockets, raw ICMP, `getifaddrs`, `system`, logging and printing, other than what is printed by `show_hijacked_paths`.
- The registry of nodes (DepSpace) and its command text; the reactions that are marked as not implemented; `select_overlay_nodes`; `validate_number_of_hops`.
- The copies of the alert receiver under Darshana/dar and of the STUN code under MACHETE/SCNodeCode.
- The demo programs for files and greetings, log extraction, scripts and keys.
