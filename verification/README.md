# Blackout Kit: a verified model of its stateful parts

Blackout Kit connects a machine through proxy and tunnel engines. Most of it is command-line
text and subprocess plumbing; the parts modelled here are the ones that hold state and make
promises about it:

* **The Linux kill switch.** One firewall policy is compiled to an nftables table and to
  iptables/ip6tables chains (`FirewallPolicy`, `Iptables`). `Kernel` gives the firewall tables
  and the commands on them, each with the precondition the kernel puts on it. A command may
  also be disturbed: lost before it ran, or cut off after it took effect but before it reported.
  `LinuxNetwork` is the install and removal protocol on top, command by command.
* **The binary install transaction** (`Downloader`) and the trust-on-first-use pins
  (`BinManifest`), with a fault possible at every file operation, and an interrupt at every copy,
  move, record and merge.
* **Events**: the recursive sanitizer (`Sanitizer`), the record (`Events`), the bounded bus
  and the rotating journal (`EventBus`), the windowed merge of both (`RecentEvents`), and one
  client of the live stream as a state machine over interleaved steps (`EventBridge`).
* **The connection lifecycle**: engine stacks (`EngineStack`), the staged acquisition with
  its one `finally` (`ConnectionService`, on stretches of code that an exception can cut short,
  `Plans`), and the environment overrides (`EnvOverrides`).
* **The anomaly detector** (`AnomalyDetector`), **the bandwidth history**
  (`BandwidthHistory`) and **the latency percentiles** (`Benchmarks`).

`Sequences`, `OrderedDict` and `Windows` hold what these share: Python slices, ordered
dictionaries, and windows on ascending sequences. Code that changes state step by step is
written as methods, on a class where the original has an object; each method is tied to a
function of the old state, and the lemmas are about those functions. Subprocesses, files, JSON,
hashes, clocks and injected callables are parameters or oracles.

## Where the code does less than it promises

Each of these has a lemma or a contract with the exact condition under which it happens, and one
with a concrete failing case.

* Removing the iptables chain reports success over a chain that is still there exactly when the
  binary is not found, or the flush reported a failure and the deletion did not take effect
  (`LinuxNetwork.RemoveIptablesChain`, `LinuxNetwork.SurvivingChainIsReportedRemoved`,
  `LinuxNetwork.MissingBinariesHideKillSwitch`). The nftables table likewise: success over a table
  that is still there exactly when `nft` is not found or the probe for the table was disturbed
  (`LinuxNetwork.DeleteNftTable`).
* An iptables install over an earlier one only checks that its jump is somewhere in OUTPUT. It
  enforces the policy exactly when no rule in front of that jump contradicts it, by a verdict of its
  own or by returning to the policy of OUTPUT (`LinuxNetwork.InstalledEnforcesIff`,
  `LinuxNetwork.CatchAllInFrontIff`, `LinuxNetwork.ForeignRuleInFrontWins`).
* An iptables install that fails over an earlier one takes the earlier one away as well, always when
  its cleanup is not disturbed
  (`LinuxNetwork.ApplyIptablesFirewall`, `LinuxNetwork.FailedReinstallOpens`).
* If the probe for a previous nftables table is disturbed, that table is not deleted, and the new
  rules are loaded behind the old ones. They take effect exactly when the old ones never contradict
  them (`FirewallPolicy.StaleNftRulesIff`, `LinuxNetwork.StaleNftInstallReportsSuccess`).
* The nftables table lets DHCP ports through over IPv6 as well; ip6tables does not
  (`Iptables.BackendsAgreeExceptOnIpv6Dhcp`, `Iptables.Ipv6DhcpGapExists`).
* A failed install restores every file, except a provenance file whose own backup copy was cut
  short: the partial copy is then put in its place. The pins are not restored
  (`Downloader.PromoteStagedOutputs`, `Downloader.CutBackupReplacesProvenance`).
* An interrupted install is not rolled back: the outputs moved so far stay
  (`Downloader.PromoteStagedOutputs`, `Downloader.InterruptLeavesMix`).
* A provenance file that cannot be read during a merge is replaced by the new records alone, and
  the install succeeds (`Downloader.MergedRecordIff`, `Downloader.UnreadProvenanceIsLost`).
* A manifest that cannot be read is replaced, and the pins that the legacy copy does not hold are
  lost, by a `verify` as well (`BinManifest.VerifyKeepsPinIff`, `BinManifest.VerifyCanErasePins`).
* The merge of journal and history looks at windows of both, and applies its type filter and
  skips unusable lines only behind them (`RecentEvents.MergedRecentIsExactIff`,
  `RecentEvents.OneUsableLineIsMissed`).
* A ready-made `Event` is published as it is, sanitized or not; what is journalled then reads
  back unchanged exactly when it is in normal form (`Events.AcceptedIsNormalIff`,
  `Events.RoundTrip`, `Events.ReadyEventKeepsSecret`).
* Only the details of an event are scrubbed. Its summary, engine, source and identifier keep a proxy
  URI exactly when its scheme is in front of the cut (`Events.UnscrubbedTextsIff`,
  `Events.SummaryKeepsUri`).
* The replay of the live stream reads each event back. Unless something else closes it, the handler
  ends with the replay exactly when the window holds an event without a usable type, and then its
  client never gets the stream (`EventBridge.ReadBackIff`,
  `EventBridge.UnreadableEventEndsHandlerIff`, `EventBridge.EmptyTypeEndsHandler`).
* An interrupt during an engine start leaves the engines started before it running; and an `emit`
  callback that raises while the `finally` of a connection runs skips the releases that are still
  to come, the proxy and the kill switch among them (`ConnectionService.LeakIff`,
  `ConnectionService.ProxyIsReleased`, `ConnectionService.KillSwitchIsBalanced`, `ConnectionService.InterruptedStartLeaks`,
  `ConnectionService.KillSwitchCanStayOn`).
* An environment override that cannot be set leaves the earlier ones of the same block in place
  (`EnvOverrides.FailedEntryLeaks`, `EnvOverrides.HalfEnteredBlockLeaks`).

## Model

| member | source | states |
|---|---|---|
| FirewallPolicy.BuildNftRules | blackoutkit/linux_network.py:209-230 | The table built for any endpoint list accepts a packet exactly when it is established, leaves by the loopback or tunnel interface, goes to a local network, is a DHCP exchange, or goes to an endpoint's address and port over TCP or UDP; it drops every other packet |
| FirewallPolicy.NftMeaning | blackoutkit/linux_network.py:209-230 | First-match reading of the nftables rules against that policy, for all endpoints and packets |
| FirewallPolicy.AppendedNftRulesAreDead | blackoutkit/linux_network.py:233-256 | Rules loaded behind a complete set of owned rules change no verdict |
| FirewallPolicy.StaleNftRulesIff | blackoutkit/linux_network.py:233-256 | Loaded behind any rules at all, the new ones enforce the policy if and only if no rule in front ever decides a packet against it |
| FirewallPolicy.StaleInstallIff | blackoutkit/linux_network.py:233-256 | If the rules in front are those of an earlier install, that is so if and only if it was for the same endpoints |
| Iptables.ChainMeaning | blackoutkit/linux_network.py:265-288 | The finished owned chain decides every packet of its family by the policy, with DHCP for IPv4 only, in any table and whatever foreign matches mean |
| Iptables.BackendsAgreeExceptOnIpv6Dhcp | blackoutkit/linux_network.py:209-288 | The two compilations give a packet the same verdict if and only if it is not an otherwise dropped IPv6 DHCP exchange; on those nftables accepts and ip6tables drops |
| Iptables.Ipv6DhcpGapExists | blackoutkit/linux_network.py:224-225 | Such a packet exists whatever the endpoints are, unless they fill the address space in front of fc00::/7 |
| Iptables.FateDependsOnEndpointSet | blackoutkit/linux_network.py:154-165 | Order and repetition of endpoints do not change any verdict, in either backend |
| Iptables.AddingEndpointOpensExactlyIt | blackoutkit/linux_network.py:281-285 | One more endpoint opens its address and port over TCP and UDP and changes no other verdict, in either backend |
| Iptables.UnfinishedChainIsHarmless | blackoutkit/linux_network.py:286-288 | An initial part of the chain drops a packet only if it is the whole chain, and accepts only what the whole chain accepts |
| Iptables.JumpFirstEnforcesPolicy | blackoutkit/linux_network.py:258-263 | With the jump first in OUTPUT and the chain complete, every packet meets the policy whatever foreign rules follow |
| Iptables.PolicyBehindJump | blackoutkit/linux_network.py:258-288 | With the chain complete and the jump anywhere in OUTPUT, the rules in front of the first jump decide what they decide, what returns there meets the policy of OUTPUT, and every other packet meets that of the kill switch; for every target, `RETURN`, `REJECT`, queues and `goto` among them |
| Iptables.DepthDoesNotMatter | blackoutkit/linux_network.py:258-288 | The bound on nested jumps in the reading of a table is no limit: without loops any two depths that are deep enough give the same result |
| Iptables.TableEnforcesIff | blackoutkit/linux_network.py:258-288 | So the table enforces the policy if and only if no rule in front of the first jump contradicts it, for each meaning of the foreign matches |
| Kernel.StepChangesOnlyOwned | blackoutkit/linux_network.py:129-288 | Every command of the protocol, disturbed or not, leaves foreign chains and the sequence of foreign OUTPUT rules as they were |
| Kernel.ClearingUndoesAnyInstall | blackoutkit/linux_network.py:129-151 | From clean tables, removal undoes any install, finished or half done, exactly |
| Kernel.InstallThenRemoveRestores | blackoutkit/linux_network.py:258-299 | Install, then remove: the table of one family is the one before |
| Kernel.RemovalIsIdempotent | blackoutkit/linux_network.py:129-139 | Removing twice is removing once, and only owned objects go |
| LinuxNetwork.FirstOccurrencesMeaning | blackoutkit/linux_network.py:165 | The deduplicated endpoints are the same elements, each once, by first appearance |
| LinuxNetwork.NormalizeEndpoints | blackoutkit/linux_network.py:154-165 | Keeps exactly the endpoints with a global address and a port from 1 to 65535, with the very address and port they were given with, and without repeats |
| LinuxNetwork.UsableIff | blackoutkit/linux_network.py:154-165 | An address and a port are among the endpoints if and only if that address and that port were given together, the address is global and the port in range |
| LinuxNetwork.VerdictIff | blackoutkit/linux_network.py:154-288 | The policy spelled out, with the local blocks by their leading bits and the endpoints as they were handed in: which packets may leave |
| LinuxNetwork.DeleteNftTable | blackoutkit/linux_network.py:119-122 | When the table is gone and when success is reported: success over a table still there exactly with no binary or a disturbed probe, failure over one that is gone exactly when only the deletion was cut off late |
| LinuxNetwork.ApplyNftFirewall | blackoutkit/linux_network.py:233-255 | Exactly which disturbances it survives, and what the table holds on success and on failure for every one |
| LinuxNetwork.BuildChainRules | blackoutkit/linux_network.py:265-286 | The two loops give the rule list whose meaning `ChainMeaning` states |
| LinuxNetwork.ResetChain | blackoutkit/linux_network.py:259-260 | Create or else empty the owned chain; foreign objects untouched |
| LinuxNetwork.EnsureJump | blackoutkit/linux_network.py:261-263 | Success means the jump is in OUTPUT, first if it was not there before, and untouched if the check found it |
| LinuxNetwork.AppendAll | blackoutkit/linux_network.py:288 | Success means the chain holds exactly the rules; a failure leaves an initial part |
| LinuxNetwork.AppendIptablesRules | blackoutkit/linux_network.py:258-288 | Success means a finished install on top of the old table, and undisturbed exactly the one that puts the jump first unless there is one; all through the run, from the reset on, the chain holds an initial part of the rules |
| LinuxNetwork.EveryStateOfAnInstallIsHarmless | blackoutkit/linux_network.py:258-288 | In every intermediate state from the reset on, also of an install that is cut short, the owned chain drops a packet only when it is complete and the policy drops it |
| LinuxNetwork.DeleteJumps | blackoutkit/linux_network.py:132-133 | The loop ends whatever is disturbed; undisturbed it removes all owned jumps and nothing else |
| LinuxNetwork.FlushThenDelete | blackoutkit/linux_network.py:134-139 | The report against the truth for every pair of disturbances, as an exact condition |
| LinuxNetwork.SurvivingChainIsReportedRemoved | blackoutkit/linux_network.py:134-138 | A concrete case: the flush of a full chain is lost, and success is reported with the chain untouched |
| LinuxNetwork.RemoveIptablesChain | blackoutkit/linux_network.py:129-139 | With the binary there and undisturbed, the table is cleared and the report is true; disturbed, success is claimed over a surviving chain exactly under the stated condition; without the binary, success and no change |
| LinuxNetwork.RemoveOwnedFirewall | blackoutkit/linux_network.py:141-151 | Undisturbed, each family and the nftables table are cleared if their binary is found, and left as they were otherwise; the result speaks of the former only; always, foreign rules and chains stay |
| LinuxNetwork.MissingBinariesHideKillSwitch | blackoutkit/linux_network.py:115-151 | A concrete case without disturbance: no binary is found, and success is reported with all of an installed kill switch in place |
| LinuxNetwork.ApplyIptablesFirewall | blackoutkit/linux_network.py:291-299 | Success installs both families; a failed install from clean tables with an undisturbed cleanup leaves exactly the tables it found; one from any other tables, an earlier install among them, leaves no owned jump, and of the owned chain at most an empty one that foreign rules refer to |
| LinuxNetwork.FailedReinstallOpens | blackoutkit/linux_network.py:291-299 | A concrete case: with nothing foreign in the table and a policy of ACCEPT, what such a failure leaves lets every packet leave |
| LinuxNetwork.InstalledFirstEnforces | blackoutkit/linux_network.py:291-297 | A finished install enforces the policy on every packet of both families when each owned jump was absent or first before |
| LinuxNetwork.InstalledEnforcesIff | blackoutkit/linux_network.py:259-297 | From any tables, a finished install enforces the policy if and only if nothing in front of the owned jumps contradicts it |
| LinuxNetwork.ForeignRuleInFrontWins | blackoutkit/linux_network.py:261-263 | A concrete re-enable with the jump behind a foreign rule that accepts, or that returns to a policy of ACCEPT: an undisturbed install changes nothing, and a packet the policy drops leaves |
| LinuxNetwork.CatchAllInFrontIff | blackoutkit/linux_network.py:258-288 | With a foreign rule for all packets in front of the jump, other than a jump, the re-enable succeeds and the table enforces the policy if and only if that rule decides nothing, whatever the endpoints and the policy of OUTPUT |
| LinuxNetwork.StaleNftInstallReportsSuccess | blackoutkit/linux_network.py:115-256 | A concrete disturbed probe: success is reported with the rules of an earlier install in front, and packets to the new endpoint are dropped |
| LinuxNetwork.EnableKillSwitch | blackoutkit/linux_network.py:302-316 | From any tables: refuses without change when it may not run; with nftables, success means the policy for exactly the usable endpoints, or after a disturbed probe if and only if the previous table never contradicts it; with iptables, if and only if nothing in front of the owned jumps does, by a verdict or by a return to the policy of OUTPUT. Where it does, exactly those packets leave that are spelled out for the endpoints handed in, so TCP and UDP to each of their addresses and ports do |
| LinuxNetwork.InstallThenRemove | blackoutkit/linux_network.py:141-316 | From clean tables an undisturbed enable and remove ends in the very tables it began with, with either backend; the enable succeeds exactly when it may run, and the removal exactly as root |
| OrderedDict.PutAllMeaning | blackoutkit/downloader.py:745-753 | Filling a dictionary keeps each key once, with its last value |
| BinManifest.Store.Save | blackoutkit/bin_manifest.py:70-77 | What the next load finds: the entries, or the file as it was when saving fails |
| BinManifest.Store.Load | blackoutkit/bin_manifest.py:39-67 | What it returns and which pins are in force afterwards, whichever of its file operations fail: the string entries of the manifest, and if that is missing, unreadable, no JSON or `null`, those of the legacy copy, which are then written into the manifest |
| BinManifest.LoadedMeaning | blackoutkit/bin_manifest.py:39-67 | Binary by binary: the pin loaded is the string under its name in the manifest, or in the legacy copy if there is no manifest |
| BinManifest.Store.Record | blackoutkit/bin_manifest.py:95-105 | The pins after a record, whichever file operations fail; with a readable manifest all other pins are kept |
| BinManifest.Store.Verify | blackoutkit/bin_manifest.py:108-145 | The verdict and the pins after a verify, whichever file operations fail; with readable files a pinned file passes if and only if its digest is the pin, an unpinned one is pinned and passes, and no existing pin changes; a legacy pin counts where the manifest is missing |
| BinManifest.RecordKeepsPinIff | blackoutkit/bin_manifest.py:39-105 | The pin of another file survives a record if and only if the manifest was readable, or nothing was saved, or the legacy copy held the same pin and was read |
| BinManifest.VerifyKeepsPinIff | blackoutkit/bin_manifest.py:39-145 | The same for a verify and the pin of any file, its own included |
| BinManifest.VerifyCanErasePins | blackoutkit/bin_manifest.py:39-145 | A concrete store where one verify erases the pin of another file, whose next verify then accepts any content |
| BinManifest.PinIsTrustOnFirstUse | blackoutkit/bin_manifest.py:95-145 | Over every run of verifies, records, writes and removals: the pin is what the last record saw, else the initial pin, else what the first verify saw |
| BinManifest.Perform | blackoutkit/bin_manifest.py:95-145 | One call of the methods is one step of those runs |
| Downloader.MergeKeepsLastOfEach | blackoutkit/downloader.py:743-754 | A merge holds one record for each identity, the last one given, with new records behind old ones |
| Downloader.MergedIffLastOfItsName | blackoutkit/downloader.py:743-754 | On the fields alone: a record is told apart by its output, and by its key only if it has no output; one with neither is dropped; of each name exactly the last record stays |
| Downloader.MergedFileIff | blackoutkit/downloader.py:682-754 | The same of the file that a merge writes |
| Downloader.OutputsOfOneArchiveStay | blackoutkit/downloader.py:743-754 | A concrete case: two outputs of one archive, with the same key, both stay |
| Downloader.MergedRecordIff | blackoutkit/downloader.py:682-754 | Which records the merged file holds: of each identity the last new one, and if there is none the last old one if and only if the old file could be read |
| Downloader.UnreadProvenanceIsLost | blackoutkit/downloader.py:682-754 | A concrete case: a failed read makes a successful merge drop an old record |
| Downloader.MergeProvenance | blackoutkit/downloader.py:697-754 | The file is replaced whole by the merged records, or it is as before; an old file that cannot be read counts as empty |
| Downloader.BackUpAll | blackoutkit/downloader.py:507-519 | Goes on exactly when every name is staged, inside the directory and copied, and is interrupted exactly when a copy is; the backups hold the installed bytes |
| Downloader.PromoteAll | blackoutkit/downloader.py:521-525 | The outputs moved are those before the first move that does not work, and only they are replaced |
| Downloader.PinAll | blackoutkit/downloader.py:531-539 | Working records pin exactly the promoted files to their new digests; an exception is swallowed, an interrupt is not |
| Downloader.RollBack | blackoutkit/downloader.py:544-561 | With working operations: promoted files gone, backups and provenance back |
| Downloader.RollBackRestores | blackoutkit/downloader.py:545-554 | Undoing any part of the promotion gives every file back as it was |
| Downloader.UndoneIsRolledBack | blackoutkit/downloader.py:544-561 | A rollback that works gives every file back from any point, except a provenance file whose backup was cut short |
| Downloader.TryPromote | blackoutkit/downloader.py:503-539 | Goes on exactly when nothing fails, and is interrupted exactly when an interrupt comes first; states files, backups and pins for every fault point |
| Downloader.MergeOrRollBack | blackoutkit/downloader.py:541-562 | Succeeds exactly when all before it and the merge did; otherwise everything is undone, except after an interrupt |
| Downloader.PromoteStagedOutputs | blackoutkit/downloader.py:487-564 | The exact conditions of success and of an interrupt at every fault point. All or nothing: success places every output and the merged file; a failure leaves every file as before if and only if the provenance backup was not cut short; an interrupt leaves exactly what was moved. Pins are not rolled back: every promoted output verifies, and one put back after a failed merge only if its digest equals that of the output it made way for |
| Downloader.PinsAfterTransaction | blackoutkit/downloader.py:527-562 | What the pins say, output by output, after a promotion and after one that was undone |
| Downloader.CutBackupReplacesProvenance | blackoutkit/downloader.py:504-557 | A concrete cut: the partial copy replaces the whole provenance file |
| Downloader.InterruptLeavesMix | blackoutkit/downloader.py:521-564 | A concrete interrupt between two moves: the new first output stays beside the old second |
| Sanitizer.CutStringStaysInnocent | blackoutkit/events.py:90-108 | Cutting a string and marking the cut never makes it look like a secret URI |
| Sanitizer.CutLooksSecretIff | blackoutkit/events.py:90-92 | A string that is only cut looks like a listed URI if and only if the whole does and its scheme is kept |
| Sanitizer.SanitizeStringMeaning | blackoutkit/events.py:104-109 | A sanitized string is short, looks like no listed URI, and does not change again |
| Sanitizer.SanitizeValueMeaning | blackoutkit/events.py:95-120 | For every JSON value: no sensitive key and no listed URI at any depth, bounded strings and nesting; sanitizing is idempotent |
| Sanitizer.InnocentValuesPass | blackoutkit/events.py:95-120 | A value with nothing to scrub passes unchanged |
| Sanitizer.KeptMembers | blackoutkit/events.py:110-115 | Exactly the members with harmless keys are kept, in order |
| Sanitizer.SanitizeDetailsMeaning | blackoutkit/events.py:123-128 | The same for the details of an event |
| Sanitizer.ListedKeysGo | blackoutkit/events.py:83-128 | Of the members of the details and of every object in them, exactly those go whose key, lower-cased and with underscores for dashes, is a listed name or ends with a listed suffix; the others stay in order |
| Sanitizer.AsciiLettersOf | blackoutkit/events.py:84-91 | Which characters lower-case to an ASCII letter: beside the ASCII letters two, one of which gives two characters |
| Sanitizer.ListedInAnySpelling | blackoutkit/events.py:83-87 | A listed name, and a listed suffix behind any prefix, is recognised in any ASCII case and with dashes for underscores |
| Sanitizer.NoSensitiveKeyIsLeft | blackoutkit/events.py:83-128 | No listed name, and no key with a listed suffix behind any prefix, is left in the details, in any ASCII case and with dashes for underscores |
| Sanitizer.SchemesAreRedacted | blackoutkit/events.py:90-106 | A string that starts, behind any white space, with a listed scheme in any ASCII case is replaced |
| Sanitizer.OtherStringsStay | blackoutkit/events.py:104-109 | Any other string stays, or is cut behind 1000 characters and marked |
| Sanitizer.NestingIsCut | blackoutkit/events.py:102-117 | In any nesting of arrays and objects what lies seven levels deep is cut off, and nothing above it |
| Sanitizer.RulesAreSound | blackoutkit/events.py:56-80 | The program's own scheme list and markers meet the conditions of these lemmas |
| Events.AcceptedIsNormal | blackoutkit/events.py:154-188 | Whatever string or dict is accepted comes out in normal form |
| Events.AcceptedIsNormalIff | blackoutkit/events.py:154-188 | What publish accepts is in normal form if and only if it is no ready-made event of another form |
| Events.BareStringIsType | blackoutkit/events.py:157-188 | A bare string is an event of that type, white space at its ends removed, with everything else at its default, if the type is usable |
| Events.StripMeaning | blackoutkit/events.py:163 | What is removed is the white space at both ends and nothing else |
| Events.MessageIsFallback | blackoutkit/events.py:166 | The summary is that of the dict, and if that is missing or empty, the message; at most 500 characters of it |
| Events.EmptyValueIsMissing | blackoutkit/events.py:182-183 | An engine or source that Python takes for false counts as missing, any other value becomes text, cut at 64 characters |
| Events.SeverityInAnyCase | blackoutkit/events.py:135-137 | A listed severity is taken in any case, any other text is read as `info` |
| Events.DetailKeys | blackoutkit/events.py:167-184 | The details are the object of that name, or else all members that are no field of an event; of these exactly the ones with a listed key go |
| Events.SafeUnlessSaidOtherwise | blackoutkit/events.py:185 | An event is safe for logs unless the dict says otherwise |
| Events.ReadyEventKeepsSecret | blackoutkit/events.py:157-158 | A concrete ready-made event with a password in its details is accepted as it is |
| Events.UnscrubbedTextsIff | blackoutkit/events.py:163-188 | The summary, engine, source and identifier of an accepted dict look like a listed URI if and only if the text given does and its scheme is in front of the cut |
| Events.SummaryKeepsUri | blackoutkit/events.py:166 | A concrete family: a `vless://` URI given as the summary is in the event |
| Events.RoundTrip | blackoutkit/events.py:154-202 | Reading back what `to_dict` wrote gives the same event if and only if it is in normal form |
| EventBus.Bus.Subscribe | blackoutkit/events.py:216-221 | Each observer once, in order of subscription |
| EventBus.Bus.Unsubscribe | blackoutkit/events.py:223-226 | Removes the observer and no other; a second call changes nothing |
| EventBus.Bus.Publish | blackoutkit/events.py:230-249 | Recorded in the bounded history, in normal form exactly when it is not a ready-made event of another form; every observer of the moment is called, whichever raise |
| EventBus.Bus.RecentEvents | blackoutkit/events.py:251-268 | The latest `limit` events whose type starts with the prefix, and all of them for a limit of zero or less; a matching event is missing only from a full result |
| EventBus.PublishAll | blackoutkit/events.py:211-249 | After any run of publishes the history holds the last accepted events, up to its size |
| EventBus.Journal.Append | blackoutkit/events.py:282-294 | The file after one append, for each way it can fail |
| EventBus.Journal.Read | blackoutkit/events.py:318-335 | An end of what the whole file holds: at most `limit` events, exactly the latest `limit` if every line is usable, everything for a limit of zero or less; nothing if the file cannot be read |
| EventBus.AppendAll | blackoutkit/events.py:282-294 | After any run of appends the journal holds the last lines, initial and appended, up to its bound |
| EventBus.TailIsSuffix | blackoutkit/events.py:318-335 | What a window gives is the end of what the whole file gives |
| EventBus.JournalRoundTrip | blackoutkit/events.py:305-335 | A normal event that is journalled is read back as it was |
| RecentEvents.MergedRecentEvents | blackoutkit/events.py:338-360 | The method computes the deduplicated, sorted, filtered, cut merge of its two windows |
| RecentEvents.SortByTimeMeaning | blackoutkit/events.py:357 | The sort gives strict time order on distinct timestamps and keeps the elements |
| RecentEvents.SortIsStable | blackoutkit/events.py:357 | For any events: the sort is by time, keeps every event, and leaves those of equal times in their order |
| RecentEvents.StringLtIff | blackoutkit/events.py:357 | Times compare as strings: a proper beginning comes first, else the smaller character where they first differ |
| RecentEvents.LastOfEachIdIsMerged | blackoutkit/events.py:351-357 | For any two sources: of the events with one identifier the merge has exactly the last, with the history behind the journal |
| RecentEvents.MergedMeaning | blackoutkit/events.py:351-357 | On consistent sources the merge is the union, in strict time order |
| RecentEvents.MergedRecentIsExactIff | blackoutkit/events.py:338-360 | For a limit of at least one and any type filter, the result is the last `limit` matching events of the whole journal and the whole history if and only if for every matching event outside the two windows they hold at least `limit` later ones |
| RecentEvents.UnfilteredIsExactIff | blackoutkit/events.py:338-360 | Without a filter, on sources in strict time order, only the journal window can be too small: exact if and only if each usable event in front of it is in the history window or has `limit` later ones in both |
| RecentEvents.OneUsableLineIsMissed | blackoutkit/events.py:318-360 | A concrete journal, one usable line and 200 unusable ones behind it: the merge for a limit of one is empty |
| RecentEvents.OneUsableLineIff | blackoutkit/events.py:318-360 | How far the journal window goes back: one usable line with unusable ones behind it is found if and only if these are fewer than 200 or fewer than four times the limit |
| RecentEvents.WindowedMergeIsExact | blackoutkit/events.py:351-360 | The latest events of two merged windows are the latest of the two whole sources |
| RecentEvents.MergedRecentIsExact | blackoutkit/events.py:338-360 | So it is exact when the journal window is the whole file or decodes to at least `limit` events |
| RecentEvents.UsableLinesSuffice | blackoutkit/events.py:327-335 | A journal of usable lines always meets that proviso |
| RecentEvents.WindowsHideEvents | blackoutkit/events.py:327-359 | With a matching event outside the windows and fewer than `limit` later ones inside, the result is wrong |
| EventBridge.RunKeepsInvariant | blackoutkit/event_bridge.py:49-140 | In every interleaving each event recorded for the client is in exactly one place, the queue is bounded, and the replay goes in order |
| EventBridge.LossNeedsOverflow | blackoutkit/event_bridge.py:54-64 | An event is dropped only after more than a queueful was recorded for the client |
| EventBridge.NoGap | blackoutkit/event_bridge.py:109-136 | Once drained, the client was sent the whole replay window, each event as it reads back, and every event since it subscribed, but for dropped ones |
| EventBridge.ReadBackIff | blackoutkit/event_bridge.py:124-125 | The replay sends an event unchanged if and only if it is in normal form, and cannot send it if and only if it has no usable type |
| EventBridge.UnreadableEventEndsHandler | blackoutkit/event_bridge.py:124-140 | A client whose window holds an event without a usable type never gets anything of the stream, in any run |
| EventBridge.UnreadableEventEndsHandlerIff | blackoutkit/event_bridge.py:109-140 | In every run in which nothing else closes the handler, the end of the replay is the end of the handler if and only if the window holds an event without a usable type; then exactly the events in front of the first such one were sent |
| EventBridge.ReplayEnds | blackoutkit/event_bridge.py:124-126 | From every state of a replay its own steps bring it to an end |
| EventBridge.EmptyTypeEndsHandler | blackoutkit/event_bridge.py:109-140 | A concrete run: one ready-made event without a type, one client, and a handler that ends in the replay |
| EventBridge.NothingIsMissed | blackoutkit/event_bridge.py:49-136 | From beginning to end over the recorded sequence: the latest `limit` events at the replay are sent, and every event recorded since the subscription is sent or dropped, dropped only if they did not fit into the queue |
| EventBridge.SentAtMostTwice | blackoutkit/event_bridge.py:109-136 | An event recorded once is sent at most once by the queue; if the window is in normal form, at most twice in all, and twice only as part of the replay and of the stream |
| EventBridge.WindowHasNoRepeats | blackoutkit/events.py:351-360 | The replay sends no event twice, whatever journal and history hold |
| EventBridge.HistoryIsLatest | blackoutkit/events.py:239-241 | In every interleaving the bus history is the end of what was recorded |
| EventBridge.DuringIsSinceSubscribe | blackoutkit/events.py:239-241 | Since recording and the observer snapshot share one critical section, no event after the subscription is missed while the client is registered |
| EventBridge.SentOnlyGrows | blackoutkit/event_bridge.py:124-136 | In every run, what a client was sent only grows at its end |
| EventBridge.NothingAfterClose | blackoutkit/event_bridge.py:69-74 | A client that is closed is sent nothing more, and nothing more is recorded for it |
| EventBridge.StreamIsInOrder | blackoutkit/event_bridge.py:49-66 | As long as no two publishes overlap, a client gets its events in order, and a slow one loses the oldest: a queue from which nothing is taken holds the latest 200 |
| EngineStack.StopEnginesInReverse | blackoutkit/engine_stack.py:20-25 | Every engine is stopped once, last first by its place in the list, whichever stops raise |
| EngineStack.StartEnginesInOrder | blackoutkit/engine_stack.py:28-45 | All started in order, or those started before the failing one stopped, each at the place that mirrors its start; an interrupt stops none |
| EngineStack.FailedStartUnwinds | blackoutkit/engine_stack.py:28-43 | The calls of a failed start by their places: the starts in order, then the stops of those in front of the failing one from the last to the first |
| EngineStack.LaterStartedIsStoppedFirst | blackoutkit/engine_stack.py:20-43 | So of two started engines the one started later is stopped first |
| ConnectionService.Session.KillSwitchStage | blackoutkit/connection_service.py:516-540 | Enable only behind a successful prepare; goes on only with both successful; the failure it reports otherwise |
| ConnectionService.Session.StackStage | blackoutkit/connection_service.py:542-583 | The calls and the engines held, for every way a start can end |
| ConnectionService.Session.ServeStage | blackoutkit/connection_service.py:585-634 | The calls, the events handed out and the end of the stage, exactly, for every callable that raises |
| ConnectionService.Session.Cleanup | blackoutkit/connection_service.py:636-666 | Exactly the releases of the plan up to the first report on which `emit` raises |
| ConnectionService.Session.StartForeground | blackoutkit/connection_service.py:482-668 | The calls of every run, cut short or not, and when it ends as stopped, as failed and by an exception |
| ConnectionService.KillSwitchIsBalanced | blackoutkit/connection_service.py:516-666 | In every run: a successful enable has exactly one disable if and only if `emit` raised on no report of the `finally` before it, and likewise a successful prepare and its clear; `restore_proxy` is never called |
| ConnectionService.ProxyIsReleased | blackoutkit/connection_service.py:606-655 | In every run: the proxy is set at most once; the tracked cleanup, or without tracking the clearing of a proxy that was set, is made once if and only if `emit` raised on no report of the `finally` before it, and never otherwise |
| ConnectionService.StopsOfRun | blackoutkit/connection_service.py:542-642 | How often a run stops each engine, for every way a start and the `finally` can end |
| ConnectionService.EnginesStoppedIff | blackoutkit/connection_service.py:636-643 | A running engine is stopped if and only if `emit` raised neither on the announcement of the end nor on the report of an earlier stop |
| ConnectionService.StopsInOrderOfStart | blackoutkit/connection_service.py:636-643 | The `finally` stops the engines in the order of their start, up to where it gets to |
| ConnectionService.MonitorIsCalledIff | blackoutkit/connection_service.py:585-620 | The monitor is called, once, if and only if the engines run, no proxy call raised, and `emit` raised on none of the events up to the one that announces it |
| ConnectionService.LeakIff | blackoutkit/connection_service.py:542-642 | In every run: no engine is stopped more often than it was started, and a started one keeps running if and only if a later start was interrupted or the `finally` was cut short before it |
| ConnectionService.QuietRunStopsAll | blackoutkit/connection_service.py:542-642 | Without an interrupted start and with an `emit` that does not raise in the `finally`, each engine is stopped as often as it was started |
| ConnectionService.KillSwitchCanStayOn | blackoutkit/connection_service.py:636-661 | A concrete world without any interrupt: the kill switch stays on and the engine keeps running |
| ConnectionService.InterruptedStartLeaks | blackoutkit/engine_stack.py:35-43 | A concrete interrupt while the second of two engines starts: the first is never stopped |
| ConnectionService.CleanupMakesTeardown | blackoutkit/connection_service.py:636-666 | A `finally` makes the first of its releases, and all of them if it completes |
| ConnectionService.TeardownOrder | blackoutkit/connection_service.py:636-666 | Engines, proxy, kill switch, endpoint, in this order, in every run |
| ConnectionService.EnginesRunBehindKillSwitch | blackoutkit/connection_service.py:516-666 | If a kill switch is wanted, engines start, run and stop only between its successful enable and its release, in every run |
| EnvOverrides.Environ.Enter | blackoutkit/connection_service.py:1075-1081 | The overrides set and the values remembered, up to the first that cannot be set |
| EnvOverrides.Environ.Leave | blackoutkit/connection_service.py:1082-1087 | Every remembered key gets its value or absence back; no other key changes |
| EnvOverrides.BlockRestores | blackoutkit/connection_service.py:1075-1087 | On every exit each overridden key is as before the block, whatever the body did |
| EnvOverrides.NestingRestores | blackoutkit/connection_service.py:1075-1091 | In any nesting a key changes only if code changes it outside every block that overrides it |
| EnvOverrides.RaisedIff | blackoutkit/connection_service.py:1075-1091 | No block swallows an exception of its body or makes one of its own |
| EnvOverrides.FailedEntryLeaks | blackoutkit/connection_service.py:1077-1079 | A block that cannot enter leaves the environment unchanged if and only if the overrides set so far were already there |
| EnvOverrides.HalfEnteredBlockLeaks | blackoutkit/connection_service.py:1077-1079 | A concrete block of two overrides, the second of which cannot be set: the first stays |
| AnomalyDetector.VarianceVanishes | blackoutkit/anomaly_detector.py:72-76 | The sample variance is zero exactly when all values are equal |
| AnomalyDetector.UnusualIsAboveMean | blackoutkit/anomaly_detector.py:78-83 | Only what lies above the mean of at least two earlier values is ever reported |
| AnomalyDetector.FlatBaselineIff | blackoutkit/anomaly_detector.py:176-183 | After equal values exactly those of at least twice their size are reported |
| AnomalyDetector.UnusualIff | blackoutkit/anomaly_detector.py:66-83 | For samples with mean m and sample deviation s: a value is reported if and only if it is more than `threshold` deviations above m, or s is zero and it is at least twice a positive m |
| AnomalyDetector.BurstIsReported | blackoutkit/anomaly_detector.py:161-195 | A concrete burst over a baseline that is not flat is reported by the z-score |
| AnomalyDetector.BulkTransferIsReported | blackoutkit/anomaly_detector.py:246-273 | A concrete transfer over such a baseline is reported, and a smaller one is not |
| AnomalyDetector.FlatBranchMeansOneThenTwo | blackoutkit/anomaly_detector.py:171-193 | For any arrival times the zero-deviation branch fires exactly when every kept rate is one event per window and the count is two |
| AnomalyDetector.EvictionFilters | blackoutkit/anomaly_detector.py:171-173 | On sorted times, dropping from the front is filtering |
| AnomalyDetector.TimesAreLatestInWindow | blackoutkit/anomaly_detector.py:171-194 | For times that do not go back, what is kept is the last 200 arrivals in the window |
| AnomalyDetector.RateRefinesDirectCount | blackoutkit/anomaly_detector.py:171-175 | The rate is the direct count in the window, and at most 201 per window |
| AnomalyDetector.RatesAreCounts | blackoutkit/anomaly_detector.py:171-193 | For times that do not go back the rates kept are the last 200 direct counts per window |
| AnomalyDetector.SpikeIff | blackoutkit/anomaly_detector.py:161-195 | So the verdict is that on the direct counts, by their mean and deviation |
| AnomalyDetector.Detector.DetectSpike | blackoutkit/anomaly_detector.py:161-195 | The verdict against the rates before the event, by their mean and deviation alone, and the new windows of its destination only |
| AnomalyDetector.Detector.DetectSpikes | blackoutkit/anomaly_detector.py:161-195 | A run of events to one destination: each verdict, and the final windows; if the times do not go back, each count per window is judged by the mean and deviation of the last 200 before it |
| AnomalyDetector.Detector.DetectFailedStorms | blackoutkit/anomaly_detector.py:197-213 | A run of failures: a report exactly where the failures to one destination reach 10 and 50, over all of them |
| AnomalyDetector.Detector.DetectExfiltrations | blackoutkit/anomaly_detector.py:246-273 | A run of transfers to one destination: each is reported exactly if it is usable, of a mebibyte or more, and by mean and deviation stands out from the last 200 usable ones before it |
| AnomalyDetector.Detector.RecordAnomalies | blackoutkit/anomaly_detector.py:130-134 | The log holds the last 1000 anomalies |
| AnomalyDetector.Detector.ResetThenDetect | blackoutkit/anomaly_detector.py:295-308 | Whatever the state was, events behind a reset are judged as if they were the first |
| BandwidthHistory.History.Record | blackoutkit/cli.py:1335-1346 | A call with any number of interfaces takes the history through one update for each |
| BandwidthHistory.NamesAreRetained | blackoutkit/cli.py:1335-1346 | The interfaces kept, in order, are the 32 last updated ones |
| BandwidthHistory.ByLastUpdateIsOrdered | blackoutkit/cli.py:1335-1346 | Their order is that of their last updates |
| BandwidthHistory.OnlyOldestAreEvicted | blackoutkit/cli.py:1338-1341 | Every evicted interface was last updated before every kept one, and there are 32 of those |
| BandwidthHistory.SamplesAreLatest | blackoutkit/cli.py:1342-1346 | Each kept interface has the last 300 samples since it last came in, and at least one |
| Benchmarks.PercentileMeaning | blackoutkit/benchmarks.py:24-42 | The percentile is the least sample at or below which at least that percentage of the samples lies, with percentages below 0 and above 100 read as 0 and 100 |
| Benchmarks.PercentileOfPermutation | blackoutkit/benchmarks.py:24-42 | The order of the samples does not matter |
| Benchmarks.PercentileIsMonotone | blackoutkit/benchmarks.py:24-42 | A higher percentage never gives a lower percentile |
| Benchmarks.SummaryIsOrdered | blackoutkit/benchmarks.py:45-60 | A summary of at least one sample has min <= p50 <= p95 <= p99 <= max, and its mean between min and max |
| Benchmarks.SummaryMeaning | blackoutkit/benchmarks.py:45-60 | A summary reports the number of samples, the least and the greatest, and the 50th, 95th and 99th percentile; without samples nothing |
| Benchmarks.MeanOfOne | blackoutkit/benchmarks.py:55 | The mean of one sample is that sample |
| Benchmarks.MeanGrows | blackoutkit/benchmarks.py:55 | Each further sample adds itself to mean times count |

## Left out

Firewall:
- The nftables and iptables text syntax: rules are syntax trees, matches that this program never writes are one uninterpreted predicate.
- Custom nftables chains of others and other tables: only the filter table's OUTPUT and its user chains are there. A queued packet is neither accepted nor dropped; the programs behind queues are not there.
- `parse_literal_endpoints`, `resolve_proxy_endpoints`, `kill_switch_is_active`, routing rules and the tunnel device: lookups and parsing in front of or beside the protocol.
- `is_global` and address parsing are parameters; IPv6 scope identifiers are not in the address.
- Temporary-file errors while the nftables file is written, and all detail strings.

Binaries:
- Hashing and JSON are oracles; the lemmas compare digests, so "differs" means "differs in digest".
- Directories are not modelled, nor are failures before the `try` of an install. The clauses that need it say that output names are distinct and that the provenance file is none of them; the manifest and its legacy copy never are.
- Interrupts inside the rollback of an install.
- The legacy manifest is a constant of the store: nothing modelled here writes it.
- `verify_provenance`, `verify_all` and the artifact status: they only read; the status looks provenance up by bare file name while records use the full output name, so it is not a basis for a claim.
- Downloading, archive extraction and digest metadata.

Events:
- Values that are not JSON-shaped: the fall-through of `sanitize_value` turns them into text without scrubbing it.
- Lower-casing outside ASCII, except for the two characters whose lower case contains an ASCII letter.
- The severity filter of `recent`, and `clear`.
- Journal lines without an identifier or a time get one ambient value per reading, not one per line; likewise the events of one replay.
- Journal writes of several processes at once: best effort in the code.
- EventBridge.RunKeepsInvariant: the queue operations are steps of a state machine on values, not methods on a shared queue, because the steps of several threads interleave.
- HTTP, sockets, heartbeats and the registry of clients in the bridge; one client is modelled, since clients share only the bus.

Connection:
- Elevation, presets, background starts and the daemon; the system proxy itself is one call.
- The retry of an engine-stack callable with fewer arguments, and the event about skipped configurations, whose failure is swallowed.
- Interrupts and exits inside the `finally` of a connection, and failures before its `try`.
- Case-insensitive environment names on Windows.

Detector and measurements:
- Floating point: all numbers are reals, and the z-score test compares squares.
- The dispatch of one event to all detectors, the geolocation, port and DNS checks, the anomaly file, and the hourly totals of `reset_hourly`.
- Measuring memory and latency, and all rendering.

Everything else in the repository (menus, catalogues, help text, log redaction) only adds lookups and text.
