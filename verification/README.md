# micronet in Dafny

A verified model of the decision-making parts of micronet, the Ethernet daemon: how it chooses an
interface, selects client, static or gateway mode, owns its dnsmasq and dhclient, watches the link and
its own health, and reads and prints the text and binary formats it depends on.

Check everything with `dafny verify dfyconfig.toml`.

## How the model is built

* **Host.** `Net.World` is the host as micronet sees it (links, addresses, dhclients, default route,
  dnsmasq with its conf file and pidfile, a clock) plus a journal of every operation done to it. `Net.Env`
  is the outside world: each answer (command outcome, probe, ping, carrier, lease, duration, dnsmasq
  faults) is an arbitrary function of the number of operations journalled so far. A theorem "for every
  `env`" therefore covers every pattern of failing operations and every moment at which a cable moves
  (what it does not cover is listed under Assumptions).
* **Code.** Where the program changes things in place the model does too: `Hosts.Host` and
  `DaemonLoop.Loop` are classes, `HostApply` holds apply and teardown as methods over a host, and loops
  are loops. Each such method is proved equal, host state and journal included, to a function on values
  (`Net`, `Dhcpd`, `Apply`, `Daemon`). The theorems are about those functions, so they hold of the methods.
* **Runs.** `Daemon.Run` folds any sequence of reloads, reconfigures, ticks and outside changes
  (`Daemon.Outside` may replace addresses, links, routes and dhclients at will, kill dnsmasq, and let time
  pass) over the state after start. This is more general than the order in which the source's loop polls
  its sources.

Files: `Basics`, `Text`, `Names` (values); `Config`, `Addr`, `Conf`, `Elf` (readers and printers);
`ConfigMeaning`, `ConfOptions`, `ElfFiles`, `Utf8Text` (grammars, readers and writers they are held against);
`Dhcpd`, `Net`, `Apply`, `Daemon` (state machines); `AutoPick`, `ApplyLaws`, `ApplyTheorems`, `ApplyOutcome`,
`Served`, `DaemonOwnership`, `DaemonHistory`, `DaemonTiming`, `DaemonVerdicts` (theorems); `Hosts`,
`HostApply`, `DaemonLoop` (the imperative form); `Witness`, `Lapses` (concrete runs).

## Main results

1. Over every run, a dnsmasq of ours lives only under a stored gateway mode, every start found it stopped,
   and it has loaded exactly the conf on disk if that held of whatever an earlier instance left running
   (`DaemonOwnership.DnsmasqOnlyInGateway`).
2. Over every run, health is unhealthy exactly when the last three verdicts or resets were unhealthy
   (`DaemonHistory.HealthIsLastThree`), and a verdict says exactly what is wrong with the host that the tick
   leaves: no readable address, a gateway without server, a client without dhclient
   (`DaemonVerdicts.VerdictLaw`). The stored interface and mode are those of the last apply that succeeded
   (`DaemonVerdicts.StatusIsLastSuccess`).
3. Over every run, a carrierless tick re-selects exactly when its outage is at least `linkRetrySecs` old,
   the next after a successful one is that far away, and after a failed one every further carrierless
   tick of the outage tries again (`DaemonHistory.ReselectLaw`, `DaemonTiming.ReselectsAreSpaced`,
   `DaemonTiming.FailedReselectRepeats`).
4. One apply, any operation failing: probe only while not serving, serve only when earned, fail closed from
   the probe on, and success equals the pure decision with the host in that mode
   (`ApplyTheorems.ApplyLaw`). It fails exactly if a step fails that it does not tolerate, and stops there
   (`ApplyOutcome.ApplyOutcomeLaw`). If listings, flushes and link-downs worked, the other interfaces are down
   and without addresses, except exactly those of a link that was down before under a name that hides them
   (`ApplyTheorems.ApplyLeaves`). A gateway selection has pinged in vain, or had no reason to
   (`ApplyTheorems.GatewayAsks`).
5. On an interface whose address the program can read, gateway mode is selected again by every later
   successful apply without an offer, whatever failed unnoticed (`ApplyTheorems.GatewayHolds`,
   `ApplyTheorems.GatewayWinsForever`). The address is then left alone and nobody is pinged if it is the
   reported one, which a gateway apply brings about exactly when the flush of its own interface worked or
   left only link-local addresses (`ApplyTheorems.GatewaySettles`, `ApplyTheorems.GatewayForever`).
6. The conf of a gateway, read back as a whole, is exactly the planned server and one host record for each
   configured one, with its own address or else the gateway's (`ConfOptions.ConfReadsBack`,
   `Served.GatewayServesPlan`).
7. Teardown fails exactly where it says, and when everything works leaves nothing of ours
   (`ApplyOutcome.TeardownOutcome`, `ApplyOutcome.WorkingTeardown`).
8. The ELF reader equals a declarative specification on every byte string, with the exact condition under
   which its arithmetic overflows (`Elf.ElfSectionData`, `Elf.SectionIn`), and reads back every section of
   every file written field by field after the System V gABI, for both classes and byte orders
   (`ElfFiles.WrittenSectionsReadBack`).
9. The text tests round-trip, with the exact exception (`Addr.LocalTestIsExact`); record names and lease times
   are accepted exactly by their grammars (`ConfigMeaning.NameGrammar`, `ConfigMeaning.DurationGrammar`).

## Where code and expectation differ

* The doc comment of `stdout_has_ipv4` promises to find a configured address. Among entries printed as
  `inet a.b.c.d/nn` it misses exactly those of interfaces whose name ends in `inet`
  (`Addr.LocalTestIsExact`, `Addr.HiddenAddressIsMissed`).
  Such an interface does not stay a gateway: the next apply takes its own gateway address for a foreign
  one, and if the ping is answered it selects static mode with a default route via itself
  (`Lapses.HiddenGatewayIsLost`). Every read of an address in the model hides it in the same way.
* Isolation is meant to leave every other Ethernet without an address. It passes over a link that is down
  and shows none, so a link that was down under a name ending in `inet` keeps its addresses, and exactly
  such a link does (`ApplyLaws.IsolateLaw`, `ApplyTheorems.ApplyLeaves`); `Lapses.HiddenAddressSurvives` is
  a run in which every command works.
* ARCHITECTURE.md says `status.cidr` is real. After a static selection it is the interface's reported
  address exactly when the name does not hide addresses and the interface had no IPv4 before, or already
  reported the static one (`ApplyTheorems.StaticCidrIsLive`; `Witness.StaticCidrCanBeStale` is a run where
  it is not). The next tick with carrier corrects it (`DaemonOwnership.TickReportsLive`).
* ARCHITECTURE.md speaks of one re-select per outage. A failed one is repeated at every further
  carrierless tick of that outage, unless a reload raised the retry time meanwhile
  (`DaemonTiming.FailedReselectRepeats`; `Lapses.TwoReselectsInOneOutage` is a run with two, 3 s apart).
* Failing closed is per apply: a later tick restarts dnsmasq exactly when the stored mode is gateway and
  none runs (`DaemonOwnership.TickRestarts`), as in the run of `Lapses.FailedApplyThenRestart`, where the
  apply before it had failed closed.
* The 64-bit ELF path aborts on overflow exactly when the string-table header lies within 32 bytes of the
  top of the address space (`Elf.SectionIn`, `Elf.Elf64CanOverflow`); the 32-bit path never does.
* Flushing addresses and deleting the default route ignore the exit status, so "gateway mode has exactly
  its own address and no default route" holds unless such a command failed unnoticed; the theorems say so
  in terms of the journal.

## Assumptions

Only micronet starts the dnsmasq named by its pidfile, a failed start leaves no process, SIGKILL works,
and writing the conf file is atomic. All names of one carrier scan are read at one instant. Within one
apply, teardown or tick nothing outside changes but carrier, leases and the clock; in particular the set of
physical interfaces does not. Running `ip` to read addresses or links does not fail (the program would take
such a failure for "no address"). Addresses are printed as `inet a.b.c.d/nn`, not in the form with a peer.
`usize` has 64 bits. Locks do not poison. The
network parser of the `ipnet` crate and the conf renderer used inside apply are arbitrary functions.
`Addr.ReportedIsFirst` and `Addr.ReadOfOneInterface` assume of the former that it accepts printed networks
with a prefix length of at most 32; module `Served` takes `Conf.ConfLines` for the latter.

## Model

| member | source | states |
|---|---|---|
| Config.NormalizeStripped | crates/micronet/src/config/mod.rs:311-351 | accepts exactly host names (1 to 253 characters, every label 1 to 63 letters, digits, inner hyphens), although lengths are counted in bytes; returns the lower-case form |
| Config.JoinLabels | crates/micronet/src/config/mod.rs:324-350 | the label loop succeeds iff all labels are legal and yields their lower-case join |
| Config.NormalizeDnsName | crates/micronet/src/config/mod.rs:309-351 | trim, strip trailing dots, check, lower-case: computes the canonical form or a config error |
| Config.NormalFormIdempotent | crates/micronet/src/config/mod.rs:308-351 | normalising a normal form returns it unchanged |
| Config.WireFits | crates/micronet/src/config/mod.rs:314-348 | every accepted name is lower-case labels whose wire form has at most 255 octets (RFC 1035, sections 2.3.4 and 3.1) |
| Config.ValidateDns | crates/micronet/src/config/mod.rs:252-267 | accepts iff at most 64 records, all names normalise, and normal forms are pairwise distinct |
| Config.StickyRoundTrip | crates/micronet/src/config/mod.rs:354-380 | a printed number with one of the five units or none reads back as that many seconds, iff positive and below 2^64 |
| Config.StickyIsPlain | crates/micronet/src/config/mod.rs:354-380 | an accepted duration is positive, fits u64, and has neither newline nor comma |
| ConfigMeaning.NameGrammar | crates/micronet/src/config/mod.rs:308-351 | accepted exactly are labels of letters, digits and inner hyphens joined by dots, of at most 253 characters, with dots behind and white space around; the normal form is their join with capitals lowered |
| ConfigMeaning.CaseDoesNotCount | crates/micronet/src/config/mod.rs:348 | names that differ only in ASCII case have one normal form, without capitals |
| ConfigMeaning.DurationGrammar | crates/micronet/src/config/mod.rs:354-380 | accepted exactly are digits with optional plus, unit and white space that mean between 1 and 2^64 - 1 seconds |
| Config.Validate | crates/micronet/src/config/mod.rs:201-250 | the chain of checks accepts exactly the valid configurations |
| ConfigMeaning.ValidIsDescribed | crates/micronet/src/config/mod.rs:201-267 | valid iff gateway, static address and pool share no address of the /24 and the pool has two or more, times are positive, texts parse, and at most 64 names are pairwise distinct |
| Config.AddressPlan | crates/micronet/src/config/mod.rs:202-230 | gateway, static address and the whole leased range are disjoint and inside the /24; host addresses are ordered and injective; the gateway is its own host address |
| Config.NetworkHost24 | crates/micronet/src/config/mod.rs:276-280 | the host address printed for any prefix length is, on a /24, the one of the address plan, and the mask 255.255.255.0 |
| ConfigMeaning.MaskOfPrefix | crates/micronet/src/dhcp/conf.rs:12 | the mask of every prefix length is the address with that many leading ones |
| Names.ListPhysicalEthernet | crates/micronet/src/net/mod.rs:368-380 | returns exactly the physical entries, sorted |
| Names.LessAtFirstDifference | crates/micronet/src/net/mod.rs:368-380 | the order sorted by is that of the first difference, a prefix first |
| AutoPick.ResolveFrame | crates/micronet/src/net/mod.rs:247-304 | resolving yields a listed interface, changes nothing but link states, only brings links up, and none when passive |
| AutoPick.AutoPickIsLeast | crates/micronet/src/net/mod.rs:269-304 | carrier at first read: least such name, no link touched; else least name with carrier at the deciding read, or least of all; at most 26 polling reads |
| AutoPick.PollIsBounded | crates/micronet/src/net/mod.rs:285-295 | the polling loop reads at most once per 200 ms before its deadline plus once |
| AutoPick.FallbackIsLate | crates/micronet/src/net/mod.rs:278-304 | without carrier at first every link that is down is tried and up iff that worked; the fallback comes only after a read 5 s or more after that |
| AutoPick.DarkResolve | crates/micronet/src/net/mod.rs:285-295 | with instant operations and no carrier, links up: exactly 26 polling reads in exactly 5 s |
| Dhcpd.ChangedFlagIsExact | crates/micronet/src/dhcp/conf.rs:47-57 | the returned flag is true iff the running process has loaded something else than what is now on disk |
| Dhcpd.StopEmpties | crates/micronet/src/pidfile.rs:36-52 | after stop no dnsmasq of ours lives |
| Dhcpd.ReloadCoherent | crates/micronet/src/dhcp/run.rs:66-91 | one write-and-reload under any faults: coherent again; success means exactly one process, which loaded the new text; failure means nothing touched or nothing running |
| Dhcpd.ReloadSucceeds | crates/micronet/src/dhcp/run.rs:66-91 | exactly when it succeeds; an up-to-date server that takes SIGHUP is not restarted |
| Dhcpd.CoherentForever | crates/micronet/src/dhcp/run.rs:29-91 | over every sequence of reloads, stops and crashes whatever runs is owned by the pidfile and has loaded the conf on disk |
| Dhcpd.FailedRestartRecovers | crates/micronet/src/dhcp/run.rs:66-74 | after a failed restart, any later successful call serves the new conf although the file no longer changes |
| Hosts.Host.ReloadOrRestartProcess | crates/micronet/src/dhcp/run.rs:66-91 | start, restart or SIGHUP with fallback: equals the state machine |
| Hosts.Host.DnsmasqReload | crates/micronet/src/apply/mod.rs:103-113 | render, ensure conf, reload or restart, as one journalled operation |
| Hosts.Host.ReadCarriers | crates/micronet/src/net/mod.rs:274-277 | first name of the list with carrier |
| Hosts.Host.UpAll | crates/micronet/src/net/mod.rs:279-284 | best-effort link up on every link that is down |
| Hosts.Host.Poll | crates/micronet/src/net/mod.rs:286-295 | the timed loop equals the recursive poll |
| Hosts.Host.ResolveAuto | crates/micronet/src/net/mod.rs:269-304 | the whole automatic choice |
| Hosts.Host.ResolveIface | crates/micronet/src/net/mod.rs:247-261 | automatic, pinned, or refused as not Ethernet |
| HostApply.IsolateIface | crates/micronet/src/apply/mod.rs:191-217 | the isolation loop, skipping kept and already-off interfaces |
| HostApply.FlushAllEthernet | crates/micronet/src/apply/mod.rs:219-235 | the teardown flush loop |
| HostApply.ApplyClient | crates/micronet/src/apply/mod.rs:237-260 | client mode, step by step with every failure exit |
| HostApply.ApplyStatic | crates/micronet/src/apply/mod.rs:262-279 | static mode, step by step with every failure exit |
| HostApply.ApplyGateway | crates/micronet/src/apply/mod.rs:281-302 | gateway mode, step by step with every failure exit |
| HostApply.Prepare | crates/micronet/src/apply/mod.rs:129-137 | everything before the probe |
| HostApply.Select | crates/micronet/src/apply/mod.rs:138-143 | probe, then client on an offer |
| HostApply.SelectNoOffer | crates/micronet/src/apply/mod.rs:145-163 | temporary address, ping unless local, decide, apply |
| HostApply.ApplyWith | crates/micronet/src/apply/mod.rs:127-164 | one whole apply: result, host and journal |
| HostApply.TeardownWith | crates/micronet/src/apply/mod.rs:167-183 | one whole teardown: result, host and journal |
| ApplyLaws.IsolateLaw | crates/micronet/src/apply/mod.rs:189-217 | the kept interface is untouched; if listing, flushes and link-downs work every other physical Ethernet is down, and has no address except all those it had if it was already down and its name ends in `inet`; if stops work its dhclient is gone, unless the link was down and showed no address |
| ApplyLaws.PrepareLaw | crates/micronet/src/apply/mod.rs:128-137 | before the probe nothing probes, pings or serves; a failure leaves our server as it was; success leaves it dead, the chosen interface up with its addresses, and the others isolated since the choice if nothing failed |
| ApplyLaws.ClientLaw | crates/micronet/src/apply/mod.rs:237-260 | success: server stop, flush, dhclient start and wait are the last four steps; dhclient runs, no server; the addresses are the lease, behind the old ones only after an unnoticed flush failure; live address reported |
| ApplyLaws.StaticLaw | crates/micronet/src/apply/mod.rs:262-279 | success: server stop and default route via the gateway are the last two steps, no server, the decided status |
| ApplyLaws.GatewayLaw | crates/micronet/src/apply/mod.rs:281-302 | success: gateway address held, server serving what was rendered, no default route unless its removal failed unnoticed; failure: no server; the start is the last act |
| ApplyLaws.TempAddrNotLocal | crates/micronet/src/apply/mod.rs:145-156 | the temporary static address never makes the gateway address look local, for valid configurations |
| ApplyLaws.SelectLaw | crates/micronet/src/apply/mod.rs:138-163 | from the probe on: ordered journal, fail closed, decided status, mode holds, only the chosen interface touched |
| ApplyTheorems.ApplyLaw | crates/micronet/src/apply/mod.rs:127-164 | the contract of one apply under arbitrary failures (main result 4), the chosen interface up after success, the others isolated since the choice if nothing failed, and a gateway selection with a ping in vain or the address already local |
| ApplyOutcome.ApplyOutcomeLaw | crates/micronet/src/apply/mod.rs:127-164 | an invalid configuration touches nothing; without an interface the reason is returned; else it fails iff a step on the chosen interface, route or server or the probe fails, which is then the last step |
| ApplyOutcome.WorkingApply | crates/micronet/src/apply/mod.rs:127-164 | with working commands: an offer gives client mode; no offer another mode, unless an unreadable static address is in the way; no answer the probe error |
| ApplyOutcome.ClientReportsLease | crates/micronet/src/apply/mod.rs:237-260 | after a client selection whose flush worked the interface has the lease and nothing else, and that is reported unless its name hides it |
| ApplyTheorems.ApplyLeaves | crates/micronet/src/apply/mod.rs:189-217 | exactly what a clean apply leaves on each other Ethernet; links up when the interface is chosen are those up before, and more only if an automatic choice saw no carrier |
| ApplyTheorems.ApplyQuiets | crates/micronet/src/apply/mod.rs:203-208 | if listings, flushes and stops worked, exactly the dhclients on links that were down without readable address still run |
| Lapses.HiddenAddressSurvives | crates/micronet/src/apply/mod.rs:203-205 | a run in which everything works and a link that was down under the name `inet` keeps its address |
| ApplyTheorems.GatewayAsks | crates/micronet/src/apply/mod.rs:151-156 | a gateway selection pinged its address in vain iff the prepared host did not have that address itself; preparing never makes it local |
| ApplyTheorems.StaticCidrIsLive | crates/micronet/src/apply/mod.rs:147-149 | exactly when the address reported by a static selection is the one the interface reports |
| Witness.StaticCidrCanBeStale | crates/micronet/src/apply/mod.rs:262-279 | a run in which it is not |
| ApplyTheorems.GatewaySettles | crates/micronet/src/apply/mod.rs:281-302 | a successful gateway apply leaves the gateway address as the reported one iff the name does not end in `inet` and the flush of that interface worked or left only link-local addresses; no other failure matters |
| ApplyTheorems.GatewayForever | crates/micronet/src/apply/mod.rs:147-163 | from there any number of applies without offer keep the address and never flush it, add one or ping |
| ApplyTheorems.GatewayEveryTime | crates/micronet/src/apply/mod.rs:151-162 | and each of them that succeeds is gateway mode again, whatever a ping would have answered |
| ApplyTheorems.GatewayHolds | crates/micronet/src/apply/mod.rs:281-302 | every successful gateway apply leaves its address held and readable iff the name does not end in `inet` |
| ApplyTheorems.GatewayWinsForever | crates/micronet/src/apply/mod.rs:151-162 | from there any number of successful applies without an offer select gateway mode again, whatever failed unnoticed |
| Lapses.HiddenGatewayIsLost | crates/micronet/src/apply/mod.rs:147-163 | without that condition: two applies on an interface `inet`, gateway mode first, then static mode with a default route via its own address |
| ApplyTheorems.TeardownLaw | crates/micronet/src/apply/mod.rs:167-183 | no link changes state; success leaves no server, no route (unless unnoticed), and with working flushes and stops nothing of ours; idempotent |
| ApplyOutcome.TeardownOutcome | crates/micronet/src/apply/mod.rs:167-183 | an invalid configuration touches nothing; without an interface the reason is returned; else it fails iff the server cannot be stopped, stopping there, or the route removal fails at the end |
| ApplyOutcome.WorkingTeardown | crates/micronet/src/apply/mod.rs:167-183 | with working commands and an interface to choose: Ok, nothing of ours left, no default route |
| ApplyTheorems.TeardownFindsIt | crates/micronet/src/apply/mod.rs:167-183 | after a clean apply a successful teardown names the interface apply chose iff it is pinned, plugged at the read, or first of the list |
| Served.GatewayAnswersRecords | crates/micronet/src/apply/mod.rs:281-302 | after a gateway apply the one live dnsmasq has loaded exactly the configured host records, in order, each with its own address or else the gateway's, none when DNS is off |
| Served.GatewayServesPlan | crates/micronet/src/apply/mod.rs:281-302 | and its whole configuration: chosen interface, gateway address, planned pool, lease time, itself as router and name server, the names |
| DaemonLoop.Loop.SetHealth | crates/micronet/src/daemon/mod.rs:351-372 | health changes only when different |
| DaemonLoop.Loop.RecordVerdict | crates/micronet/src/daemon/mod.rs:336-349 | saturating streak and the threshold of three |
| DaemonLoop.Loop.StoreStatus | crates/micronet/src/daemon/mod.rs:169-174 | stores the selection, stops the timer, resets health |
| DaemonLoop.Loop.ApplyNow | crates/micronet/src/daemon/mod.rs:204-221 | apply with the flag up; a failure changes only the host |
| DaemonLoop.Loop.OnConfigReload | crates/micronet/src/daemon/mod.rs:176-202 | an invalid file keeps everything; a valid one is stored before it is applied |
| DaemonLoop.Loop.RefreshLiveStatus | crates/micronet/src/daemon/mod.rs:299-311 | reported address and server flag become the live ones |
| DaemonLoop.Loop.MaybeSelfHeal | crates/micronet/src/daemon/mod.rs:313-334 | restarts the missing process of the mode |
| DaemonLoop.Loop.Tick | crates/micronet/src/daemon/mod.rs:223-297 | the whole tick |
| DaemonLoop.Loop.Serve | crates/micronet/src/daemon/mod.rs:134-154 | any sequence of events leaves the state of the fold |
| DaemonLoop.RunDaemon | crates/micronet/src/daemon/mod.rs:100-160 | started on any host and run on any events, a server is left only under gateway mode and every start found none; up to date if what was left over was |
| DaemonOwnership.ApplyOwnership | crates/micronet/src/apply/mod.rs:134-143 | an apply keeps conf and process coherent; failure leaves no server or the old one; a non-gateway success leaves none |
| DaemonOwnership.DnsmasqOnlyInGateway | crates/micronet/src/daemon/mod.rs:100-154 | main result 1 |
| DaemonOwnership.TickRestarts | crates/micronet/src/daemon/mod.rs:313-326 | a tick with carrier restarts dnsmasq iff the stored mode is gateway and none lives |
| DaemonVerdicts.TickHeals | crates/micronet/src/daemon/mod.rs:313-334 | a tick with carrier starts exactly what is missing: our server for a gateway, dhclient on the interface for a client; it leaves links, addresses and routes alone |
| Lapses.FailedApplyThenRestart | crates/micronet/src/daemon/mod.rs:313-326 | a run in which a reconfigure fails at the probe and leaves no server, and the next tick starts one |
| DaemonOwnership.TickReportsLive | crates/micronet/src/daemon/mod.rs:256-271 | after a tick with carrier the reported address and server flag are live, mode and interface unchanged |
| DaemonOwnership.ConfigFollowsReloads | crates/micronet/src/daemon/mod.rs:176-202 | the configuration changes exactly by a valid reload, even if its apply fails |
| DaemonVerdicts.StatusLaw | crates/micronet/src/daemon/mod.rs:169-221 | a successful apply is stored as it is, stops the timer and resets health; a failed one or none leaves the selection; a refused reload changes nothing |
| DaemonVerdicts.StatusIsLastSuccess | crates/micronet/src/daemon/mod.rs:100-221 | over every run interface and mode are those of the last apply that succeeded |
| DaemonVerdicts.TickVerdict | crates/micronet/src/daemon/mod.rs:66-84 | a tick with carrier marks unhealthy iff, on the host it leaves, no address is read, or it is a gateway without server, or a client without dhclient; and that reason |
| DaemonVerdicts.VerdictLaw | crates/micronet/src/daemon/mod.rs:223-271 | the same of every tick of every run; an empty interface is unhealthy, and a tick without carrier is no verdict |
| DaemonHistory.HealthIsLastThree | crates/micronet/src/daemon/mod.rs:336-372 | main result 2, including reason and 32-bit saturation |
| DaemonHistory.ExplainedRun | crates/micronet/src/daemon/mod.rs:85-88 | the streak is the length of the unhealthy tail of the history, saturated |
| DaemonHistory.ReselectLaw | crates/micronet/src/daemon/mod.rs:252-296 | main result 3: exactly when a tick re-selects, in milliseconds, and what an outage is |
| DaemonHistory.OutageLasts | crates/micronet/src/daemon/mod.rs:274-280 | carrierless ticks without carrier or success since mean the timer runs |
| DaemonHistory.TickDoesAsSeen | crates/micronet/src/daemon/mod.rs:274-296 | a carrierless tick runs an apply iff its observation says so, with the observed outcome; otherwise it only starts the timer and resets health |
| DaemonTiming.ReselectsAreSpaced | crates/micronet/src/daemon/mod.rs:56-63 | after a successful re-select the next is at least `linkRetrySecs` later |
| DaemonTiming.FailedReselectRepeats | crates/micronet/src/daemon/mod.rs:284-296 | over every run: after a failed re-select every later carrierless tick of the same outage re-selects, if the retry time was not raised |
| Lapses.TwoReselectsInOneOutage | crates/micronet/src/daemon/mod.rs:284-296 | a run with two failed re-selects in one outage |
| Addr.SlashDecides | crates/micronet/src/net/addr.rs:54-61 | dotted decimal plus slash is prefix-free |
| Addr.PrintCidrInjective | crates/micronet/src/apply/mod.rs:288-291 | comparing printed CIDRs is comparing addresses |
| Addr.ParseFirstInetCidr | crates/micronet/src/net/addr.rs:29-44 | the collecting loop returns the preferred token |
| Text.LinesWithCr | crates/micronet/src/net/addr.rs:29-62 | lines end at a newline with an optional carriage return before it; the last one needs none |
| Addr.ReportedIsPresent | crates/micronet/src/net/mod.rs:386-390 | for any text, a positive first-CIDR test implies a positive text test |
| Addr.LocalTestIsExact | crates/micronet/src/net/addr.rs:54-62 | on printed output the test is positive iff some entry has that address and a name not ending in `inet` |
| Addr.HiddenAddressIsMissed | crates/micronet/src/net/addr.rs:54-62 | the exception at work |
| Addr.FirstCidrIsFirst | crates/micronet/src/net/addr.rs:29-44 | the preferred address is the first outside 169.254.0.0/16, else the very first |
| Addr.ReportedIsFirst | crates/micronet/src/net/addr.rs:29-44 | on printed output the reported address is the first non-link-local visible one, else the first |
| Addr.ReadOfOneInterface | crates/micronet/src/net/mod.rs:392-398 | on the output for one interface that is the read of the model: none if the name ends in `inet`, else the first address |
| Conf.RenderConf | crates/micronet/src/dhcp/conf.rs:11-44 | the appending loop produces exactly the specified lines, for every prefix length |
| Conf.ConfRoundTrip | crates/micronet/src/dhcp/conf.rs:33-42 | reading the rendered text back gives exactly one record per configured one, in order: its normal name with its own address or else the gateway's; none when DNS is off |
| Conf.ServedNamesAreAMap | crates/micronet/src/dhcp/conf.rs:35-41 | and no name occurs twice |
| ConfOptions.ConfReadsBack | crates/micronet/src/dhcp/conf.rs:11-44 | an independent reader finds exactly the planned options in the rendered file: interface, listen address, pool with mask and lease time, router, name server, files, local domain, host records |
| ConfOptions.DottedDenotes | crates/micronet/src/dhcp/conf.rs:11-44 | the addresses in it are printed as their four numbers |
| Elf.ReadContents | crates/micronet/src/version.rs:146-148 | offset and size, then the slice; overflow iff the offset field ends above `usize::MAX` |
| Elf.FindSection | crates/micronet/src/version.rs:150-161 | the header loop stops at the first wanted name, or at one that does not decode; it cannot overflow |
| Elf.SectionIn | crates/micronet/src/version.rs:137-162 | both classes: exactly the least-index section of that name when all earlier names decode, with the exact overflow condition |
| Elf.ElfSectionData | crates/micronet/src/version.rs:92-108 | magic, class and byte order dispatch over the specification |
| ElfFiles.WrittenSectionsReadBack | crates/micronet/src/version.rs:92-189 | of every file written field by field from named sections, for both classes and byte orders, the reader returns the contents of the first section of that name, or nothing if there is none |
| ElfFiles.UnusableIsRefused | crates/micronet/src/version.rs:142-144 | short section headers, an empty table or a string table outside of it: nothing is returned |
| ElfFiles.OverflowsWhenHigh | crates/micronet/src/version.rs:145-146 | with a usable header, the exact range of string-header positions that overflow |
| Utf8Text.Utf8IsText | crates/micronet/src/version.rs:191-195 | names decode iff they are the UTF-8 encoding of some text |
| Elf.Elf32NeverOverflows | crates/micronet/src/version.rs:164-189 | no input overflows the 32-bit path |
| Elf.Elf64CanOverflow | crates/micronet/src/version.rs:145-146 | a well-formed 64-byte file on which the reader overflows, whatever section is asked for |

## Left out

- The DHCP probe's packets and sockets, IPC framing and routing, inotify, signals, CLI, logging and JSON: wrappers around libraries; the probe is an answer of the outside world.
- Running `ip`, `ping`, `ethtool`, `dhclient` and reading sysfs: replaced by host state with arbitrary failures. Reads of links and pidfiles are exact; addresses are read as the text reader reads them, so not from a name ending in `inet`; carrier is decided by the outside.
- `is_physical_ethernet` and `cmdline_matches`: file and text filters that would only add easy members; the list of physical names and the liveness of a pid are given.
- The `applying` branch of `tick`: modelled, and proved unreachable (`applying` is false in every reachable state).
- The two ELF functions are one method over a layout: they differ only in the constants of `Elf.Elf64` and `Elf.Elf32`.
- Elf.SectionIn: the checked additions of the header loop are not branches of the model, because `Elf.HeadersAreLow` shows that they never fail.
- Error messages and the distinction between causes of the same failed step: only the error variant is kept, and a failed system step inside apply is `Other`.
- A pidfile rewritten by another process while stop waits, and pids reused by foreign processes.
- Hosts.Host.WaitForIpv4: the 200 ms polling up to the timeout and the returned flag are not modelled, because the only caller ignores the flag; waiting takes some time, after which a running dhclient may have added a lease.
- Several default routes and IPv6.
- Version caching, host name and `format_info`.
