# Verified model of the edge firewall, profile activation and their helpers

This project models the step-by-step code of the repository that has to keep a
guarantee while it is half done, interrupted or failing, and proves what that
guarantee is.

- **The web gates** (`scripts/cloudflare_docker_firewall.py`). Per address family
  there are two gates, one in raw/PREROUTING in front of DNAT and one in
  DOCKER-USER behind it. A gate is a parent chain whose first rule hooks a managed
  chain for one interface; the managed chain lets published Cloudflare ranges through
  to ports 80 and 443 and drops the rest. `Cidr`, `Ranges` and `State` hold the
  address arithmetic (RFC 4632, section 3.1; RFC 4291, section 2.3), the range lists
  and the state file; `GateRules`, `GateSemantics`, `OptionOrder`, `GateSoundness` and
  `GateForms` the rules, their canonical form, the order of their options and what they do
  to a packet; `Netfilter`, `Backend` and `GateGuarantees` one live table under commands
  that may fail; `Host` the four gates, the state file and whole sequences of the script's
  commands.
- **UFW hardening** (`scripts/configure_cloudflare_ufw.py`). `UfwRules` classifies the
  numbered rules and the SSH modes, `UfwReview` says what the classes mean in terms of the
  rules alone, `UfwPackets` what a compliant list admits, `UfwLists` and `UfwPhases` follow the list through insertions at unknown places and
  deletions by number, and `UfwHost` is `apply_hardening` with its snapshot rollback.
  `Deletion` is the delete-by-number argument both scripts rely on.
- **Profile activation** (`infra/hermes/control_server.py`). `EnvFile` holds the two
  `.env` readers, `Activation` the runtime root, its file operations and its readers.
- **Smaller parts**: `ShellQuote` and `Base64` (`apps/sandbox-worker/src/index.ts`) and
  `DiskUsage` (`scripts/check_disk_usage.py`).

## How failure is modelled

A command or file operation goes *Fine*, ends with a *Nonzero* status and no effect, or
is *Raised* out of (a timeout, a signal, an I/O error) before or after it took effect.
Each object carries an arbitrary plan of outcomes, one per step, and a clock that counts the
steps it has taken, so a statement about a method holds for a failure of any step, or of any
number of them. Every change goes into a ghost log. Statements about logs are therefore
statements about every intermediate state, including the one a crash would leave behind.
`Went` (and `Smoothly`, over a host and its tables) says that none of the steps of a stretch
failed; under it the contracts say exactly when an operation succeeds. Where an operation
undoes something, its contract names the moment `undo` at which that began, what led to it,
and how it must end if its own steps go well.

A table also records each call of `replace_chain` and `ensure_first_hook`: the table it found
and the step it began with. What such a call does to a gate depends on that table and on the
plan from that step on alone (`Breach`): a replacement opens the gate exactly under the failures
of `OpensWindow`, a hook exactly if it is for another interface and goes in. `Accounted` is the
account every operation gives of its stretch of the log, for a gate watched on any interface
and any set of range lists: no rule of another program is gone, and a state in which the gate is
open follows one in which it is closed **if and only if** one of the calls met its failures
while the gate was closed. "Closed" means: the hook of the watched interface comes first and the
chain enforces one of the lists.

## What the code does not guarantee

These are properties one would expect of the code, or that its comments suggest, which turn out
to be false of it. Each has a condition or a lemma here.

- *A gate that is closed stays closed under any failure.* `chain_exists` reads every
  nonzero status as "absent". If that probe fails once for a chain that exists, and
  the restore then fails, the clean-up in `replace_chain` flushes the hooked
  chain, and web packets pass. `Backends.WindowHappens` carries such a failure out;
  `Backends.Backend.ReplaceChain` proves that an existing chain is flushed exactly under
  these failures (`OpensWindow`), and `Backends.Backend.Install` that for a closed gate they
  are exactly the ones that open it.
- *The emergency deny is installed on the right interface.* If `ip -6 route` comes
  back empty although an IPv6 route exists, the IPv6 gate follows the IPv4 interface, and
  the hook on the real one is deleted. `Hosts.InterfaceFallback` gives the exact condition,
  `GateGuarantees.MovedHookIsOpen` the effect. `Hosts.Host.KeptWithout` proves that over any
  run this and the failures of the first item are all that can open a gate on its ingress
  interface, `Hosts.Host.FailuresOpen` that on a closed gate they do.
- *Equal canonical sequences mean equal behaviour.* A second `-m` overwrites the first in
  the canonical form, but not in the kernel. `GateForms.ComparisonAloneIsUnsound` shows a
  raw chain that compares equal and lets web packets by. `GateForms.ComparisonIsSoundIff`
  gives the exact condition: no rule carries a pair that asks for more than the rule reads
  as. The `-C` probes make up for it.
- *`apply` repairs any chain.* A listed rule whose `-s` is not a canonical CIDR, whose port
  only looks like digits, or whose quotes do not balance makes `verify` raise `ValueError`,
  which `apply` does not catch. `GateForms.ChainUnreadableIff` gives the exact condition,
  `GateGuarantees.StuckExists` such a table, and `Backends.Backend.Apply` proves that it is
  what `apply` fails on when no command does, besides a missing parent chain.
- *A failed first refresh leaves no state file.* It leaves the candidate file, although the
  gates deny everything, exactly if the writing of the file was reached and its rename took
  effect (`Replaces`): the interruption, the directory sync or the unlink came after.
  `Hosts.Host.Refresh` proves this for a deny that went in, `Hosts.Host.FirstRefreshLeavesFile` has such a failure.
- *`schema_version` must be 1 and `ports` the two integers.* JSON `1.0` and `true` pass as
  the version, `80.0` and `443.0` as ports. `PersistedState.ParseState` has the exact set of
  accepted files, `PersistedState.FloatsAreAccepted` the input.
- *A compliant UFW list admits every desired pair.* A DENY or REJECT rule whose target is
  not a TCP port list is never reported. `UfwPackets.CompliantMayDenyAll` shows a compliant
  list that admits nothing; `UfwPackets.DesiredIsAdmittedIff` proves that a packet is let in,
  whatever uninterpreted texts mean, exactly if no such rule that can match it comes before
  the first rule that lets it in, `UfwPackets.SshIsAdmittedIff` the same for SSH.
- *A rollback whose own steps go well restores the prior state.* If the probes fell back while
  the prior state was verified, that state is for the wrong interface, and re-applying it is
  refused. `Hosts.Host.Refresh` proves that a rollback none of whose steps fails restores the
  prior state if and only if that is for the ingress interfaces.
- *The global SSH mode can always be completed.* Where UFW does not handle IPv6,
  `allow 22/tcp` never adds the IPv6 rule the script asks for. `UfwHosts.Ufw.AddSsh` and
  `UfwHosts.Ufw.ApplyHardening` prove that hardening then cannot succeed, and is rolled back,
  unless that rule or both rules are there (`Capable`).
- *A failed activation leaves nothing behind.* The removal of the temporary directory ignores
  its own errors, and does not cover the two steps that make it. `Activation.Home.WriteRuntimeProfile`
  says exactly when the directory stays.
- *Activation can always be retried.* `hmac.compare_digest` raises `TypeError` on a key
  that is not ASCII, so a retry after such a profile was published fails, whatever the
  first attempt reported: `Activation.Home.ActivateAndRetry`, `Activation.ComparisonIsEquality`.

## Model

| member | source | states |
|---|---|---|
| Cidrs.PrefixIsNetwork | scripts/cloudflare_docker_firewall.py:164-169 | A /24 of IPv4 is the addresses with the same first three octets, a /64 of IPv6 those with the same upper half. |
| Cidrs.StrictMeans | scripts/cloudflare_docker_firewall.py:164-166 | A strict block is one whose prefix length and address fit, up to 32 or 128 bits, with no host bit set. |
| Cidrs.HasIsInterval | scripts/cloudflare_docker_firewall.py:181-183 | Membership by network mask, which the overlap test uses, is membership in the interval from network address to broadcast address, for 32- and 128-bit addresses. |
| Cidrs.ShorterPrefixContains | scripts/cloudflare_docker_firewall.py:181-183 | Of two canonical blocks with a common address, the one with the shorter prefix contains the other. |
| Cidrs.OverlapMeansNesting | scripts/cloudflare_docker_firewall.py:181-183 | The library's four-way overlap test holds if and only if the blocks share an address, and if and only if one contains the other. |
| Ranges.ValidateRanges | scripts/cloudflare_docker_firewall.py:147-189 | The two loops accept exactly the lists of 1 to 256 canonical, global, non-zero-length blocks of the family without duplicate or overlap, and return them sorted. |
| Ranges.SortedIsOrderedPermutation | scripts/cloudflare_docker_firewall.py:184-189 | The sort orders by network address and prefix length and is a permutation. |
| Ranges.ValidatedIsCanonical | scripts/cloudflare_docker_firewall.py:147-189 | An accepted list is a permutation of the input, with strictly increasing addresses and no address in two blocks, and is itself acceptable. |
| Ranges.ValidationIgnoresOrder | scripts/cloudflare_docker_firewall.py:147-189 | Line order changes neither acceptance nor result. |
| Ranges.ValidationIsIdempotent | scripts/cloudflare_docker_firewall.py:147-189 | Every accepted list is a fixed point of validation. |
| PersistedState.ParseState | scripts/cloudflare_docker_firewall.py:211-263 | A state is returned exactly for the written forms of that state, and only if it is valid; everything else is rejected. The written forms are `to_json`'s fields, with the version also as `1.0` or `true` and each port also as a float. |
| PersistedState.Spellings | scripts/cloudflare_docker_firewall.py:205-262 | Interface names are 1 to 15 letters, digits, and `_.:-`, but not `lo`; digests 64 lower-case hex digits. |
| PersistedState.StateRoundTrip | scripts/cloudflare_docker_firewall.py:66-82 | Reading the written form of any valid state gives that state back. |
| PersistedState.WrittenIsRead | scripts/cloudflare_docker_firewall.py:211-263 | Every written form of a valid state, canonical or not, is read as that state. |
| PersistedState.ParseAcceptsOnlyWrittenStates | scripts/cloudflare_docker_firewall.py:211-263 | Whatever is accepted is a written form of a valid state, field for field. |
| PersistedState.FloatsAreAccepted | scripts/cloudflare_docker_firewall.py:226-227 | The file with version `1.0` and ports `80.0` and `443.0` is accepted for every valid state. |
| GateRules.BuildChainRules | scripts/cloudflare_docker_firewall.py:266-329 | The builders of both gates emit, per port, one RETURN for each range in order and one DROP, and a final RETURN. |
| GateRules.CanonicalChainRule | scripts/cloudflare_docker_firewall.py:366-461 | The option loop reads a rule, rejects it, or dies of ValueError exactly as the recursive scan says, for every token list. |
| GateRules.TwoWebForms | scripts/cloudflare_docker_firewall.py:399-408 | Whatever reads as a web rule is for port 80 or 443 and either returns a source or drops everything. |
| GateRules.CanonicalChainOutput | scripts/cloudflare_docker_firewall.py:411-473 | A listing reads as the sequence of its rules' forms; the first line that does not read decides the failure, a line that `shlex.split` cannot split included. |
| GateSemantics.WebRulePrints | scripts/cloudflare_docker_firewall.py:311-329 | With its options in the order given, the kernel's listing of a built rule differs from it only by the explicit `-m tcp` of the pre-DNAT gate. |
| GateSemantics.WebRuleReads | scripts/cloudflare_docker_firewall.py:366-461 | Canonicalising a built rule, with or without the printed `-m tcp`, recovers its port, source and verdict. |
| OptionOrder.CanonicalIgnoresOptionOrder | scripts/cloudflare_docker_firewall.py:366-461 | Permuting the option/value pairs of a readable rule with distinct options does not change its canonical form. |
| OptionOrder.OrderActs | scripts/cloudflare_docker_firewall.py:366-408 | Nor does it change what a dropping or returning rule does to any packet. |
| GateSoundness.ListedReads | scripts/cloudflare_docker_firewall.py:587-589 | A built rule, listed with its options in any order, reads as what it says; the conntrack options of DOCKER-USER rules come back in another order than given. |
| GateSoundness.BuiltChainReads | scripts/cloudflare_docker_firewall.py:587-589 | Canonicalising the built rules, and any listing of them in any option orders, always succeeds with the same sequence. |
| GateSoundness.CanonsDetermineRanges | scripts/cloudflare_docker_firewall.py:587-589 | Two range lists with the same canonical sequence are equal. |
| GateSoundness.InstalledIsAccepted | scripts/cloudflare_docker_firewall.py:575-598 | A freshly restored chain, in whatever option orders it is listed, passes the comparison and all `-C` probes. |
| GateSoundness.AcceptedIsInstalled | scripts/cloudflare_docker_firewall.py:586-598 | For a list without repeats, comparison and probes accept no chain but the built one, up to the order of options within its rules. |
| GateSoundness.ScanHolds | scripts/cloudflare_docker_firewall.py:366-408 | Whatever the scan collects from a rule holds of every packet the rule matches, and the last `-j` is the target. |
| GateSoundness.WebEffect | scripts/cloudflare_docker_firewall.py:366-461 | A rule that reads as a web rule acts only on TCP packets of that port and source, and only with its verdict, whatever other tokens it contains. |
| GateSoundness.AcceptedChainDecides | scripts/cloudflare_docker_firewall.py:575-598 | First-match evaluation of any accepted chain, in whatever option orders, drops exactly the web packets from outside the ranges and returns every other packet. |
| GateForms.ComparisonIsSoundIff | scripts/cloudflare_docker_firewall.py:588-598 | A chain that compares equal decides like the range list, for every packet and every meaning of what the gates do not interpret, if and only if each pair of each rule asks no more than the rule reads as. |
| GateForms.ComparisonAloneIsUnsound | scripts/cloudflare_docker_firewall.py:723-735 | A raw chain with `-m socket` in its drop rule compares equal and returns packets it should drop; the `-C` probes reject it. |
| GateForms.ChainUnreadableIff | scripts/cloudflare_docker_firewall.py:366-418 | Reading a chain ends in an uncaught ValueError if and only if its first line that does not read has an unbalanced quote, or a bad `-s` or port value before anything else is wrong with it. |
| GateForms.GatesAgree | scripts/cloudflare_docker_firewall.py:575-735 | When a packet's destination port equals its original port, accepted chains of the two gates decide it alike. |
| Netfilter.ManagedHookPositions | scripts/cloudflare_docker_firewall.py:342-363 | The result is, in ascending order, exactly the numbers of the rules that end in a jump to the managed chain. |
| Netfilter.LaterJumpsDeleted | scripts/cloudflare_docker_firewall.py:554-555 | Deleting all later jumps leaves the first rule and the other programs' rules in their order. |
| Netfilter.LaterJumpDeleted | scripts/cloudflare_docker_firewall.py:554-555 | The next deletion in descending order hits the jump meant, renumbering included, and removes no other program's rule. |
| Netfilter.CrashesIffStuck | scripts/cloudflare_docker_firewall.py:575-592 | For validated ranges `verify` dies of ValueError exactly on a hooked chain with such a line. |
| Netfilter.HookOpens | scripts/cloudflare_docker_firewall.py:548-549 | Inserting a hook removes no other rule and opens a gate exactly if it was closed and the hook is for another interface than the watched one. |
| Netfilter.RestoreCloses | scripts/cloudflare_docker_firewall.py:541 | Restoring a validated list leaves the gate closed exactly if the hook of the watched interface is first, so that it never opens a closed gate. |
| Netfilter.FlushOpens | scripts/cloudflare_docker_firewall.py:543-545 | A flush opens the gate exactly if it was closed: an empty chain enforces no list. |
| Netfilter.EmptiedBreaksGuard | scripts/cloudflare_docker_firewall.py:542-546 | A log that passes from a closed gate through the emptied chain has lost the guard. |
| Backends.Backend.Verify | scripts/cloudflare_docker_firewall.py:575-598 | Success implies hook first, hook unique, chain accepted; if nothing fails the outcome (done, error, uncaught error) is exactly that of the table. |
| Backends.Backend.EnsureManagedChain | scripts/cloudflare_docker_firewall.py:527-529 | The managed chain exists afterwards, and an existing one keeps its rules. |
| Backends.Backend.RestoreOrCleanUp | scripts/cloudflare_docker_firewall.py:536-546 | The test restore, the restore and the clean-up: every state passed through, and the failures that flush the chain, with the account of the stretch. |
| Backends.Backend.ReplaceChain | scripts/cloudflare_docker_firewall.py:531-546 | Success installs the built chain and leaves the parent alone; an existing chain is emptied if and only if the failures are those of `OpensWindow`; the one call recorded accounts for the stretch. A replacement of a missing chain that fails in the restore alone, and is cleaned up, leaves the table as it was. |
| Backends.Backend.EnsureFirstHook | scripts/cloudflare_docker_firewall.py:548-555 | Success leaves one hook followed by the old rules minus every old jump, in order; from the insertion on the hook is first at every step, and nothing changes before; no other rule is lost. |
| Backends.Backend.Install | scripts/cloudflare_docker_firewall.py:563-564 | On the watched interface a gate that was closed at any step, this call's included, is opened later if and only if the failures are those of `OpensWindow` on a gate closed by then. It succeeds only if no command raised. |
| Backends.Backend.Apply | scripts/cloudflare_docker_firewall.py:557-565 | Success means verified, with the parent exactly hook plus foreign rules and the chain as it was or as built; without failures it succeeds exactly when the parent exists and the hooked chain can be read, and on an accepted table it issues no mutation; unless the failures are those of a window, a gate on the watched interface is never opened once closed; under any failure, the full account. |
| Backends.Backend.ManagedPresent | scripts/cloudflare_docker_firewall.py:567-573 | True only if the managed chain exists, and exactly then if nothing fails, although the code also looks for jumps. |
| GateGuarantees.HookGoesFirst | scripts/cloudflare_docker_firewall.py:548-549 | A hook at the head sends its interface's packets, and no others, through the managed chain before any other rule. |
| GateGuarantees.VerifierSound | scripts/cloudflare_docker_firewall.py:701-735 | For any table that passes `verify`, whatever else it holds, web packets on the interface from outside the ranges are dropped first, and all others meet the rest of the parent chain, where no other rule ends in a jump to the managed chain. |
| GateGuarantees.GuardedDrops | scripts/cloudflare_docker_firewall.py:531-565 | While the hook is first and the chain enforces one of the lists, a web packet from a source in none of them is dropped. |
| GateGuarantees.NoOpenWindow | scripts/cloudflare_docker_firewall.py:531-565 | In a stretch that kept its guard, every state after a closed one drops such a packet. |
| GateGuarantees.MovedHookIsOpen | scripts/cloudflare_docker_firewall.py:781-785 | A gate enforced on another interface does not see this interface's packets at all. |
| GateGuarantees.StuckExists | scripts/cloudflare_docker_firewall.py:381-382 | A hooked chain with a source mask that has a gap is one that `verify` dies on, so that no `apply` repairs it. |
| Backends.WindowHappens | scripts/cloudflare_docker_firewall.py:531-546 | `replace_chain` carried out on a verified deny-all table, with one failed probe and one failed restore: a state it passes through returns the packets to be dropped. |
| Hosts.DetectedIff | scripts/cloudflare_docker_firewall.py:749-785 | What the two route queries find, for every outcome: the one default interface of each family, if its name is legal, and for IPv6 that of IPv4 if there is none or the query says so. |
| Hosts.InterfaceFallback | scripts/cloudflare_docker_firewall.py:749-785 | With failing probes the detected interfaces are wrong if and only if the IPv6 route query comes back empty although there are IPv6 routes, and not one to the IPv4 interface. |
| Hosts.RunListsAreStrict | scripts/cloudflare_docker_firewall.py:1086-1167 | Every list a sequence of commands can enforce consists of canonical blocks. |
| Hosts.Host.AtomicWriteState | scripts/cloudflare_docker_firewall.py:821-851 | The state file becomes the whole new state exactly if the first three steps are fine and the rename takes effect, and is untouched otherwise; success is reported exactly if all six steps are fine; once made, the temporary file stays exactly if neither the rename nor the unlink took effect. |
| Hosts.Host.RequireExternalInterfaces | scripts/cloudflare_docker_firewall.py:788-795 | Success means these are the host's ingress interfaces, unless the probes fell back; without failures it is equivalent to that. Both interfaces were found to exist. |
| Hosts.Host.ApplyState | scripts/cloudflare_docker_firewall.py:854-859 | Success means all four gates enforce the state; without failures, success exactly when interfaces match and all tables are repairable; the account of all four tables. |
| Hosts.Host.ApplyFailClosed | scripts/cloudflare_docker_firewall.py:890-895 | Success means every gate denies all web traffic, on the ingress interfaces unless the probes fell back; if nothing fails it succeeds exactly if there are ingress interfaces and all tables are repairable, and denies there. |
| Hosts.Host.ApplyPregateFailClosed | scripts/cloudflare_docker_firewall.py:898-901 | The same for the raw gates, whose tables alone then decide. |
| Hosts.Host.VerifyState | scripts/cloudflare_docker_firewall.py:862-867 | Success implies all four gates enforce the state, and without failures is equivalent to it on matching interfaces. |
| Hosts.Host.ManagedStatePresent | scripts/cloudflare_docker_firewall.py:882-887 | True only if some managed chain exists, and exactly then without failures. |
| Hosts.Host.Prepare | scripts/cloudflare_docker_firewall.py:994-1002 | Refresh goes on only with a snapshot of the file as it is, made by a last step that did not fail, and with a loaded and verified prior state, or with neither file nor, without failures, managed chains. |
| Hosts.Host.Compensate | scripts/cloudflare_docker_firewall.py:1009-1015 | Success restores the prior state in file and gates, or denies everything where there was none; if nothing fails it succeeds exactly if the tables are repairable, for interfaces that are the ingress ones; the file changes at most once, to the prior state. |
| Hosts.Host.Replace | scripts/cloudflare_docker_firewall.py:1003-1026 | Installation succeeds exactly if the write is reached and its six steps are fine; otherwise the rollback has begun, at a moment after something failed unless the candidate could not be applied, and if none of its steps fails it ends in the prior state, in the deny, or in both having failed, exactly as the tables at that moment decide. |
| Hosts.Host.Refresh | scripts/cloudflare_docker_firewall.py:993-1028 | A transaction under arbitrary failure: the candidate everywhere, or the verified prior everywhere, or deny-all; refused before any change otherwise, as it is if making the snapshot fails. A rollback none of whose steps fails always ends in the prior state, if that is for the ingress interfaces, or, on a first refresh, in the deny, if the tables were repairable before or are when it begins. Success, and what a denied first refresh leaves in the file, exactly by the outcome of the write steps; the file is at each moment as it was, the whole prior or the whole candidate; the exact success condition when nothing fails. |
| Hosts.Host.FirstRefreshLeavesFile | scripts/cloudflare_docker_firewall.py:1008-1023 | A first refresh interrupted right after its rename ends with every gate denying and the candidate file in place. |
| Hosts.Host.RestoreBackup | scripts/cloudflare_docker_firewall.py:973-984 | Rollback ends with the snapshot's state in file and gates, or with no file and deny-all; its exact success condition without failures; the file changes at most once, to just that. A snapshot that is not valid changes nothing. |
| Hosts.Host.RefreshAndRollBack | scripts/cloudflare_docker_firewall.py:973-1028 | A rollback to the snapshot a refresh made undoes it: if nothing in it fails, the state that was there before is back in file and gates, exactly if that is for the ingress interfaces, or, where there was none, every gate denies and there is no file. |
| Hosts.Host.RunApplyState | scripts/cloudflare_docker_firewall.py:1134-1150 | The persisted state is enforced, exactly if it loads and fits when nothing fails; if not, the emergency deny begins, after a failure or on a missing, unreadable or unfitting state, and if none of its own steps fails it is active exactly if the tables are repairable, as they are if they were at the start; the account of all four tables. |
| Hosts.Host.RunApplyPregateState | scripts/cloudflare_docker_firewall.py:1111-1127 | The same for the raw gates alone, with the DOCKER-USER gates untouched. |
| Hosts.Host.BuildCandidate | scripts/cloudflare_docker_firewall.py:987-990 | A candidate is a valid state made of the validated lists and the host's ingress interfaces, unless the probes fell back; without failures there is one exactly if the interfaces match and both lists validate. |
| Hosts.Host.Execute | scripts/cloudflare_docker_firewall.py:1086-1170 | Exit code 0 means the command has done its work: the file's state is in force, made of the fetched lists or the snapshot, or there is no file and the gates deny; without failures, exit code 0 exactly if the command was feasible; the account of all tables and of the file. A command that is not confirmed, or whose interfaces, lines or snapshot are not valid, or that finds a parent chain missing, fails and changes nothing, whatever else fails. |
| Hosts.Host.Run | scripts/cloudflare_docker_firewall.py:1062-1170 | Over any sequence of refresh, apply-state, apply-pregate-state and rollback with any failures, and for gates watched on any interfaces: a gate closed to all but the lists of the run, from the start or from some step on, is opened at a later step if and only if one of the calls met, on a closed gate, the failures of `OpensWindow` or put in a hook found for another interface; no other program's rule is ever removed; the state file is only ever made absent or one whole valid state of the run; a last command with exit code 0 has done its work. |
| Hosts.Host.NothingGetsIn | scripts/cloudflare_docker_firewall.py:1062-1170 | In packets: in a run in which neither such failures nor, for IPv6, such a fallback occur, from the first step at which a gate is closed it drops, at every later one, every web packet on its ingress interface from a source in none of the range lists persisted, validated or restored in the run. |
| Hosts.Host.KeptWithout | scripts/cloudflare_docker_firewall.py:518-565 | In a run in which neither the failures of `OpensWindow` nor, for IPv6, probes that fall back occur, a gate closed on its ingress interface stays closed; so in particular if nothing fails. |
| Hosts.Host.FailuresOpen | scripts/cloudflare_docker_firewall.py:518-565 | The converse: those failures, met by a replacement of a closed gate's chain, open it, and so does a hook for another interface that goes in on a closed gate, which happens only for IPv6 after probes that fell back. |
| Deletion.DeleteNext | scripts/configure_cloudflare_ufw.py:703-709 | Deleting in descending order, the next marked element still has its own number, and deleting that number removes exactly it. |
| UfwRules.WebPorts | scripts/configure_cloudflare_ufw.py:90-107 | The loop over comma-separated ports and spans finds exactly the web ports the target covers. |
| UfwRules.AssessRules | scripts/configure_cloudflare_ufw.py:281-316 | The accumulating loop with its `continue` branches yields the missing keys, the numbers of the broad and the stale rules, and the unexpected rules, as the per-rule classification says, which `UfwReview.AssessmentMeans` restates in terms of the rules. |
| UfwReview.AssessmentMeans | scripts/configure_cloudflare_ufw.py:281-316 | Missing are the pairs of a web port and a published range that no rule allows alone; broad the rules that allow one web port from anywhere; stale those of the script's own that allow one from a source no longer published; unexpected every rule for a web port that is neither nor allows a published range, and every rule that authorises something else than SSH. |
| UfwRules.UnexpectedSshRules | scripts/configure_cloudflare_ufw.py:351-375 | The loop over seen families reports what the recursive specification reports. |
| UfwRules.NoneUnexpected | scripts/configure_cloudflare_ufw.py:362-375 | The loop reports nothing if and only if every rule is ALLOW from Anywhere and no family occurs twice or is already seen. |
| UfwRules.GlobalModeIsExact | scripts/configure_cloudflare_ufw.py:333-375 | Presence and no unexpected rule together hold if and only if port 22 is authorised by exactly two rules, ALLOW from Anywhere, one per family. |
| UfwReview.ReviewableIff | scripts/configure_cloudflare_ufw.py:281-375 | The two reports for an operator are both empty if and only if every rule is tolerable in those terms, and every SSH rule allows from the one network, or in global mode from Anywhere, no two for one family. |
| UfwPackets.CompliantAdmitsOnly | scripts/configure_cloudflare_ufw.py:610-627 | Everything a compliant list admits is TCP to 80 or 443 from a network desired for that port, or to 22 as the SSH mode allows. |
| UfwPackets.DesiredIsAdmittedIff | scripts/configure_cloudflare_ufw.py:610-627 | A packet of a desired pair is admitted by a compliant list under every meaning of the uninterpreted texts if and only if no DENY or REJECT rule that can match it, which then has an uninterpreted target, stands before the first rule that lets it in. |
| UfwPackets.SshIsAdmittedIff | scripts/configure_cloudflare_ufw.py:333-348 | The same for TCP to port 22 from the one network, or in global mode from any source of either family: compliance lets the administrator in, unless such a denial comes first. |
| UfwPackets.CompliantAdmitsWanted | scripts/configure_cloudflare_ufw.py:610-627 | Both directions in packets alone: a compliant list admits nothing but TCP to 80 or 443 from a published range and SSH as its mode says, and admits that as far as no denial comes first. |
| UfwPackets.CompliantMayDenyAll | scripts/configure_cloudflare_ufw.py:281-316 | A list headed by a deny for all IPv4 traffic is compliant and admits no IPv4 packet. |
| UfwPackets.CompliantWithoutDenials | scripts/configure_cloudflare_ufw.py:610-627 | Without DENY and REJECT rules all of that is admitted, SSH included. |
| UfwLists.CountMarked | scripts/configure_cloudflare_ufw.py:664-666 | The number of distinct rule numbers to delete is the number of broad and stale rules. |
| UfwPhases.InsertWeb | scripts/configure_cloudflare_ufw.py:695-697 | A web rule put in at any place adds its key and changes nothing else the script looks at. |
| UfwPhases.InsertGlobal | scripts/configure_cloudflare_ufw.py:686-690 | A family's first global SSH rule, at any place, leaves nothing unexpected. |
| UfwPhases.BothFamilies | scripts/configure_cloudflare_ufw.py:341-348 | With nothing unexpected, global mode is present if and only if both families have a rule. |
| UfwPhases.DeletionKeepsReady | scripts/configure_cloudflare_ufw.py:703-709 | SSH and every desired key survive every single deletion. |
| UfwPhases.DeletionCompletes | scripts/configure_cloudflare_ufw.py:703-712 | All deletions together leave a compliant list: the initial rules that were not bad, and the added ones. |
| UfwPhases.DeletionCount | scripts/configure_cloudflare_ufw.py:664-671 | As many rules are to be deleted after the additions as the plan announced before. |
| UfwReview.CompletedIsCleaned | scripts/configure_cloudflare_ufw.py:679-712 | What hardening leaves: with multiplicity, exactly the initial rules that concern no web port or come from a published range, and the added ones; so every rule that is not the script's own and has a source stays. |
| UfwHosts.Ufw.Restore | scripts/configure_cloudflare_ufw.py:579-603 | The plan decides: the directory is the snapshot, the tree before, or absent, and absent exactly if a rename that puts the old directory back fails, which then survives under the displaced name; success, with the snapshot in place and loaded, exactly if all six steps are fine. What the staged, displaced and failed copies beside it end as is given for every plan. |
| UfwHosts.Ufw.SwapIn | scripts/configure_cloudflare_ufw.py:585-601 | The same for the two renames, the reload and their compensations alone. |
| UfwHosts.Ufw.AddSsh | scripts/configure_cloudflare_ufw.py:686-693 | The selected SSH rules are added and read back; web keys are unaffected. In global mode that succeeds, without failures, exactly if UFW handles IPv6 or the IPv6 rule is there. |
| UfwHosts.Ufw.AddWeb | scripts/configure_cloudflare_ufw.py:695-697 | One rule per missing key, at whatever positions UFW chooses, and nothing else. |
| UfwHosts.Ufw.DeleteBad | scripts/configure_cloudflare_ufw.py:703-709 | Deleting by number, highest first, removes exactly the broad and stale rules, with SSH and all keys in place around each deletion. |
| UfwHosts.Ufw.VerifyCompliant | scripts/configure_cloudflare_ufw.py:610-627 | Success means the live list is compliant under default deny, and exactly that without failures. |
| UfwHosts.Ufw.ApplyHardening | scripts/configure_cloudflare_ufw.py:630-731 | Every ending: the plan's numbers are the commands then issued; hardened means compliant, loaded and made of kept and added rules, every rule an operator put in for some source among them; hardened or already compliant, the packets let in are those wanted, SSH included; without a snapshot, which comes after every query and dry run has gone well, nothing is changed; a plan alone changes nothing; refused means the initial list and no command; a rollback begins exactly if a change was issued and hardening failed, for a failing step unless the mode is out of reach, with the tree as the last change left it, and restores the snapshot exactly if its six steps are fine, leaving otherwise what `RestoredTree` says; no deletion before SSH and every key are present, nor losing them; without failures the ending is determined. |
| UfwHosts.Ufw.HardenTwice | scripts/configure_cloudflare_ufw.py:630-731 | One run converges: the second finds nothing to do. |
| UfwHosts.Ufw.HardenAgain | scripts/configure_cloudflare_ufw.py:630-731 | When the published ranges change: after a run with any failures but a failed rollback, an unfailing run for other ranges succeeds if the initial rules asked for no review under either, and lets in what is then wanted. |
| EnvFile.TranslationKeepsLines | infra/hermes/control_server.py:109-113 | Universal-newline translation does not change the lines `splitlines` finds. |
| EnvFile.ReadProfileRuntime | infra/hermes/control_server.py:103-124 | Key and port are those of the last lines that assign them, and are returned if and only if the key has 8 characters and the port is in range; nothing else is looked at. |
| EnvFile.ReadRuntimeValues | infra/hermes/control_server.py:127-161 | Accepted, with just that key and port, are exactly the files in which every line is empty or assigns one of the four names, none twice, host and enabled flag as required, a key of 8 characters and a port in range. |
| EnvFile.RenderedIsRead | infra/hermes/control_server.py:127-161 | A file of the four assignments, one to a line, is read as the key and port it was written with. |
| EnvFile.ReadersAgree | infra/hermes/control_server.py:103-161 | Whatever the strict reader accepts, the lenient one accepts with the same key and port. |
| Activation.TemporaryIsNoProfile | infra/hermes/control_server.py:287 | No temporary directory name can be resolved as a profile. |
| Activation.PublishingStep | infra/hermes/control_server.py:303-305 | The rename makes the whole bundle resolvable at once and changes no other profile. |
| Activation.ReaderIsConsistent | infra/hermes/control_server.py:86-100 | A reader without the lock that has resolved a name sees the same entry at all later steps, and it was there before or is the whole bundle of one request. |
| Activation.ComparisonIsEquality | infra/hermes/control_server.py:341-349 | Comparing a published bundle with a staged one accepts exactly equal files, conflicts on different ones, and raises on a key that is not ASCII. |
| Activation.ComparisonAccepts | infra/hermes/control_server.py:335-349 | Any existing entry is accepted exactly if its four profile files are those staged and the key is ASCII, whatever else it holds. |
| Activation.Home.WriteRuntimeProfile | infra/hermes/control_server.py:286-313 | Whatever fails, the root ends as it was, or with the whole bundle under the name if that was free and the rename took effect, but for the one temporary directory, which stays exactly if it was made and neither the rename nor its removal took it away; without failures nothing of it stays. |
| Activation.Home.ActivateProfile | infra/hermes/control_server.py:316-358 | Success means the name holds the bundle or one that compares equal; whatever fails, every entry of the root stays as it is and nothing is new but the whole profile, if the name was free, and at most one temporary directory; without failures the result is determined and none is left. |
| Activation.Home.ActivateAndRetry | infra/hermes/control_server.py:324-358 | After any first attempt a retry none of whose steps fails ends as the root it finds determines; for a name that was free it succeeds with the staged files in place, or, exactly if the first attempt published a key that is not ASCII, raises; existing entries are unchanged throughout. |
| Activation.Home.Serve | infra/hermes/control_server.py:316-358 | Over any number of activations with any failures, every resolvable name is absent or holds one bundle for good, and every existing entry stays; without failures nothing is new but profiles asked for. |
| ShellQuote.QuotedAddsToWord | apps/sandbox-worker/src/index.ts:423-425 | Outside quotes, a quoted value adds exactly the value to the current word. |
| ShellQuote.QuotingRoundTrip | apps/sandbox-worker/src/index.ts:423-425 | By sections 2.2.1 and 2.2.2 of the POSIX.1-2017 Shell Command Language, the quoted text is one word, and it is the value. |
| ShellQuote.CommandRoundTrip | apps/sandbox-worker/src/index.ts:380-395 | The same inside a command, behind other words and an option prefix, at the end or in front of further words. |
| Base64.DecodingIsByTable | apps/sandbox-worker/src/index.ts:427-439 | The symbols are those of the table in section 4 of RFC 4648, and each decodes to its place there. |
| Base64.BytesToBase64 | apps/sandbox-worker/src/index.ts:427-431 | The loop gives `btoa` a string it accepts, and the result is the RFC 4648 encoding. |
| Base64.Base64RoundTrip | apps/sandbox-worker/src/index.ts:427-431 | Decoding the encoding (RFC 4648, section 4) gives the bytes back. |
| Base64.SizeOfEncoding | apps/sandbox-worker/src/index.ts:433-439 | The computed size of every encoding is the number of bytes. |
| Base64.SizeOfDecoding | apps/sandbox-worker/src/index.ts:433-439 | Whatever text the size check accepts decodes, to exactly that many bytes. |
| DiskUsage.RoundingIsExact | scripts/check_disk_usage.py:49-54 | The rounded percentage reaches a threshold exactly when the true ratio exceeds the next lower percentage, or there is no space at all. |
| DiskUsage.BelowIsBelow | scripts/check_disk_usage.py:49-54 | Below the threshold after rounding means strictly below it before. |
| DiskUsage.MeasuredMeans | scripts/check_disk_usage.py:57-65 | The numbers reported are those of the statistics, in bytes, and the entry is near full exactly if the statistics say so: more blocks or inodes are taken than the next lower percentage of what is taken or available. |
| DiskUsage.InspectFilesystems | scripts/check_disk_usage.py:68-115 | Every path is an alias of its device's entry or has an error; devices are unique; aliases are free of duplicates and genuine. |
| DiskUsage.BuildEvent | scripts/check_disk_usage.py:125-155 | Status, near-full devices and exit code. Exit code 0 means every path was checked and, by the statistics answered for it, every device is strictly below the threshold in blocks and inodes, unrounded; exit code 1 that every path was checked and some device exceeds the next lower percentage; a device is reported near full only if its statistics say so. |

## Left out

Contracts with a stated limit:

- Hosts.Host.Refresh: when a step of the rollback fails too, says of the gates only what the account of each table does.
- UfwHosts.Ufw.AddWeb: adds the missing keys in any order; the script's order is that of `sorted`, on which nothing depends.
- UfwHosts.Ufw.Restore: a failing rename leaves both names as they were; a rename that took effect but was interrupted before returning is not considered, since rollback defers termination signals.
- Activation.Home.Serve: activations happen one after another, which is all the activation lock is for; readers may look at any logged state in between.
- OptionOrder.CanonicalIgnoresOptionOrder: for rules with distinct options; with a repeated option the last value wins and order does matter.
- GateForms.ComparisonIsSoundIff: for lists of pairwise disjoint ranges, as validation gives them. Packet sources are unbounded numbers here, so there is always an address outside all ranges.

Assumed about the surroundings:

- iptables: a restore is atomic per table, a chain with a jump to it cannot be removed, `-S` prints the options of a rule in any order and a port match with an explicit `-m tcp`, and `-C` succeeds when the chain lists the rule in some such order. No other program changes the two chains between commands.
- UFW: `allow` inserts one exact rule somewhere or skips a listed one, `allow 22/tcp` adds the missing ones of the two global rules, or of the IPv4 one alone where UFW does not handle IPv6, `delete n` removes rule n and renumbers. The address family of a rule matters only for Anywhere rules, so added CIDR rules carry a fixed one.
- Tables and functions of the Python library that are parameters here: which blocks are global, and `int` on text.
- The meaning of match modules, targets and source texts the scripts do not interpret is a parameter; every packet statement holds for all meanings.

Not modelled:

- HTTPS fetching, redirects, TLS and subprocess handling; fetched lines are inputs.
- Text parsing of `iptables -S`, `ufw status`, `ip route` and JSON: token lists, records and values take its place. Of `shlex` only the failure on unbalanced quotes is modelled.
- File ownership, mode and symlink checks, hashes of snapshots, timestamps: a step that succeeds or fails.
- The process lock of the firewall script, and command-line parsing.
- The plan and verify commands, which change nothing, and `NetfilterBackend.clear`, which nothing calls.
- The two twin backend classes and their twin functions are one class and one definition each, with the gate as a parameter.
- Rules of raw/PREROUTING and DOCKER-USER that jump or go to further user chains, or go (`-g`) to the managed chain, are one uninterpreted effect each.
- `_read_staged_profile` (reading the staging directory): its result, a bundle the strict reader accepts, is an input.
- A removal that takes away part of a directory: `rmtree` of a temporary directory takes effect as a whole or not at all.
- Gateway start, restart and health polling, speech and media handling in the control server.
- Extra entries of an existing runtime profile directory: the comparison looks at the four profile files only, as the code does.
- The alert hook of the disk check, and the fields of its event that only copy inputs.
- The remaining services, web application and release scripts of the repository.
