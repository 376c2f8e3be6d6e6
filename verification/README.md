# Portunus: rule admission, SNI routing and the caches around them

Portunus is a server that pushes port-forwarding rules to clients. The server keeps a rule store and decides
whether a new rule may be pushed; the client turns accepted rules into plain forwarders or into SNI port groups,
where one TCP listener serves many host names through a routing table. This project models those parts in Dafny and
proves properties that span them:

- **Server store and client together** (`OperatorEntry`, `EndToEnd`, `EndToEndExact`, `ClientServes`). A trace is any
  interleaving of operator pushes, marks, removals, silent removals (user deletion, grant revocation), late removal
  messages, deliveries, forwarder exits and relay drops. In every trace whose accepted pushes get along with the rules
  still Pending and with the rules the client still holds after a silent removal, the client never refuses a delivered
  push for a mode change or a duplicate id, every group publishes exactly its current members, and no port is wanted
  by two listeners of one protocol. The premise is exact: an accepted push is sure to leave the client good if and
  only if it holds. And delivery is complete: when the outside goes well and the stream is handled, the client serves
  each rule stored for it, as pushed.
- **Server rule store** (`RuleModel`, `RuleIndex`, `RuleStore`, `RuleTheorems`, `RuleMeaning`). The nested interval
  index stays exact in every run, the index walk decides like a brute-force scan over all rules in any order, an
  accepted push keeps the rules pairwise compatible exactly when no Pending rule clashes, and removal undoes a push.
  Every verdict and every error is characterised from the rules' fields.
- **SNI routing table and port groups** (`RouteTable`, `RouteMeaning`, `PortGroups`, `GroupAnswers`, `ClientControl`).
  Building fails exactly on a repeated key, the longest-first wildcard walk is a map lookup, member order is
  irrelevant, and the two mirrored maps and the published table stay consistent through every error path. Every host
  is answered as the patterns entitle it, equal up to letter case before covered by a wildcard before the fallback.
- **ClientHello codec** (`HostText`, `HostMeaning`, `ClientHello`, `HelloGrammar`, `HelloBuilder`, `Peek`,
  `InlineHello`, `InlineGrammar`). The cursor parser accepts exactly the encodings of structured hellos, whatever
  extensions and name entries come first, and answers the first usable host in them; more bytes never change a
  decision, and build-then-parse has an exact length limit, for the production parser and for the benchmark's inline
  one (section 7.4.1.2 of RFC 5246, section 3 of RFC 6066).
- **Interleavings** (`SingleFlight`, `ResolverCache`, `ResolverRuns`, `ResolverServes`, `Sessions`). Each lock section
  or atomic operation is one step and the theorems quantify over all interleavings of any number of tasks.
- **Accounting** (`DeltaBook`, `Metrics`, `OwnerCaps`, `Backoff`). Counter conservation under restarts and renames, a
  write-through cache that may be reopened anywhere, and backoff whose saturating arithmetic cannot be observed.

The source's mutable objects are classes whose methods are proved against functions on values (`Abs()`, or a ghost
trace); the theorems are lemmas about those functions.

## Findings

Properties one might expect that the code does not have, each with runs that show it and the exact condition under
which it holds:

- The server's verdict alone does not protect the client's tables. User deletion and grant revocation drop rules from
  the store and tell no client, so the server accepts a rule that clashes with one the client still holds
  (`EndToEndExact.OrphanDecides`); and only Active and Failed rules block a push, so a push made while another is
  Pending can clash with it or put an SNI group on a plain forwarder's port (`EndToEndExact.PushingWithoutWaiting`,
  `EndToEndExact.PendingFallbackSharesPort`).
  Exact condition: `EndToEndExact.AcceptedPushGoodIff`.
- Two Active rules can clash for the same reason (`RuleTheorems.TwoActiveRulesCanClash`). Exact condition:
  `RuleTheorems.AcceptedPushStaysCompatible`.
- A refused SNI rule stays a group member, so its port refuses every later rule, whatever its pattern, and serves the
  old table until a removal (`GroupAnswers.StuckThroughPushes`). Exact conditions: `GroupAnswers.PushRefusedIff`,
  `GroupAnswers.RemovalHealsIff`.
- A caller that goes round the operator's entry can store patterns that differ only in letter case, which are one key to
  the client (`EndToEndExact.CaseTwinsAreBothAccepted`). Behind the entry this cannot happen
  (`OperatorEntry.CaseTwinsAreAdmittedAlike`).
- A resolve that outlives the abandonment window is started a second time (`ResolverRuns.LateResolveIsDuplicated`).
  Exact condition: `ResolverRuns.SingleFlightSafeIff`.
- The resolver cache can exceed its limit, through dropped futures without any bound
  (`ResolverRuns.DroppedFuturesOverfill`) or through a resolve that finishes after its placeholder was reaped
  (`ResolverRuns.LateFinishOverfills`). Exact condition: `ResolverRuns.BoundSafeIff`.
- A session that drew its id earlier can displace one that drew later, because drawing and inserting are two steps
  (`Sessions.EarlierDrawCanDisplaceLater`). Exact conditions: `Sessions.NewestStaysLiveIff`,
  `Sessions.NewestLiveInRunIff`.
- A ClientHello built for a host of more than 16328 bytes is refused by the parser as malformed; exactly those are
  (`HelloBuilder.ParseOfBuild`).
- A stripped host name can still end in a blank, exactly when white space stands right before its trailing dots
  (`HostMeaning.StripCanLeaveABlank`, `HostMeaning.StripMeaning`).
- A counter misses what a restarted client counted up to its predecessor's last reading, exactly
  (`DeltaBook.CounterUnderRestarts`).

Where code and comments differ the model follows the code:

- `crates/portunus-server/src/rules.rs` says its index tracks Active and Failed rules; Pending rules are indexed too.
- `crates/portunus-core/src/port_range.rs` says `target_for` cannot panic on mismatched ranges; its last 16-bit
  addition can overflow there, and the model wraps it; `PortRanges.TargetForWrapsIff` says exactly when. For ranges
  accepted by `pair` it cannot.
- `crates/portunus-server/src/metrics.rs` describes a falling reading as a fresh window; the code adds nothing for it.

## Model

| member | source | states |
|---|---|---|
| PortRanges.OverlapIsSharedPort | crates/portunus-core/src/port_range.rs:104-108 | The interval test holds if and only if some port lies in both ranges, and then the larger start is the least shared port. |
| PortRanges.NewMeaning | crates/portunus-core/src/port_range.rs:51-92 | The validating constructor takes exactly the ordered pairs above port 0, each refusal has its own error, and the length counts the ports. |
| PortRanges.PairMeaning | crates/portunus-core/src/port_range.rs:63-71 | Two ranges are coupled as given if and only if they have equally many ports; otherwise the error names both lengths. |
| PortRanges.TargetForIsBijection | crates/portunus-core/src/port_range.rs:63-131 | For ranges accepted by `pair`, `target_for` is an order-preserving bijection from listen to target ports, without wrap-around, and is absent outside the listen range. |
| PortRanges.TargetForWrapsIff | crates/portunus-core/src/port_range.rs:118-131 | For any two ranges the 16-bit addition wraps at a port if and only if target start plus offset exceeds 65535, and at some port if and only if it does at the last one. |
| PortRanges.FieldRoundTrip | crates/portunus-server/src/rules.rs:154-177 | A range survives being stored as a port and an optional end if and only if it does not start at 0 with a later end. |
| PortRanges.WireRoundTrip | crates/portunus-client/src/control.rs:506-551 | A range survives the zero-for-absent wire fields if and only if it does not start at port 0, which the client refuses. |
| RuleStore.ServerRuleStore.constructor | crates/portunus-server/src/rules.rs:336-340 | A new store is empty and hands out id 0 next. |
| RuleStore.ServerRuleStore.FallbackAmong | crates/portunus-server/src/rules.rs:583-597 | Finds a single-port TCP rule without a pattern among the listed ids, whatever its state. |
| RuleStore.ServerRuleStore.CheckAgainst | crates/portunus-server/src/rules.rs:521-633 | The overlap matrix for one existing rule gives the specified refusal, or none. |
| RuleStore.ServerRuleStore.Scan | crates/portunus-server/src/rules.rs:519-635 | The nested index walk returns the first refusal in start-port order. |
| RuleStore.ServerRuleStore.PushRange | crates/portunus-server/src/rules.rs:464-681 | New state and result are those of the specified push: a refusal changes nothing, acceptance stores a Pending rule under the next id and indexes it. |
| RuleStore.ServerRuleStore.MarkActive | crates/portunus-server/src/rules.rs:683-692 | Sets only that rule's state, or reports it unknown. |
| RuleStore.ServerRuleStore.MarkFailed | crates/portunus-server/src/rules.rs:694-703 | Sets only that rule's state with its reason, or reports it unknown. |
| RuleStore.ServerRuleStore.MarkPending | crates/portunus-server/src/rules.rs:705-714 | Sets only that rule's state, or reports it unknown. |
| RuleStore.ServerRuleStore.RemoveRule | crates/portunus-server/src/rules.rs:723-738 | Takes out the rule and its index slot, dropping vectors and client maps that become empty. |
| RuleStore.ServerRuleStore.RemoveOwnedBy | crates/portunus-server/src/rules.rs:793-819 | Whatever order the rules come in, ends without exactly the owner's rules and lists each freed id once. |
| RuleStore.ServerRuleStore.HydrateRules | crates/portunus-server/src/rules.rs:759-774 | Replaying persisted rules gives the specified store. |
| RuleTheorems.ScanIsBruteForce | crates/portunus-server/src/rules.rs:519-635 | The index walk refuses if and only if some stored rule obstructs the candidate, and so does a scan of the client's rules in any order. |
| RuleTheorems.OffendingPortIsShared | crates/portunus-server/src/rules.rs:536-632 | A reported offending port lies in the candidate's range and in the range of a stored rule that obstructs it. |
| RuleTheorems.AcceptedIsUnobstructed | crates/portunus-server/src/rules.rs:519-635 | An accepted candidate clashes with no Active or Failed rule, and an accepted SNI candidate meets no such fallback on its port. |
| RuleTheorems.AcceptedPushStaysCompatible | crates/portunus-server/src/rules.rs:519-681 | After an accepted push all rules are pairwise disjoint or SNI siblings with different patterns if and only if no Pending rule clashed with the candidate. |
| RuleTheorems.TwoActiveRulesCanClash | crates/portunus-server/src/rules.rs:528 | Any well-formed candidate pushed twice while Pending ends as two Active rules that clash. |
| RuleTheorems.AcceptExact | crates/portunus-server/src/rules.rs:637-679 | An accepted push keeps the index exact if and only if the id counter is below its 64-bit maximum. |
| RuleTheorems.MarkExact | crates/portunus-server/src/rules.rs:683-714 | No mark disturbs the index. |
| RuleTheorems.RemoveExact | crates/portunus-server/src/rules.rs:723-738 | Removal keeps the index exact, known id or not. |
| RuleTheorems.HydrateExactIff | crates/portunus-server/src/rules.rs:759-774 | Replay keeps the index exact if and only if the ids are fresh, distinct and below the maximum. |
| RuleTheorems.IndexExactInEveryRun | crates/portunus-server/src/rules.rs:637-819 | In every run each rule id appears exactly once, at its own client and start port, nothing else appears, nothing empty remains and the next id exceeds every id. |
| RuleTheorems.CompatibleInEveryQuietRun | crates/portunus-server/src/rules.rs:519-681 | In every run whose pushes meet no clashing Pending rule, all stored rules stay pairwise compatible, whatever their states. |
| RuleTheorems.RemoveUndoesPush | crates/portunus-server/src/rules.rs:672-738 | Push, any marks, then remove restores rules and index exactly, so every later candidate gets the verdict it would have had. |
| RuleTheorems.RemovalOrderIrrelevant | crates/portunus-server/src/rules.rs:723-738 | Removing ids one by one in any order, with repeats and unknown ids, equals removing the set at once. |
| RuleTheorems.BulkRemovalIsOneByOne | crates/portunus-server/src/rules.rs:793-819 | Removing an owner's rules one by one in any order reaches the bulk removal's state. |
| RuleTheorems.FallbackLocksPort | crates/portunus-server/src/rules.rs:565-572 | An Active or Failed fallback refuses every later SNI push on its port and leaves the store unchanged. |
| RuleMeaning.PushMeaning | crates/portunus-server/src/rules.rs:464-681 | A push is accepted if and only if both ranges have one length, it is within the cap, and no Active or Failed rule of the client and protocol shares a port with it other than as an SNI neighbour; then exactly one rule is added, else nothing changes. |
| RuleMeaning.RefusalMeaning | crates/portunus-server/src/rules.rs:485-633 | Which error a refused push gets: length mismatch, then the cap, then what the lowest-starting rule in the way earns it, each with its condition on the fields and the least shared port. |
| RuleMeaning.NewRuleRecords | crates/portunus-server/src/rules.rs:637-671 | The stored rule is Pending, occupies exactly the asked ports, and keeps target, owner, client, protocol and pattern. |
| RuleMeaning.MarkMeaning | crates/portunus-server/src/rules.rs:683-714 | A mark stores exactly the requested state, with its reason, and changes nothing else; unknown and removed rules are refused. |
| RuleMeaning.RemoveMeaning | crates/portunus-server/src/rules.rs:723-738 | A removal hands back the rule as stored and takes out nothing else. |
| RuleMeaning.BulkRemovalMeaning | crates/portunus-server/src/rules.rs:793-819 | A rule survives a bulk removal, unchanged, if and only if it has another owner. |
| RuleMeaning.HydrateMeaning | crates/portunus-server/src/rules.rs:759-774 | Replay stores every given rule as it is and keeps the others. |
| RuleMeaning.HydrateNextId | crates/portunus-server/src/rules.rs:759-774 | Replay moves the next id just past the largest given one, or leaves it. |
| RuleMeaning.HydrateSaturates | crates/portunus-server/src/rules.rs:759-774 | The largest id of all leaves the next id at the maximum. |
| RuleIndex.WithoutExact | crates/portunus-server/src/rules.rs:793-819 | Filtering any set of ids out of an exact store leaves an exact store. |
| RuleIndex.RemoveIsWithout | crates/portunus-server/src/rules.rs:723-738 | The slot-by-slot removal equals filtering that one id out of the whole index. |
| RouteTable.FromMembers | crates/portunus-forwarder/src/forwarder/sni/route_table.rs:80-126 | Building succeeds if and only if all keys are distinct; then the table holds exactly the members' routes, wildcards longest first; otherwise the error names the first repeated key. |
| RouteTable.Place | crates/portunus-forwarder/src/forwarder/sni/route_table.rs:85-115 | One member is placed if and only if its key is free, adding exactly that route. |
| RouteTable.NeedleTaken | crates/portunus-forwarder/src/forwarder/sni/route_table.rs:99 | Finds a wildcard needle if and only if it is already listed. |
| RouteTable.SortLongestFirst | crates/portunus-forwarder/src/forwarder/sni/route_table.rs:117-119 | A permutation ordered by decreasing needle length. |
| RouteTable.Lookup | crates/portunus-forwarder/src/forwarder/sni/route_table.rs:138-178 | The walk's answer is the map lookup: exact host first, then the one possible wildcard, then the fallback. |
| RouteTable.LookupIsRoute | crates/portunus-forwarder/src/forwarder/sni/route_table.rs:138-178 | For every table holding a route map and every host, walking the table equals looking the key up in the map. |
| RouteTable.OnlyOneNeedle | crates/portunus-forwarder/src/forwarder/sni/route_table.rs:189-199 | A dotted needle matches a host if and only if it is the text from the host's first dot on, after a non-empty label. |
| RouteTable.SameKeyIffSameLowercase | crates/portunus-forwarder/src/forwarder/sni/route_table.rs:93-104 | Two patterns compete for one key if and only if they agree up to ASCII case. |
| RouteTable.MemberOrderIrrelevant | crates/portunus-client/src/port_groups.rs:374-379 | For any two orders of the same members, building fails for both or for neither, and the routes are the same. |
| RouteMeaning.LowerMeaning | crates/portunus-forwarder/src/forwarder/sni/route_table.rs:93-104 | Lowercasing turns each of the 26 capitals into its small letter, leaves every other byte, and identifies exactly the texts that agree letter by letter up to case. |
| RouteMeaning.BuildableIff | crates/portunus-forwarder/src/forwarder/sni/route_table.rs:80-126 | Members can be built into a table if and only if no two agree up to case and at most one has no pattern. |
| RouteMeaning.TableAnswersAsEntitled | crates/portunus-forwarder/src/forwarder/sni/route_table.rs:138-199 | For any members and host: the exact pattern equal up to case, else a wildcard whose suffix follows one non-empty label, else the member without a pattern, else a miss. |
| PortGroups.PortGroupManager.constructor | crates/portunus-client/src/port_groups.rs:135-140 | A new manager has no groups. |
| PortGroups.PortGroupManager.IsSniPort | crates/portunus-client/src/port_groups.rs:148-150 | True exactly for the ports that have a group. |
| PortGroups.PortGroupManager.Refresh | crates/portunus-client/src/port_groups.rs:202-209 | The new members are kept in either case; they are published if and only if their patterns are distinct. |
| PortGroups.PortGroupManager.OpenGroup | crates/portunus-client/src/port_groups.rs:218-264 | A first member opens a group that publishes exactly it. |
| PortGroups.PortGroupManager.Push | crates/portunus-client/src/port_groups.rs:161-267 | New state and result are those of the specified push, including a duplicate id, a failed rebuild after insertion and a failed bind. |
| PortGroups.PortGroupManager.RemoveRule | crates/portunus-client/src/port_groups.rs:271-302 | New state and result are those of the specified removal: unknown id, last member, or rebuild for the survivors. |
| PortGroups.PortGroupManager.Shutdown | crates/portunus-client/src/port_groups.rs:305-310 | No group and no mapping remains. |
| PortGroups.Snapshot | crates/portunus-client/src/port_groups.rs:374-379 | Lists every member once, in some order. |
| PortGroups.BuildSlots | crates/portunus-client/src/port_groups.rs:393-416 | One resolver slot for each member and no other. |
| PortGroups.RebuildWatches | crates/portunus-client/src/port_groups.rs:372-430 | Succeeds if and only if the members' patterns are distinct, and then table and slots come from those members. |
| PortGroups.LookupAlwaysResolves | crates/portunus-client/src/port_groups.rs:372-430 | Every rule id that any host lookup returns has a resolver slot, and it is that rule's own. |
| PortGroups.RebuildRoutesAlike | crates/portunus-client/src/port_groups.rs:372-430 | A table rebuilt from the same members in any order answers every host alike. |
| PortGroups.PushKeepsConsistent | crates/portunus-client/src/port_groups.rs:161-267 | A push, successful or not, keeps both maps inverse, groups non-empty, and the published pair built from one set of distinct patterns that is the current members whenever those are distinct. |
| PortGroups.RemoveKeepsConsistent | crates/portunus-client/src/port_groups.rs:271-302 | The same for a removal, successful or not. |
| PortGroups.ConsistentInEveryRun | crates/portunus-client/src/port_groups.rs:161-310 | The same in every run of pushes, failed binds, removals and shutdowns. |
| PortGroups.SniPortIffMapped | crates/portunus-client/src/port_groups.rs:148-150 | A port has a group if and only if some rule is mapped to it. |
| GroupAnswers.PushRefusedIff | crates/portunus-client/src/port_groups.rs:161-267 | In every consistent manager a new rule is refused for a mode change if and only if its port has a group that already holds two equal keys or holds the rule's key. |
| GroupAnswers.PushAnswer | crates/portunus-client/src/port_groups.rs:161-267 | Which answer every push gets: duplicate id, failed bind, refused pattern or success, each with its exact condition. |
| GroupAnswers.AcceptedIsDispatched | crates/portunus-client/src/port_groups.rs:161-267 | A successful push maps the rule to its port, publishes its pattern with its own target behind it, and touches no other port. |
| GroupAnswers.RemoveAnswer | crates/portunus-client/src/port_groups.rs:271-302 | A removal takes out exactly that member, its group if it was the last, and answers unknown exactly for unmapped ids. |
| GroupAnswers.PublishedAnswers | crates/portunus-client/src/port_groups.rs:372-430 | A published pair answers every host as its members' patterns entitle it, with that member's target and port. |
| GroupAnswers.StuckThroughPushes | crates/portunus-client/src/port_groups.rs:206-209 | A group with two equal keys keeps them and keeps its published table through any sequence of pushes. |
| GroupAnswers.RemovalHealsIff | crates/portunus-client/src/port_groups.rs:271-302 | Removing one of several members succeeds and publishes the rest if and only if the rest have distinct keys. |
| ClientControl.ClientPump.constructor | crates/portunus-client/src/control.rs:342-380 | A session starts with no slots, no forwarders and no groups. |
| ClientControl.ClientPump.OnPush | crates/portunus-client/src/control.rs:486-886 | State and status event are those of the specified push: range decoding, target validation, SNI or plain routing. |
| ClientControl.ClientPump.OnRemove | crates/portunus-client/src/control.rs:887-921 | State and status event are those of the specified removal, group member or plain forwarder. |
| ClientControl.ClientPump.Relay | crates/portunus-client/src/control.rs:1036-1082 | Only a terminal status frees the rule's slot. |
| ClientServes.DecodeMeaning | crates/portunus-client/src/control.rs:506-551 | A message is refused for its ranges if and only if a port is 0 or beyond 65535 or an end lies below its start; else it means that rule. |
| ClientServes.PushStatus | crates/portunus-client/src/control.rs:486-886 | Which status every push gets and what it leaves: repeated, bad range, bad target, plain forwarder, dispatched SNI rule, refused SNI rule. |
| ClientServes.RemoveStatus | crates/portunus-client/src/control.rs:887-921 | A removal is confirmed exactly for a rule with a slot, and empties its place in a group in any case. |
| OperatorEntry.ValidatedIsFixed | crates/portunus-server/src/operator/http.rs:1136-1206 | A pattern that passes is stored in a normal form: lowercase, and accepted again unchanged. |
| OperatorEntry.PatternMeaning | crates/portunus-server/src/operator/http.rs:1136-1206 | A pattern is accepted if and only if, trimmed and lowercased, it is a dotted list of host labels, or `*.` before at least two, of at most 253 bytes; that text is stored. |
| OperatorEntry.AdmitMeaning | crates/portunus-server/src/operator/http.rs:515-573 | A request gets through if and only if its ports are not 0 and a pattern comes with one TCP port and is well formed; nothing but the pattern is changed. |
| OperatorEntry.CaseTwinsAreAdmittedAlike | crates/portunus-server/src/operator/http.rs:515-573 | Requests whose patterns differ only in letter case are admitted as the same candidate or both refused. |
| EndToEnd.ServerVerdictsProtectTheClient | crates/portunus-client/src/control.rs:801-921 | In every orderly trace from an empty system, silent removals included, no status reports a mode change or duplicate id, every group publishes exactly its members, no port is wanted by two listeners of one protocol, and the client's maps are consistent. |
| EndToEnd.SystemOkInEveryTrace | crates/portunus-server/src/rules.rs:519-819 | The joint invariant of store, ordered stream and client holds after every orderly trace. |
| EndToEnd.PatienceSuffices | crates/portunus-server/src/operator/cli.rs:1289-1430 | Without silent removals, waiting until no Pending rule is in the way is all that orderly asks. |
| EndToEnd.NoPendingOverlapIsSettled | crates/portunus-server/src/rules.rs:519-635 | Waiting until no overlapping rule of the same client and protocol is Pending meets the premise about Pending rules. |
| EndToEnd.FitsIffWaited | crates/portunus-server/src/rules.rs:519-635 | An accepted rule gets along with everything the client will have been told if and only if it gets along with the Pending rules and the silently removed ones. |
| EndToEnd.LeadsToAppend | crates/portunus-server/src/operator/cli.rs:1289-1391 | Queueing a further fitting message behind a good stream keeps every later delivery good. |
| EndToEnd.ClientPublishesCurrentMembers | crates/portunus-client/src/port_groups.rs:201-302 | In a good system every group's members have distinct patterns and are what is published. |
| EndToEnd.DecodesAsPushed | crates/portunus-server/src/grpc/service.rs:738-779 | A sound rule decodes on the client to its own id, listen range, protocol and pattern, and the same single-port TCP reading. |
| EndToEnd.PushDelivered | crates/portunus-client/src/control.rs:486-886 | Delivering a rule that fits what the client was told keeps the client good and raises no harmful status. |
| EndToEnd.RemoveDelivered | crates/portunus-client/src/control.rs:887-921 | Delivering a removal keeps the client good. |
| ClientServes.ServedInEveryTrace | crates/portunus-client/src/control.rs:486-921 | In every orderly trace where the outside goes well, every rule the client was told and not untold has a forwarder or a place in its group, as pushed. |
| ClientServes.ClientServesTheStore | crates/portunus-server/src/rules.rs:464-819 | Once the stream is handled the client serves each rule stored for it, and what else it has installed are silently removed rules; without those, exactly the stored ones. |
| EndToEndExact.AcceptedPushGoodIff | crates/portunus-server/src/rules.rs:519-681 | An accepted push is sure to leave the client good, whatever binds fail, if and only if it gets along with the Pending rules and with the silently removed ones. |
| EndToEndExact.AlwaysGoodIffFits | crates/portunus-client/src/control.rs:486-886 | A rule is sure to leave every client that was told these rules good if and only if it gets along with each of them. |
| EndToEndExact.SecondPushGoodIff | crates/portunus-client/src/control.rs:801-886 | Of any two rules delivered to a fresh client, the second leaves it good if and only if they share no port, or are SNI siblings with different patterns and not a fallback followed by a pattern. |
| EndToEndExact.OrphanDecides | crates/portunus-server/src/operator/users.rs:238-241 | After a silent removal the server accepts any second rule, and the client stays good if and only if it gets along with the forgotten first. |
| EndToEndExact.PushingWithoutWaiting | crates/portunus-server/src/rules.rs:528 | Two pushes without waiting are both accepted, and the client stays good if and only if they get along. |
| EndToEndExact.PendingFallbackSharesPort | crates/portunus-server/src/rules.rs:565-597 | A fallback still Pending and an SNI rule on its port do not clash, are both accepted, and end as a plain forwarder and an SNI group on one port. |
| EndToEndExact.SecondSniPush | crates/portunus-client/src/port_groups.rs:161-208 | For any patterns, the second of two SNI rules on one port of a fresh client is refused if and only if their keys coincide. |
| EndToEndExact.CaseTwinsAreBothAccepted | crates/portunus-server/src/rules.rs:560-615 | Called directly, round the operator's entry, the store accepts patterns that differ only in case, and the client refuses the second. |
| HostText.AsciiIsUtf8 | crates/portunus-forwarder/src/forwarder/sni/client_hello.rs:184-192 | Every ASCII name is accepted as UTF-8. |
| HostText.BareIsStripped | crates/portunus-forwarder/src/forwarder/sni/client_hello.rs:184-192 | Trimming leaves a host without outer white space and trailing dots unchanged. |
| HostMeaning.ValidIffText | crates/portunus-forwarder/src/forwarder/sni/client_hello.rs:186-187 | A name is accepted if and only if it is the UTF-8 encoding of some sequence of Unicode scalar values (section 3 of RFC 3629). |
| HostMeaning.SpaceIffWhite | crates/portunus-forwarder/src/forwarder/sni/client_hello.rs:188 | A character is trimmed at either end if and only if it has the White_Space property. |
| HostMeaning.StripMeaning | crates/portunus-forwarder/src/forwarder/sni/client_hello.rs:188-189 | Stripping cuts outer white space, then dots at the end, and nothing else; the rest is bare if and only if no white space stood before those dots. |
| HostMeaning.StripCanLeaveABlank | crates/portunus-forwarder/src/forwarder/sni/client_hello.rs:188-189 | A name that is stripped to one ending in a blank. |
| ClientHello.Cursor.constructor | crates/portunus-forwarder/src/forwarder/sni/client_hello.rs:215-217 | A new cursor has the whole buffer left. |
| ClientHello.Cursor.IsEof | crates/portunus-forwarder/src/forwarder/sni/client_hello.rs:219-221 | True exactly when nothing is left. |
| ClientHello.Cursor.ReadU8 | crates/portunus-forwarder/src/forwarder/sni/client_hello.rs:223-230 | Takes the first byte left, or reports a malformed record. |
| ClientHello.Cursor.ReadU16 | crates/portunus-forwarder/src/forwarder/sni/client_hello.rs:232-239 | Takes two bytes big-endian, or reports a malformed record. |
| ClientHello.Cursor.Take | crates/portunus-forwarder/src/forwarder/sni/client_hello.rs:249-257 | Takes the next n bytes, or reports a malformed record. |
| ClientHello.WalkNames | crates/portunus-forwarder/src/forwarder/sni/client_hello.rs:179-195 | The name loop gives the meaning of a server name list. |
| ClientHello.WalkExtensions | crates/portunus-forwarder/src/forwarder/sni/client_hello.rs:166-200 | The extension loop gives the meaning of an extension block. |
| ClientHello.Parse | crates/portunus-forwarder/src/forwarder/sni/client_hello.rs:96-201 | The cursor parser computes the recursive meaning of every byte string: truncated, not TLS, malformed, or the name. |
| ClientHello.DecisionIsFinal | crates/portunus-forwarder/src/forwarder/sni/client_hello.rs:96-125 | Once a prefix is decided, no further bytes change the outcome. |
| ClientHello.FullRecordDecides | crates/portunus-forwarder/src/forwarder/sni/client_hello.rs:96-125 | A header and the largest record body always decide. |
| HelloGrammar.BigEndian | crates/portunus-forwarder/src/forwarder/sni/client_hello.rs:110-129 | Length fields are big-endian: the byte order is the numeric order. |
| HelloGrammar.ParseOfRecord | crates/portunus-forwarder/src/forwarder/sni/client_hello.rs:96-201 | For any session id, ciphers, compression methods, extensions before `server_name`, name entries before the host and bytes after it, the parser answers that host, or none if there is no usable one. |
| HelloGrammar.ParsedIff | crates/portunus-forwarder/src/forwarder/sni/client_hello.rs:96-201 | The parser answers a name, or none, if and only if the buffer starts with the encoding of a well-formed hello that carries it. |
| HelloGrammar.OtherOutcomesIff | crates/portunus-forwarder/src/forwarder/sni/client_hello.rs:96-116 | Truncated, not TLS and malformed, each with its exact set of buffers. |
| HelloBuilder.BuildExtensions | crates/portunus-forwarder/src/forwarder/sni/client_hello.rs:281-294 | The grown buffer is the nested extension block. |
| HelloBuilder.BuildClientHello | crates/portunus-forwarder/src/forwarder/sni/client_hello.rs:271-312 | The grown buffer is the nested record. |
| HelloBuilder.BuiltBytes | crates/portunus-forwarder/src/forwarder/sni/client_hello.rs:271-312 | The bytes of a built hello, field by field, with every length as a number of host bytes. |
| HelloBuilder.ParseOfBuild | crates/portunus-forwarder/src/forwarder/sni/client_hello.rs:96-312 | Parsing the built record returns the stripped, lowercased host (none if that is empty) exactly up to 16328 bytes, and is malformed beyond. |
| HelloBuilder.ParseOfBuildWithoutName | crates/portunus-forwarder/src/forwarder/sni/client_hello.rs:271-312 | A record built without a name parses as carrying none. |
| HelloBuilder.BuiltPrefixesAreTruncated | crates/portunus-forwarder/src/forwarder/sni/client_hello.rs:96-125 | Every proper prefix of a built record asks for more bytes. |
| HelloBuilder.RoutingOnTheWire | crates/portunus-forwarder/src/forwarder/sni/route_table.rs:138-178 | For every table, routing on the bytes a client sends equals routing on the host itself. |
| Peek.ReadClientHello | crates/portunus-forwarder/src/forwarder/sni/peek.rs:83-147 | However the stream is cut into reads, a result reports a prefix of the stream and its meaning; a timeout means undecided; the size cap is unreachable with the production cap; a delivering peer gets the whole stream's decision. |
| InlineHello.ParseNames | crates/portunus-forwarder/benches/sni_route.rs:267-280 | The index loop gives the positional meaning of a name list. |
| InlineHello.ParseExtensions | crates/portunus-forwarder/benches/sni_route.rs:246-282 | The index loop gives the positional meaning of the extensions. |
| InlineHello.ParseBody | crates/portunus-forwarder/benches/sni_route.rs:227-283 | The skips over session id, ciphers and compression give the positional meaning of a body, including its out-of-bounds panic. |
| InlineHello.ParseSniInline | crates/portunus-forwarder/benches/sni_route.rs:206-283 | The index arithmetic computes the recursive meaning of every byte string. |
| InlineHello.InlineMirrorsProduction | crates/portunus-forwarder/benches/sni_route.rs:206-283 | Whenever the production parser finds a host, the inline parser finds the same host, except that it finds the empty host if and only if the first non-empty name on the wire strips to nothing. |
| InlineGrammar.InlineAnswers | crates/portunus-forwarder/benches/sni_route.rs:206-283 | On every well-structured hello the inline parser answers the first non-empty host name, in whichever server name extension it stands, and nothing if there is none or it is no UTF-8. |
| InlineGrammar.InlineWithoutBlock | crates/portunus-forwarder/benches/sni_route.rs:237-240 | Without an extension block there is no name, and a body cut after one byte of the block's length makes the parser panic. |
| InlineHello.InlineRoundTrip | crates/portunus-forwarder/benches/sni_route.rs:206-325 | Parsing the built hello returns the stripped, lowercased host exactly up to 65479 bytes, and no name beyond. |
| InlineHello.InlineDispatch | crates/portunus-forwarder/benches/sni_route.rs:353-362 | For bare ASCII hosts the inline parser finds the lowercased host, and looking that up equals looking the host up. |
| InlineHello.BenchLookup | crates/portunus-forwarder/benches/sni_route.rs:89-118 | The walk over bare suffixes answers as the production walk over the same routes. |
| InlineHello.BenchDispatch | crates/portunus-forwarder/benches/sni_route.rs:353-362 | For bare ASCII hosts the benchmark's parse and lookup on the built bytes answer as the production table does for the host. |
| SingleFlight.Cache.CachedGet | crates/portunus-forwarder/benches/dns_resolver.rs:63-69 | Answers if and only if a resolved entry has not expired, with its addresses. |
| SingleFlight.Cache.LockSection | crates/portunus-forwarder/benches/dns_resolver.rs:81-97 | One lock section returns, waits or claims the refresh, as specified. |
| SingleFlight.Cache.Publish | crates/portunus-forwarder/benches/dns_resolver.rs:108-116 | Stores the answer for that name only. |
| SingleFlight.OneCallOneAnswer | crates/portunus-forwarder/benches/dns_resolver.rs:75-121 | In every interleaving the resolver is called at most once per name, and every answer returned is the one that call produced. |
| SingleFlight.OneRefresherEver | crates/portunus-forwarder/benches/dns_resolver.rs:75-121 | Any two moments of a run see the same refresher for a name. |
| SingleFlight.LockProgress | crates/portunus-forwarder/benches/dns_resolver.rs:81-97 | In every interleaving a task becomes the refresher exactly for a new name, waits exactly while another task resolves it, and is done exactly once it is resolved. |
| SingleFlight.PublishServesEveryone | crates/portunus-forwarder/benches/dns_resolver.rs:108-116 | The refresher's answer goes to its caller and to everyone who asks from then on. |
| ResolverCache.Evict | crates/portunus-forwarder/src/resolver/cache.rs:465-503 | Below the limit nothing goes; otherwise useless entries go, then resolved ones oldest first until one slot is free, and live placeholders are never dropped. |
| ResolverCache.Oldest | crates/portunus-forwarder/src/resolver/cache.rs:489-502 | Returns a least recently used entry among those not pending, or none if there is none. |
| ResolverCache.ClampTtl | crates/portunus-forwarder/src/resolver/cache.rs:412-419 | The lifetime lies between floor and ceiling and is unchanged when already there. |
| ResolverCache.Cache.InstallPending | crates/portunus-forwarder/src/resolver/cache.rs:402-410 | A placeholder for the name is the only addition, and for a new name the rest is an eviction: useless entries gone, then least recently used first, live placeholders kept. |
| ResolverCache.Cache.LockSection | crates/portunus-forwarder/src/resolver/cache.rs:171-302 | One lock section decides hit, stale hit, negative hit, wait, refresh or overload, and changes the entries accordingly. |
| ResolverCache.Cache.Commit | crates/portunus-forwarder/src/resolver/cache.rs:318-354 | The refresh outcome replaces exactly that name's entry and gives the caller's answer. |
| ResolverCache.Cache.CommitFailure | crates/portunus-forwarder/src/resolver/cache.rs:356-396 | A failure serves the stale addresses if there are any and is remembered otherwise. |
| ResolverRuns.GateAndProvenanceInEveryRun | crates/portunus-forwarder/src/resolver/cache.rs:158-396 | In every interleaving at most the permitted number of resolves is in flight, and every cached or stale address list was resolved for that name. |
| ResolverRuns.AnswersAreResolved | crates/portunus-forwarder/src/resolver/cache.rs:171-396 | Every address list handed out is non-empty and was resolved for that name. |
| ResolverServes.StaleWhileError | crates/portunus-forwarder/src/resolver/cache.rs:171-396 | In every run a task that set out on an expired entry and fails returns the old addresses and leaves them servable; one that set out on anything else returns its error; one that succeeds returns what it resolved. |
| ResolverServes.AnswerLives | crates/portunus-forwarder/src/resolver/cache.rs:318-354 | A resolved answer is served exactly until its commit time plus the clamped lifetime, and then carried into the refresh. |
| ResolverServes.StaleLives | crates/portunus-forwarder/src/resolver/cache.rs:356-380 | Old addresses are served after a failure exactly until the grace is over. |
| ResolverServes.FailureLives | crates/portunus-forwarder/src/resolver/cache.rs:380-396 | An error is answered exactly until the retry time. |
| ResolverServes.UnknownOrPending | crates/portunus-forwarder/src/resolver/cache.rs:171-302 | An unknown name is resolved, a pending one waited for until the abandonment window is over. |
| ResolverServes.HitOutlivesIdle | crates/portunus-forwarder/src/resolver/cache.rs:465-503 | An entry that was hit is evicted while useful only if every settled entry that stays was used since. |
| ResolverRuns.SingleFlightInEveryTimelyRun | crates/portunus-forwarder/src/resolver/cache.rs:171-354 | While no resolve outlives the abandonment window with a permit free, each resolve owns its placeholder and no name has two. |
| ResolverRuns.BoundedInEveryTimelyRun | crates/portunus-forwarder/src/resolver/cache.rs:402-503 | If no resolve outlives the window, no future is dropped and permits do not exceed the limit, the cache never exceeds it. |
| ResolverRuns.SingleFlightSafeIff | crates/portunus-forwarder/src/resolver/cache.rs:171-302 | From a state with one resolve per name, every possible next step keeps it so if and only if no permit is free or every name being resolved has a useful entry; where each resolve owns its placeholder, that is: none is late. |
| ResolverRuns.OneFlightInEverySafeRun | crates/portunus-forwarder/src/resolver/cache.rs:171-354 | A run that visits only states meeting that condition never has two resolves for one name. |
| ResolverRuns.BoundSafeIff | crates/portunus-forwarder/src/resolver/cache.rs:318-503 | From within the limit, every possible next step stays within it if and only if a newcomer finds no permit, a free place or something to evict, and a finisher has its key or a free place. |
| ResolverRuns.ClockedInEveryRun | crates/portunus-forwarder/src/resolver/cache.rs:171-354 | In every run each resolve under way started no later than now, as the exact condition assumes. |
| ResolverRuns.BoundedInEverySafeRun | crates/portunus-forwarder/src/resolver/cache.rs:318-503 | A run that visits only states meeting that condition stays within the limit. |
| ResolverRuns.DroppedFuturesOverfill | crates/portunus-forwarder/src/resolver/cache.rs:465-503 | Whatever the limit, dropped futures can fill the cache with a placeholder for each of any number of names. |
| ResolverRuns.LateFinishOverfills | crates/portunus-forwarder/src/resolver/cache.rs:318-354 | A run without dropped futures in which a late commit re-inserts its reaped key past a limit of one. |
| ResolverCache.RoomIffFewPlaceholders | crates/portunus-forwarder/src/resolver/cache.rs:465-503 | A full cache gets room for a new key if and only if its live placeholders are fewer than the limit. |
| ResolverRuns.LateResolveIsDuplicated | crates/portunus-forwarder/src/resolver/cache.rs:171-302 | A run of three steps after which two tasks resolve one name. |
| Sessions.ConnectedClients.DrawSession | crates/portunus-server/src/clients.rs:105 | Hands out the counter and advances it. |
| Sessions.ConnectedClients.Insert | crates/portunus-server/src/clients.rs:112-127 | Installs the session with TCP-only capabilities and cancels the one it displaces. |
| Sessions.ConnectedClients.SetSupportedProtocols | crates/portunus-server/src/clients.rs:136-150 | Applies if and only if the session is still the live one. |
| Sessions.ConnectedClients.SetClientVersion | crates/portunus-server/src/clients.rs:165-179 | Applies if and only if the session is still the live one. |
| Sessions.ConnectedClients.Unregister | crates/portunus-server/src/clients.rs:203-210 | Removes the client only if the session is still the live one. |
| Sessions.ConnectedClients.Disconnect | crates/portunus-server/src/clients.rs:214-222 | Cancels the live session without removing it, and says whether there was one. |
| Sessions.EverySessionAccountedFor | crates/portunus-server/src/clients.rs:96-210 | In every interleaving each inserted session has exactly one fate (live, displaced and cancelled, unregistered), the live entry's capabilities and version come from its own session only, and no session is live for two clients. |
| Sessions.RegistryFollowsHistory | crates/portunus-server/src/clients.rs:96-210 | For every history the entry of each client is the last session inserted and not unregistered, TCP only until its own Hello, with its own version. |
| Sessions.CancelledFollowsHistory | crates/portunus-server/src/clients.rs:112-222 | The cancelled sessions are exactly those displaced or disconnected while live. |
| Sessions.EarlierDrawCanDisplaceLater | crates/portunus-server/src/clients.rs:105-127 | A run in which session 0 displaces and cancels session 1. |
| Sessions.NewestStaysLiveIff | crates/portunus-server/src/clients.rs:96-127 | A step keeps the last drawn of a client's inserted sessions live if and only if it is not an insert of an id below one already inserted for that client. |
| Sessions.NewestLiveInRunIff | crates/portunus-server/src/clients.rs:96-127 | Over a whole run the last drawn session is live throughout if and only if every insert is in draw order. |
| OwnerCaps.OwnerCapService.constructor | crates/portunus-server/src/owner.rs:77-97 | Opening loads every row: the nested cache flattens to the stored rows and has no empty client map. |
| OwnerCaps.OwnerCapService.UpsertCap | crates/portunus-server/src/owner.rs:103-134 | Validation and store failures change nothing; otherwise row and cache change together. |
| OwnerCaps.OwnerCapService.DeleteCap | crates/portunus-server/src/owner.rs:139-160 | A store failure changes nothing; otherwise row and cache entry go together, with the client map if it empties. |
| OwnerCaps.OwnerCapService.GcAfterRuleRemoved | crates/portunus-server/src/owner.rs:192-222 | Deletes only when no rule of the owner remains. |
| OwnerCaps.OwnerCapService.Get | crates/portunus-server/src/owner.rs:164-172 | The cached answer is the stored row. |
| OwnerCaps.OwnerCapService.ListForClient | crates/portunus-server/src/owner.rs:177-185 | Lists each of the client's stored rows once. |
| OwnerCaps.OwnerCapService.KnownOwners | crates/portunus-server/src/owner.rs:228-237 | The owners of the stored rows, each and no other. |
| OwnerCaps.ReopenIsIdentical | crates/portunus-server/src/owner.rs:77-97 | The stored rows determine the cache: any two caches in step with them are equal. |
| OwnerCaps.InStepInEveryRun | crates/portunus-server/src/owner.rs:77-222 | After every sequence of operations, failed ones included, cache and rows agree. |
| OwnerCaps.ReopenAnywhere | crates/portunus-server/src/owner.rs:77-237 | Reopening at any point of a history leaves the rest of the history unchanged. |
| OwnerCaps.RemembersLastWord | crates/portunus-server/src/owner.rs:103-222 | After every history each pair has exactly the row its last carried-out operation left, or none. |
| OwnerCaps.Answers | crates/portunus-server/src/owner.rs:103-222 | What each call answers; a sweep with rules remaining changes nothing and with none left leaves no row. |
| DeltaBook.GainIsLastPlusDrops | crates/portunus-server/src/metrics.rs:700-765 | A counter fed x1..xn stands at xn plus all drops on the way. |
| DeltaBook.CounterUnderRestarts | crates/portunus-server/src/metrics.rs:700-765 | For any pattern of restarts, counter plus the hidden part (at each restart the smaller of the last old and first new reading) is the true total. |
| DeltaBook.CounterNeverExceedsTotal | crates/portunus-server/src/metrics.rs:700-765 | The counter never exceeds the true total, with equality if and only if nothing is hidden, in particular without a restart. |
| DeltaBook.PrevIsLastReading | crates/portunus-server/src/metrics.rs:759-765 | After any interleaving a source's baseline is its own last reading. |
| DeltaBook.BumpIsMonotone | crates/portunus-server/src/metrics.rs:700-748 | No report lowers any counter. |
| DeltaBook.LabelsConserveGains | crates/portunus-server/src/metrics.rs:700-765 | For any grouping that labels and sources agree on, the counters of a group sum to its sources' gains. |
| Metrics.RuleStatsCache.Observe | crates/portunus-server/src/metrics.rs:649-777 | One report advances each of the seven metrics by its own reading's rise, under its own label. |
| Metrics.RuleStatsCache.DropRule | crates/portunus-server/src/metrics.rs:1111-1181 | A known rule's rows go from every family but the byte counters; an unknown rule's label stays. |
| Metrics.RuleCounterFollowsReadings | crates/portunus-server/src/metrics.rs:649-777 | In any interleaving of reports, a rule's counter summed over client names and owners is its last reading plus its drops. |
| Metrics.RaiseBuckets | crates/portunus-server/src/metrics.rs:1041-1055 | Each of the 15 finite buckets of the label rises by its own delta and nothing else moves. |
| Metrics.BucketsRiseByReading | crates/portunus-server/src/metrics.rs:1041-1055 | A finite bucket of the report's label rises by its reading's increase, a missing reading being zero; no other bucket moves. |
| Metrics.SniListenerStats.Observe | crates/portunus-server/src/metrics.rs:1005-1079 | Misses, parse failures, sum and count advance by the rise per client id and port, the finite buckets rise by theirs, and the `+Inf` bucket stays equal to the count for every label. |
| Metrics.ListenerSeriesConserve | crates/portunus-server/src/metrics.rs:1005-1079 | Across renames and shared display names, a port's series summed over client labels is the sum of what each client id gained. |
| Backoff.UpperIsLadder | crates/portunus-client/src/control.rs:276-282 | The saturating 64-bit window at the saturating 32-bit attempt equals max(1, min(base times 2 to the number of waits, cap)) over unbounded integers. |
| Backoff.LadderClimbs | crates/portunus-client/src/control.rs:276-282 | The window never shrinks as waits accumulate and stays within the configured maximum. |
| Backoff.LadderDoublesThenStays | crates/portunus-client/src/control.rs:276-282 | From a positive base the window doubles up to the cap and from the 64th wait on stays there. |
| Backoff.StreakSinceConnected | crates/portunus-client/src/control.rs:237-274 | The streak at a wait is the number of turns since the last connection. |
| Backoff.Supervise | crates/portunus-client/src/control.rs:237-274 | Every delay is drawn from the window for the number of waits since the last connection, and the loop stops exactly at cancellation or a terminal refusal. |

## Left out

- Sockets, TLS, gRPC, SQLite, Prometheus and the async runtime: a bind, a store write, a target validation and a read
  are parameters that may succeed or fail, the control channel is a queue, a counter is a natural number.
- Clocks and randomness: times and draws are parameters.
- Rule fields carried verbatim (target lists, health checks, address preference, rate limits, owner beyond bulk
  removal, timestamps): no property here depends on them.
- `rename_client`, `update_rate_limit`, the read-only listings of the store, and hot updates by a repeated push.
- Reconnect replay: a trace covers one session of one client from an empty start.
- EndToEnd.ServerVerdictsProtectTheClient: an accepted push and the queueing of its message are one step, because
  `crates/portunus-server/src/operator/cli.rs` performs them as two and promises no order between two operators. A
  removal may be one step or two, and a removal message that misses the client (that file finds the session by display
  name) is a silent removal.
- The undo of a push whose message could not be sent: the session is over by then.
- `observe_sni_per_rule`, `observe_rate_limit_per_rule`, `observe_rate_limit_per_owner`, per-target statistics and
  gauges: they follow the delta law of `DeltaBook` or simply overwrite.
- Metrics.RuleCounterFollowsReadings: covers one lifetime of a rule's entry, because a report that arrives after the
  rule was dropped starts from a zero baseline while byte counters persist.
- Floating-point rounding of byte counters and of the throttle seconds.
- ResolverRuns.BoundedInEveryTimelyRun: its premises are sufficient only; the exact condition is
  `ResolverRuns.BoundSafeIff`.
- Metrics.RuleStatsCache.DropRule: the gauges and rate-limit families that the source strips as well are not modelled.
- Liveness of the tasks that wait for a refresh, and the retry bound around the production lock section.
- OwnerCaps.InStepInEveryRun: covers completed operations in sequence, because store write and cache write are separate
  steps of one call.
- Validation of a rate-limit envelope: its outcome is a parameter.
- Overflow of the logged attempt number after the 32-bit maximum of waits.
- The status request ids echoed for refused pushes.
- Token buckets, quotas, access control, enrolment, host name and target validators, command line, web interface: they
  would add mostly per-field members.
