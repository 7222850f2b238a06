# Open WebBridge: a verified model

Open WebBridge lets programs drive a browser: a daemon accepts commands over HTTP, throttles navigations per
domain, and passes commands over a WebSocket to a browser extension, which keeps one tab group per session,
caps the tabs per domain, outlines pages, and stores annotations. This project models the parts of daemon and
extension that keep state or follow a protocol, and proves what they keep, in Dafny 4.11.

`dafny verify dfyconfig.toml` checks the whole project.

| part | modules |
|---|---|
| which rule governs a host; shared types | `Domains`, `Prelude` |
| navigation limiter: theory over all runs, and the object | `SlidingWindow`, `RateLimiter` |
| commands that reserve, call, and commit or roll back | `CommandFlow`, `NavigateCommand` |
| extension hub: critical sections, all interleavings, and what they come to in the callers' terms | `Hub`, `HubProtocol`, `HubHistory` |
| WebSocket frames: grammar, octets on the wire, and the buffered connection | `Bytes`, `Frames`, `WireFormat`, `Connection` |
| accessibility outline | `Snapshot` |
| annotation rules and store | `Annotations`, `AnnotationStore` |
| element locators and lookup | `Locators`, `LocatorFacts` |
| tab caps, sessions, and the tab tools | `TabLimits`, `Sessions`, `SessionFacts`, `SessionBridge`, `TabTools` |
| runs of the tab tools: as a relation between states, and on the bridge | `TabSteps`, `TabRuns` |

An object of the source is a class whose methods are proved against functions or relations on its state;
the theorems about runs are lemmas on those. Two kinds of run are modelled: step sequences over a state
(`CommandFlow`, `HubProtocol`, `SlidingWindow`, `Annotations`), and, for the extension's asynchronous code,
methods in which every `await` may close tabs and deliver pending removal events (`SessionBridge`, exactly
specified for a `quiet` browser, in which nothing happens meanwhile, and an `obliging` one, which closes what it is
asked to close), a method that performs any sequence of tools
(`TabRuns`), and the relation between states that its runs come to (`TabSteps`).

What the proofs say about the source beyond its own words:

- The limiter's comment that grants never decrease (ratelimit.go, line 99) does not hold after slots are given
  back out of order when a rule allows two or more navigations per window, and then the window bound can break.
  `OutOfOrderReleasesBreakBound` is such a run; `MonotoneIffGuarded` is the exact condition for the order and
  `RunBoundedIffFits` the exact condition for the bound.
- Rules change without clearing the history (ratelimit.go, lines 216-223). `NewRuleKeptIff` says exactly when the next
  slot keeps the new rule: always if the window gets no longer (`NewRuleSeesHistory`), but a longer one misses what
  was already pruned (`LongerWindowForgets`).
- The snapshot says it was truncated also when no line is lost; `MarkedWithoutLoss` says exactly when,
  `NamelessNodeMarks` is such a page.
- The tab cap counts a rule's subdomains even where a more specific rule governs them, so a request can be refused
  although its own rule governs no open tab: `RefusedBelowItsCap` is the exact condition,
  `SubdomainTabUsesParentsPlace` a case.
- A find checks the host its query saw before the lock, not the one the tab has when it is bound, so a cap can be
  broken: `StaleFindBreaksCap`. `BindingOverrunsIff` is the exact condition for one binding; `CapsHoldIffAllFit` says
  that over a run nothing else breaks a cap, and `MisfitStrayed` that the tab found must have changed site between
  query and lock.
- If the user closes a session's last tab while a navigation checks its caps, the tool passes a missing tab id
  to the browser, which takes it for the tab in view. `TabTools.GoTo` follows that path: it breaks no cap by itself,
  but is one way for a find to go wrong.
- Navigating with `newTab` in a session with a single tab closes that tab, and the browser drops the emptied group
  while the record still points at it; putting the new tab into it fails silently. `NewTabRecoverable` says exactly
  when a new tab can be recovered after a restart, `SoleTabIsNotRecovered` is this case.
- With `newTab` a navigation whose only tab vanishes during the cap check gives up as if that tab could not be closed,
  also in a browser that closes everything; `Navigate` says that nothing else makes such a browser fail so.
- A session whose last tab vanishes while it is being closed can be kept without a tab: `LastTabVanishes`.

## Model

| member | source | states |
|---|---|---|
| SlidingWindow.BoundIsSpacing | open-webbridge-daemon/internal/ratelimit/ratelimit.go:92-115 | for a grant history in time order, "at most Max grants in every half-open window" is the same as "grants Max places apart lie at least a window apart" |
| SlidingWindow.ReleaseFreeRunBounded | open-webbridge-daemon/internal/ratelimit/ratelimit.go:92-116 | window bound: over every run of reservations without a release, deadline rejections and pruning included, all grants ever issued are in time order and no window of the rule's length holds more than Max of them; every future grant stands exactly one window after the grant Max places before it |
| SlidingWindow.SlotIsEarliest | open-webbridge-daemon/internal/ratelimit/ratelimit.go:99-107 | the chosen time is the least one from now on that keeps the bound: it keeps it, and every earlier time would be the grant number Max + 1 of the window ending there |
| SlidingWindow.RefusedIffNoTimeFits | open-webbridge-daemon/internal/ratelimit/ratelimit.go:99-116 | over every run without a release: a request is refused if and only if it has a deadline and no time from now to the deadline would keep the window bound; otherwise it is granted the earliest time that does |
| SlidingWindow.GrantedInTime | open-webbridge-daemon/internal/ratelimit/ratelimit.go:92-116 | whatever was released before, a granted time is neither in the past nor past the deadline, and what is kept on record can still share a window with a later grant |
| SlidingWindow.WaitBound | open-webbridge-daemon/internal/ratelimit/ratelimit.go:92-107 | with f grants in the future the wait lies between floor(f/Max) and floor(f/Max) + 1 windows, and it is 0 while fewer than Max grants survive pruning |
| SlidingWindow.NewestFirstRunBounded | open-webbridge-daemon/internal/ratelimit/ratelimit.go:125-132 | window bound and order for any Max over every run whose releases take the newest recorded grant first, later reservations included |
| SlidingWindow.SingleSlotRunBounded | open-webbridge-daemon/internal/ratelimit/ratelimit.go:125-159 | for Max = 1 the window bound and the order survive arbitrary cancellations and rollbacks |
| SlidingWindow.OutOfOrderReleasesBreakBound | open-webbridge-daemon/internal/ratelimit/ratelimit.go:99-100 | a concrete run (Max 2, window 10, ten events) whose out-of-order releases end with three grants at one instant: the code's claim that grants are monotone fails there |
| SlidingWindow.MonotoneIffGuarded | open-webbridge-daemon/internal/ratelimit/ratelimit.go:99-107 | when that claim holds: a reservation keeps the grants in time order if and only if no surviving grant is in the future, or at least Max grants survive and the newest is at most a window later than the one Max places from the end |
| SlidingWindow.GuardedRunBounded | open-webbridge-daemon/internal/ratelimit/ratelimit.go:92-116 | any releases, any Max: as long as every reservation meets that condition, the unreleased grants keep the window bound and their order |
| SlidingWindow.NextReserveStillBounded | open-webbridge-daemon/internal/ratelimit/ratelimit.go:99-116 | even the first reservation that misses the condition keeps the bound; only a later one can break it |
| SlidingWindow.BoundIffFits | open-webbridge-daemon/internal/ratelimit/ratelimit.go:92-116 | whatever was released before, a reservation keeps the window bound if and only if its slot fits the surviving list: fewer than Max grants in the window ending there, and in the one ending at each grant less than a window later |
| SlidingWindow.RunBoundedIffFits | open-webbridge-daemon/internal/ratelimit/ratelimit.go:92-159 | the exact condition for the window bound, any Max, over every timed run with arbitrary releases: the unreleased grants keep the bound after every event if and only if every slot granted fits the list it was chosen from |
| SlidingWindow.NewRuleKeptIff | open-webbridge-daemon/internal/ratelimit/ratelimit.go:92-107 | a rule change to any window and cap with the old grants on file: the next slot keeps the new rule over the whole history, in the window ending there, if and only if the list surviving under the new window is full, or the grants of the last window, those on record and those already pruned, are fewer than the new cap |
| SlidingWindow.NewRuleSeesHistory | open-webbridge-daemon/internal/ratelimit/ratelimit.go:216-223 | so clearing nothing keeps the new rule whenever its window is no longer than the old one |
| SlidingWindow.LongerWindowForgets | open-webbridge-daemon/internal/ratelimit/ratelimit.go:216-223 | with a longer new window it need not: a run in which grants already pruned let a third navigation into a window of two |
| SlidingWindow.ReleaseKeepsInv | open-webbridge-daemon/internal/ratelimit/ratelimit.go:191-204 | giving back any slot keeps order, spacing and the relation between the pruned list and the full history |
| SlidingWindow.PruneIsSuffix | open-webbridge-daemon/internal/ratelimit/ratelimit.go:92-98 | on a list in time order pruning cuts off a prefix, namely the grants a window or more old |
| SlidingWindow.RemoveLastAt | open-webbridge-daemon/internal/ratelimit/ratelimit.go:195-202 | a release deletes one occurrence, the last one of that time, and nothing else |
| RateLimiter.Limiter.MatchLocked | open-webbridge-daemon/internal/ratelimit/ratelimit.go:173-189 | the scan finds the most specific rule: one that matches, the longest such, the first of equals; none exactly when none matches |
| RateLimiter.Limiter.Compact | open-webbridge-daemon/internal/ratelimit/ratelimit.go:92-98 | the in-place compaction yields exactly the grants that can still constrain a new one, in order |
| RateLimiter.Limiter.ReserveLocked | open-webbridge-daemon/internal/ratelimit/ratelimit.go:77-118 | which requests are unlimited (no host, no matching rule, or one without a positive cap and window), refused (the slot lies past the deadline) or granted, the slot and wait reported, and the complete new file of grants, a refusal keeping the pruned list |
| RateLimiter.Limiter.AwaitSlot | open-webbridge-daemon/internal/ratelimit/ratelimit.go:118-132 | a due slot is never waited for; a cancelled wait gives exactly its own slot back; otherwise the caller holds an open reservation |
| RateLimiter.Limiter.RemoveGrant | open-webbridge-daemon/internal/ratelimit/ratelimit.go:191-204 | the backward scan removes the last equal grant, drops the key with its last grant, and leaves the file alone when there is none |
| RateLimiter.Reservation.Commit | open-webbridge-daemon/internal/ratelimit/ratelimit.go:134-143 | from a commit on, rolling the reservation back changes no grant |
| RateLimiter.Reservation.Rollback | open-webbridge-daemon/internal/ratelimit/ratelimit.go:145-159 | a rollback gives the slot back once; after a commit or an earlier rollback it changes nothing, and neither does a second one |
| RateLimiter.Limiter.Status | open-webbridge-daemon/internal/ratelimit/ratelimit.go:239-286 | one report for each rule in force, in the order of the rules, with the usage and the wait a reservation made now would meet, and no change to the file |
| RateLimiter.ChoiceIsUnique | open-webbridge-daemon/internal/ratelimit/ratelimit.go:173-189 | the rule that governs a host is determined |
| RateLimiter.FileFollowsTheory | open-webbridge-daemon/internal/ratelimit/ratelimit.go:92-116 | on the list of its own key the limiter takes exactly the abstract reserve and release steps the window theorems are about |
| RateLimiter.KeysAreIndependent | open-webbridge-daemon/internal/ratelimit/ratelimit.go:90-116 | traffic under one domain never changes the grants of another |
| RateLimiter.ReserveThenRemove | open-webbridge-daemon/internal/ratelimit/ratelimit.go:114-127 | a slot taken and given back leaves the pruned list it was taken on |
| Domains.LongestIsUnique | open-webbridge-daemon/internal/ratelimit/ratelimit.go:173-189 | two configured domains of one length that match one host are the same domain, so "longest match" leaves no tie |
| Domains.GoverningDomainIgnoresOrder | open-webbridge-daemon/internal/ratelimit/ratelimit.go:174-187 | which domain governs does not depend on the order of the rules |
| Domains.MatchesLastLabels | open-webbridge-daemon/internal/ratelimit/ratelimit.go:180-181 | a domain matches exactly the hosts whose last labels, between dots, are its labels |
| Domains.MostLabelsGovern | open-webbridge-daemon/internal/ratelimit/ratelimit.go:173-189 | the rule that governs is the one with the most labels of those that match, and of equal domains the first |
| Domains.NormalMeans | open-webbridge-daemon/internal/ratelimit/ratelimit.go:177-177 | normalising cuts off exactly the white space at both ends and lowers the case of the rest |
| CommandFlow.SlotsConserved | open-webbridge-daemon/internal/server/server.go:235-259 | slot conservation over every interleaving of commands: the unreleased grants are, as a multiset, exactly the slots of commands that succeeded or are still in progress, and the recorded ones are those of them that are not yet pruned |
| CommandFlow.SettledRecord | open-webbridge-daemon/internal/server/server.go:253-259 | once all commands are settled, a slot is on record exactly when a command succeeded with it within the last window |
| CommandFlow.SingleSlotNavigationsBounded | open-webbridge-daemon/internal/server/server.go:235-259 | with Max = 1 the successful and running navigations keep the window bound whatever failures, cancellations and rollbacks are mixed in |
| NavigateCommand.HandleNavigate | open-webbridge-daemon/internal/server/server.go:235-262 | one navigation, given what other commands make of the file during its wait and during its call: the reply, and the complete file afterwards |
| NavigateCommand.SettlingTakesOwnSlot | open-webbridge-daemon/internal/server/server.go:244-259 | whatever others make of the file meanwhile, settling takes at most one grant out of what they leave, the command's own slot, and only if the navigation did not happen |
| NavigateCommand.OutcomeOnFile | open-webbridge-daemon/internal/server/server.go:236-259 | with nothing in between, a command that does not succeed leaves only the pruning of its own key behind, one that does adds its slot, and other keys never change |
| Hub.HubObject.LookUpSemaphore | open-webbridge-daemon/internal/hub/hub.go:91-98 | a session's semaphore is made free on first use and left alone afterwards |
| Hub.HubObject.Enter | open-webbridge-daemon/internal/hub/hub.go:151-172 | a newcomer is refused exactly while another connection is alive; otherwise it takes over, counts as compatible, and wakes the waiters |
| Hub.HubObject.Exit | open-webbridge-daemon/internal/hub/hub.go:178-191 | the owner's exit drops the connection and flushes every pending call; a superseded handler's exit changes nothing |
| Hub.HubObject.FlushPending | open-webbridge-daemon/internal/hub/hub.go:186-189 | the flush answers every pending call with exactly one error envelope for its own id and empties the table |
| Hub.HubObject.HandleResult | open-webbridge-daemon/internal/hub/hub.go:245-252 | a result claims its pending call once and puts the envelope on that call's channel; a result for an unknown id changes nothing |
| Hub.HubObject.Submit | open-webbridge-daemon/internal/hub/hub.go:326-344 | no extension, protocol mismatch in either direction, or a new number with an empty channel of its own |
| Hub.HubObject.DropPending | open-webbridge-daemon/internal/hub/hub.go:367-371 | a dropped call leaves the table and nothing else changes |
| HubProtocol.EveryInterleavingKeepsInv | open-webbridge-daemon/internal/hub/hub.go:151-209 | the full protocol invariant after every interleaving of any number of callers and connection handlers |
| HubProtocol.NoBlockedSender | open-webbridge-daemon/internal/hub/hub.go:178-190 | whoever sends on a reply channel finds room, so the flush that holds the mutex never blocks |
| HubProtocol.EntersAndLeavesOnce | open-webbridge-daemon/internal/hub/hub.go:339-371 | each call number enters the pending table once and leaves it once, and its channel gets at most one envelope over the whole run |
| HubProtocol.RepliesMatch | open-webbridge-daemon/internal/hub/hub.go:352-364 | a caller that receives gets the answer to its own call |
| HubProtocol.SessionExclusion | open-webbridge-daemon/internal/hub/hub.go:91-115 | at most one call per session is between acquire and release, the semaphore counts exactly it, and its release never blocks |
| HubProtocol.OnePendingPerSession | open-webbridge-daemon/internal/hub/hub.go:313-344 | every pending call belongs to the caller that is inside it, and of one session at most one is pending |
| HubProtocol.FreeSessionCanBeTaken | open-webbridge-daemon/internal/hub/hub.go:100-105 | a session nobody holds can be taken by a queued caller |
| HubProtocol.ConnectionAndWakeUps | open-webbridge-daemon/internal/hub/hub.go:273-305 | connected exactly while a connection is owned; nothing pending without one; and while one is owned no waiter is parked on the current state-changed channel |
| HubProtocol.SupersededExitIsSilent | open-webbridge-daemon/internal/hub/hub.go:178-194 | over runs: a handler that does not own the connection after some steps owns it after no continuation, whatever other handlers and callers do, and its exit then leaves the hub, with every pending call, and the mutex as they are |
| HubProtocol.NothingLeaks | open-webbridge-daemon/internal/hub/hub.go:313-371 | when every call has returned, no pending entry and no session token is left |
| HubHistory.OneInsidePerSession | open-webbridge-daemon/internal/hub/hub.go:66-115 | from the arguments of the calls alone: of two calls for one session, no name and "default" being one, neither of them "annotations", at most one is past the queue and not returned, and at most one is pending |
| HubHistory.AnnotationsNeverWait | open-webbridge-daemon/internal/hub/hub.go:66-75 | an "annotations" call never waits for a session and never holds one |
| HubHistory.TakesOverIffSilent | open-webbridge-daemon/internal/hub/hub.go:151-172 | a newcomer takes over if and only if nobody owns the connection or its owner has not been heard of for 50 seconds; otherwise the hub stays as it is |
| HubHistory.GoesOnIffConnected | open-webbridge-daemon/internal/hub/hub.go:273-305 | a call that looks for a connection goes on if and only if there is one, and otherwise waits if waiting is configured |
| HubHistory.SubmittedIffCompatible | open-webbridge-daemon/internal/hub/hub.go:326-344 | a call is submitted if and only if there is a connection and the last greeting since it took over, if any, was of protocol 2; otherwise the caller learns which side to update |
| HubHistory.RegistersIffCompatible | open-webbridge-daemon/internal/hub/hub.go:326-344 | and goes on under the next number, pending from then on |
| HubHistory.AnswerIsGenuine | open-webbridge-daemon/internal/hub/hub.go:186-190 | the answer a caller receives is the extension's own if and only if the extension answered that call while it was pending; otherwise it is the error made up at the disconnection |
| Bytes.LowByteValue | open-webbridge-daemon/internal/wsserver/wsserver.go:202-208 | a conversion to a byte keeps the value modulo 256 |
| Frames.BytesRoundTrip | open-webbridge-daemon/internal/wsserver/wsserver.go:157-167 | big-endian numbers that fit their field come back |
| Frames.UnmaskMask | open-webbridge-daemon/internal/wsserver/wsserver.go:183-187 | applying a mask key twice restores the payload |
| Frames.ParsePrint | open-webbridge-daemon/internal/wsserver/wsserver.go:146-189 | reading a printed frame, masked or not, across all three length forms, returns its flag, opcode and payload and stops right behind it |
| Frames.PrintIsShortest | open-webbridge-daemon/internal/wsserver/wsserver.go:199-210 | the writer uses the minimal length form: no byte string that reads as the same frame is shorter |
| Frames.StreamRoundTrip | open-webbridge-daemon/internal/wsserver/wsserver.go:146-220 | any list of frames written one after the other reads back in order with nothing left over |
| Frames.ReadingIsUnique | open-webbridge-daemon/internal/wsserver/wsserver.go:146-189 | a byte stream has only one reading |
| Frames.ReadsMessage | open-webbridge-daemon/internal/wsserver/wsserver.go:83-111 | frames that form one message within the limit read as that message and are answered as RFC 6455 sections 5.5.2 and 5.5.3 ask |
| Frames.MessageComesFromFrames | open-webbridge-daemon/internal/wsserver/wsserver.go:83-111 | conversely every message read is the concatenation of data frames up to a final one, with exactly the replies of the pings in between |
| Frames.Reassembly | open-webbridge-daemon/internal/wsserver/wsserver.go:83-111 | every fragmentation, every mask key, any control frames in between: reading returns exactly the payload, answers each ping in order with its own data, and stops at the next frame |
| WireFormat.WhenParsed | open-webbridge-daemon/internal/wsserver/wsserver.go:146-189 | which byte strings are a frame, too large, or cut short, in terms of the header octets |
| WireFormat.ParsedOnTheWire | open-webbridge-daemon/internal/wsserver/wsserver.go:146-189 | every frame read, octet by octet: final bit, opcode, big-endian length, each payload octet XORed with the key octet of its own index modulo 4, and what is left |
| WireFormat.PrintedOnTheWire | open-webbridge-daemon/internal/wsserver/wsserver.go:191-220 | every frame written, octet by octet: reserved and mask bits zero, the least length form, the payload as it is |
| WireFormat.ReadByOpcode | open-webbridge-daemon/internal/wsserver/wsserver.go:83-111 | one frame's part in reading a message, by opcode: 0, 1, 2 carry data; 9 is answered by 10 with the same data; 8 ends the reading; others are passed over |
| WireFormat.HelloExample | open-webbridge-daemon/internal/wsserver/wsserver.go:146-220 | the example of RFC 6455 section 5.7, read and written |
| WireFormat.MaskedExample | open-webbridge-daemon/internal/wsserver/wsserver.go:146-189 | the masked one, read |
| WireFormat.FragmentedExample | open-webbridge-daemon/internal/wsserver/wsserver.go:83-111 | a fragmented one with a ping in between: the message and the pong |
| Connection.Conn.Unmask | open-webbridge-daemon/internal/wsserver/wsserver.go:183-187 | the in-place loop XORs every byte with its key byte |
| Connection.Conn.ReadFrame | open-webbridge-daemon/internal/wsserver/wsserver.go:146-189 | the buffered reader consumes and returns exactly what the frame grammar says, errors and short input included |
| Connection.Conn.HeaderFor | open-webbridge-daemon/internal/wsserver/wsserver.go:197-210 | the header assembled by the writer is the printed one |
| Connection.Conn.WriteFrame | open-webbridge-daemon/internal/wsserver/wsserver.go:191-220 | a closed connection refuses; otherwise exactly the printed frame is added to the output |
| Connection.Conn.ReadMessage | open-webbridge-daemon/internal/wsserver/wsserver.go:83-111 | the reading loop computes the message, the input left and the replies of the reading specification |
| Connection.Conn.Close | open-webbridge-daemon/internal/wsserver/wsserver.go:121-144 | one close frame with status 1000, once |
| Connection.OutputReadsBack | open-webbridge-daemon/internal/wsserver/wsserver.go:191-220 | a peer that reads all output recovers the frames sent, in order, then at most one close frame, with nothing left over |
| Snapshot.Walker.Walk | open-webbridge-extension/src/tools/snapshot.js:44-76 | the mutating recursive walk has the effect of handling the subtree's nodes one by one in preorder, and terminates |
| Snapshot.FoldOutlines | open-webbridge-extension/src/tools/snapshot.js:44-78 | handling any visit sequence leaves exactly its outline: the first 4000 qualifying nodes, each indented by its emitted ancestors, refs numbered without gaps and each leading to its own node |
| Snapshot.Outline | open-webbridge-extension/src/tools/snapshot.js:29-83 | for every finite forest with unique ids the snapshot is that outline of all nodes in preorder; the truncation mark is set exactly when some node, qualifying or not, follows the last line the budget allows |
| Snapshot.ChildrenInOrder | open-webbridge-extension/src/tools/snapshot.js:44-76 | a node is visited first, then its children in the order in which it lists them |
| Snapshot.WhoHasALine | open-webbridge-extension/src/tools/snapshot.js:49-56 | within the budget a node has a line exactly if it is not ignored, its role is not one of the four that say nothing, and it has a name, a value or one of the interactive roles |
| Snapshot.WhatALineSays | open-webbridge-extension/src/tools/snapshot.js:57-68 | role, name and value, and a reference exactly if the page can resolve the node and it has a name or an interactive role |
| Snapshot.MarkedWithoutLoss | open-webbridge-extension/src/tools/snapshot.js:44-48 | the mark is set whenever a line is lost, and with no line lost if and only if exactly 4000 nodes qualify and the last node of the walk does not |
| Snapshot.NamelessNodeMarks | open-webbridge-extension/src/tools/snapshot.js:44-48 | such a page, 4000 named nodes and a nameless one after them, is a well-formed tree whose outline loses no line and is marked |
| Snapshot.VisitedOnce | open-webbridge-extension/src/tools/snapshot.js:33-78 | every node of the forest is visited exactly once |
| Snapshot.FindRoots | open-webbridge-extension/src/tools/snapshot.js:33-34 | the roots are the nodes without a listed parent, in input order |
| Annotations.SelectMeans | open-webbridge-extension/src/annotations/model.js:121-149 | a query returns, in creation order, exactly the records with one of the ids, the status (open unless given, any for "all"), the address part in any case, the tab and a later number than asked for, or with a limit exactly those with fewer than that many newer ones |
| Annotations.NewestByRank | open-webbridge-extension/src/annotations/model.js:194-199 | pruning keeps exactly the records with fewer than max newer ones |
| Annotations.KeepIsNewestLive | open-webbridge-extension/src/annotations/model.js:203-209 | looking up each image's record in any order, sorting and cutting gives the newest live images |
| Annotations.KeptImages | open-webbridge-extension/src/annotations/model.js:201-209 | an image survives exactly when its record is live and fewer than max newer live records have one |
| Annotations.NextIdIsNew | open-webbridge-extension/src/annotations/store.js:106-111 | the number given out next has no record and no image |
| Annotations.IdsDiffer | open-webbridge-extension/src/annotations/model.js:99-99 | different numbers give different ids |
| Annotations.AddKeeps | open-webbridge-extension/src/annotations/store.js:106-116 | adding keeps the store well formed |
| Annotations.PatchKeeps | open-webbridge-extension/src/annotations/store.js:124-139 | patching keeps the store well formed |
| Annotations.RemoveKeeps | open-webbridge-extension/src/annotations/store.js:142-159 | removing keeps the store well formed |
| Annotations.SetShotKeeps | open-webbridge-extension/src/annotations/store.js:167-185 | storing an image keeps the store well formed |
| Annotations.RunKeepsWellFormed | open-webbridge-extension/src/annotations/store.js:106-185 | over every run: records strictly increasing in number and at most 500, at most 30 images, and a record flagged as having an image exactly when its image is stored |
| Annotations.RunStaysInOrder | open-webbridge-extension/src/annotations/store.js:106-185 | from the empty store in particular: at most 500 records and 30 images, in order, flags right |
| Annotations.AddedMeans | open-webbridge-extension/src/annotations/model.js:94-119 | a new record, field by field, the comment cut to 4000 characters and trimmed; refused exactly if that leaves nothing |
| Annotations.PatchedMeans | open-webbridge-extension/src/annotations/store.js:124-139 | a patch changes exactly the records its query selects, where they stand |
| Annotations.ChangedMeans | open-webbridge-extension/src/annotations/store.js:128-133 | what a patch changes of a record, field by field |
| Annotations.RemovedMeans | open-webbridge-extension/src/annotations/store.js:142-159 | a removal takes away exactly the records its query selects, and their images |
| Annotations.SetShotStores | open-webbridge-extension/src/annotations/store.js:167-174 | after storing an image exactly those of the newest 30 live records that have one are stored |
| Annotations.SetShotKeepsComments | open-webbridge-extension/src/annotations/store.js:175-180 | storing an image changes no record but for its image flag |
| AnnotationStore.FilterAnnotations | open-webbridge-extension/src/annotations/model.js:133-148 | filter, sort and cut compute the query |
| AnnotationStore.ShotIdsToKeep | open-webbridge-extension/src/annotations/model.js:203-209 | the map, filter and sort compute the ids of the newest live images |
| AnnotationStore.Store.Add | open-webbridge-extension/src/annotations/store.js:106-116 | the new state, and the record returned; an empty comment is refused but its number is used up |
| AnnotationStore.Store.Patch | open-webbridge-extension/src/annotations/store.js:124-139 | exactly the records that match the query change, in place |
| AnnotationStore.Store.Remove | open-webbridge-extension/src/annotations/store.js:142-159 | exactly the records that match go, with their images; a query that matches nothing changes nothing |
| AnnotationStore.Store.SetShot | open-webbridge-extension/src/annotations/store.js:167-185 | the deletion loop and the flag corrections leave the specified images and flags; the answer says whether the image survived |
| AnnotationStore.EmptyRemoval | open-webbridge-extension/src/annotations/store.js:145-145 | the early return of an empty removal agrees with carrying it out |
| Locators.QueryMeans | open-webbridge-extension/annotator.js:521-533 | a query returns exactly the elements its selector matches (Selectors Level 3 sections 6.6.5.4 and 8.2) |
| Locators.SingleResult | open-webbridge-extension/annotator.js:263-269 | a query has one result, a given element, exactly when the selector matches it and nothing else |
| Locators.CollectStableClasses | open-webbridge-extension/annotator.js:271-279 | the loop with its early exit yields the first two class names that qualify |
| Locators.BuildCssPath | open-webbridge-extension/annotator.js:281-301 | the climbing loop builds the path selector |
| Locators.MatchesOwnPath | open-webbridge-extension/annotator.js:281-301 | every element matches its own path selector, whatever its depth |
| Locators.CssLocates | open-webbridge-extension/annotator.js:281-301 | when the climb ends at the root or at a stable id no other element has, in a document whose root tag occurs only at the root, the selector matches that element and no other |
| Locators.CssLocatesShallow | open-webbridge-extension/annotator.js:281-301 | in particular for every element at depth at most 8 with no stable id on its path |
| Locators.CountBack | open-webbridge-extension/annotator.js:308-313 | counting back over the earlier siblings gives the position among those of the same tag |
| Locators.BuildXPath | open-webbridge-extension/annotator.js:303-318 | the two nested loops build the location path |
| Locators.XPathLocates | open-webbridge-extension/annotator.js:303-318 | evaluating the recorded path (XPath 1.0 section 2.5) finds the element if and only if its depth is at most 12, and then finds nothing else |
| Locators.XPathsDiffer | open-webbridge-extension/annotator.js:303-318 | distinct elements at depth at most 12 get distinct paths |
| Locators.DeepPathFindsNothing | open-webbridge-extension/annotator.js:303-318 | beyond that depth the recorded path finds nothing at all |
| Locators.FirstUnique | open-webbridge-extension/annotator.js:383-385 | the first unique candidate, or none of them is unique |
| Locators.ReportIsHonest | open-webbridge-extension/annotator.js:357-390 | the chosen selector matches the element; unique is reported exactly when it matches nothing else, and denied only when neither a candidate nor the path would single the element out |
| Locators.LookupFindsTheElement | open-webbridge-extension/annotator.js:511-533 | on the unchanged document the lookup reports one match exactly when the recording said unique, and then returns that very element |
| Locators.AnchoredIsFound | open-webbridge-extension/annotator.js:357-533 | an element whose climb is anchored is always reported unique and always found again |
| Locators.AmbiguousLookup | open-webbridge-extension/annotator.js:530-533 | otherwise the lookup returns the element if and only if it comes first among the matches with its text, or first of all when no text was recorded, and then the answer is marked ambiguous |
| Locators.LookupIsSound | open-webbridge-extension/annotator.js:511-553 | on any document, changed or not, an element returned satisfies the strategy reported, and none is returned only when no recorded selector, path or text finds anything |
| LocatorFacts.RecordedIsPreferred | open-webbridge-extension/annotator.js:357-390 | of five test attributes, id, name, label and path, in this order, the first that singles the element out is relied on, and if none does, the first there is |
| LocatorFacts.RecordedMeans | open-webbridge-extension/annotator.js:357-390 | what else is recorded: first test attribute, label, path of at most 8 compounds, location path of at most 12 steps, tag and text |
| LocatorFacts.StableClassesMean | open-webbridge-extension/annotator.js:271-279 | the class names relied on: at most two, of 2 to 30 characters, not generated, and all such if fewer |
| LocatorFacts.QueryInOrder | open-webbridge-extension/annotator.js:521-533 | a query lists its results in document order |
| LocatorFacts.LookupInTurn | open-webbridge-extension/annotator.js:511-553 | selector, test attribute, label, path, location path and text are tried in this order: the strategy reported is the first under which anything is found |
| LocatorFacts.SelectorPicks | open-webbridge-extension/annotator.js:529-533 | of several elements found, the first in document order with the recorded text, otherwise the first of all; ambiguous exactly if several were found and none has the text |
| TabLimits.MostSpecific | open-webbridge-extension/src/tablimit.js:25-36 | the loop over the best length finds the most specific rule with a positive cap, or none matches |
| TabLimits.OneRuleGoverns | open-webbridge-extension/src/tablimit.js:25-36 | a host has at most one most specific rule |
| TabLimits.RulesToCheck | open-webbridge-extension/src/tablimit.js:16-37 | with a target its most specific rule or none, without one all rules in force |
| TabLimits.AssertDomainTabLimits | open-webbridge-extension/src/tablimit.js:39-51 | passes exactly when every rule to check has a place left; always for a target without a host; without a target when every rule with a positive cap has one |
| TabLimits.CountSplits | open-webbridge-extension/src/tablimit.js:40-45 | for every rule list and every list of open tabs, what the check counts for a rule is the tabs it governs and the excess: tabs it matches and does not govern |
| TabLimits.ExcessIsLonger | open-webbridge-extension/src/tablimit.js:25-45 | a tab in the excess of a rule that governs some host is governed by a strictly longer rule |
| TabLimits.RefusedBelowItsCap | open-webbridge-extension/src/tablimit.js:25-50 | when a request is refused although its own rule is below its cap: if and only if own tabs < max <= own tabs + excess |
| TabLimits.SubdomainTabUsesParentsPlace | open-webbridge-extension/src/tablimit.js:39-51 | the least case: one tab on a subdomain with a rule of its own, and the parent domain is refused with no tab of its own open |
| Sessions.PlacementOverrunsNothing | open-webbridge-extension/src/sessions.js:144-186 | cap safety of one placement: after a check that left one tab out, if the managed tabs only shrank, lost that tab unless it is the placed one, and gained at most the placed one, no rule is pushed over its cap |
| Sessions.BindingLoads | open-webbridge-extension/src/sessions.js:273-277 | what binding a tab does to every rule's load: one more for the rule that governs its host, if it lives and was not managed, and otherwise nothing |
| Sessions.BindingOverrunsIff | open-webbridge-extension/src/sessions.js:273-277 | binding a tab pushes no rule over its cap if and only if the tab is gone, or managed already, or the rule for the host it has by then has a place left |
| Sessions.LaterManaged | open-webbridge-extension/src/sessions.js:188-222 | closing tabs and hearing about it makes no tab managed |
| Sessions.ReconcilingManagesNoMore | open-webbridge-extension/src/sessions.js:83-121 | reconciling makes no tab managed, given that no unowned group bears the session's name |
| Sessions.ReconcileIsIdempotent | open-webbridge-extension/src/sessions.js:83-121 | reconciling an undisturbed browser a second time changes nothing |
| Sessions.ReconcileRecovers | open-webbridge-extension/src/sessions.js:73-121 | after the in-memory records are lost, reconciling regains exactly the live tabs of the groups owned by or titled with the name, and the record is in order |
| SessionFacts.ReconcilingMeans | open-webbridge-extension/src/sessions.js:83-121 | reconciling an undisturbed browser, in the browser's terms: the record has what it had and the live tabs of the groups titled with the name or owned by it, the first of these becomes its group, its active tab stays if it lives and otherwise is its last; without such groups only a stale group is dropped |
| SessionFacts.OwningMeans | open-webbridge-extension/src/sessions.js:97-108 | all groups titled with the name or owned by it are owned by it afterwards, and ownership of others stays |
| SessionFacts.RecoverableIsManaged | open-webbridge-extension/src/sessions.js:188-222 | every live tab a session with a record could recover counts for the caps already |
| SessionFacts.ManagedMeans | open-webbridge-extension/src/sessions.js:188-222 | which tabs the caps are about: the live ones on record, and those in a listed group that is owned, tracked by a record, or titled like one |
| SessionFacts.HearingMeans | open-webbridge-extension/src/sessions.js:350-358 | a removal event, field by field: the tab leaves the record, the others keep their order, and the last of them becomes active if it was the active one |
| Sessions.ReconcilingCovers | open-webbridge-extension/src/sessions.js:97-120 | also with tabs closing meanwhile, every live tab of the session's groups is then in its record, and no group loses its owner |
| Sessions.RegroupingManagesNoMore | open-webbridge-extension/src/sessions.js:224-239 | putting a session's tab into its group, old or new, makes no other tab managed and leaves no unowned group behind |
| Sessions.RetitlingIsSteady | open-webbridge-extension/src/sessions.js:241-251 | a custom title changes no tab's being managed, and no host, bond or record, nor leaves an unowned group behind |
| Sessions.EndsForgotten | open-webbridge-extension/src/sessions.js:308-316 | when the record runs empty, no live tab of the session and no group of its own is left, and nothing is owned by it |
| Sessions.EndsKept | open-webbridge-extension/src/sessions.js:317-319 | otherwise record and ownership stay, in order |
| SessionBridge.Bridge.HandleTabRemoved | open-webbridge-extension/src/sessions.js:350-358 | every record forgets the tab, and one whose active tab it was moves on to its last |
| SessionBridge.Bridge.RemoveManagedTab | open-webbridge-extension/src/sessions.js:289-300 | reports success exactly when the tab is gone, which it is in a browser that closes what it is asked to close; in a quiet browser no other tab goes |
| SessionBridge.Bridge.Reconcile | open-webbridge-extension/src/sessions.js:83-121 | which groups are adopted and owned, which tabs the record gains and keeps, and which becomes active, with tabs closing at any await; in a quiet browser exactly what reconciling is defined to leave |
| SessionBridge.Bridge.CollectManagedTabIds | open-webbridge-extension/src/sessions.js:188-222 | collects at least the tabs still managed at the end and at most those managed at the start |
| SessionBridge.Bridge.EnsureDomainTabLimits | open-webbridge-extension/src/sessions.js:170-186 | passing means there is room at the end, refusing that there was none at the start |
| SessionBridge.Bridge.GroupTab | open-webbridge-extension/src/sessions.js:224-239 | the tab joins the session's group or a new one titled with its name, and the group is owned; in a quiet browser it joins none exactly when the group on record is gone |
| SessionBridge.Bridge.SetGroupTitle | open-webbridge-extension/src/sessions.js:241-251 | in a quiet browser the session's group, if there, gets the title and is owned, and nothing else changes; in any, no tab becomes managed |
| SessionBridge.Bridge.BindTab | open-webbridge-extension/src/sessions.js:273-277 | the tab joins the record once and becomes its active one |
| SessionBridge.Bridge.CloseActiveTab | open-webbridge-extension/src/sessions.js:279-287 | true exactly when there was an active tab and it is gone, in an obliging browser exactly when there was one; the last remaining one becomes active; in a quiet browser no other tab goes |
| SessionBridge.Bridge.CloseSession | open-webbridge-extension/src/sessions.js:302-321 | the session and its ownership are forgotten, with no tab and no group of its own left, if and only if its record is empty at the check, as always in an obliging browser; otherwise both are kept; in a quiet browser only tabs of its record and groups go |
| SessionBridge.LastTabVanishes | open-webbridge-extension/src/sessions.js:314-319 | a session whose last tab vanishes during the look-up after that check is kept, without a tab, with its ownership |
| SessionBridge.Bridge.CloseGroup | open-webbridge-extension/src/sessions.js:328-346 | ownership of the group is forgotten only once it is empty, as it is afterwards in an obliging browser; in a quiet browser only its tabs go |
| SessionBridge.Bridge.AcquireTabForNavigation | open-webbridge-extension/src/sessions.js:144-164 | the session's live active tab, or with newTab a fresh tab after the old one is gone; room for the target afterwards, none before when refused, the tab left out being the session's active one if that lives; in a quiet browser a new tab is in the session's group exactly when that group outlived the closing; ownership and the order of the records are kept however groups are named |
| SessionBridge.NewTabRecoverable | open-webbridge-extension/src/sessions.js:144-164 | should the records be lost after a new tab was opened, reconciling finds it again if and only if the session had no group yet or its group held a tab besides the one replaced |
| SessionBridge.SoleTabIsNotRecovered | open-webbridge-extension/src/sessions.js:152-163 | replacing the only tab of a session leaves the new tab in no group, out of reach of later recovery |
| TabTools.Navigate | open-webbridge-extension/src/tools/tabs.js:39-53 | the session's active tab, or with newTab a new one, shows the target and no other tab is new or moved; refused only without room, with the session's own active tab left out if it lives; only a navigation that finds its session without a tab moves another, and it fails; in a quiet browser it succeeds, is refused, or found a tab that would not close, and an obliging browser has no such tab; caps are kept, and ownership and the order of the records however groups are named |
| TabTools.FindTab | open-webbridge-extension/src/tools/tabs.js:80-84 | bound only with room for the host seen; the caps are kept if and only if the tab is by then gone, managed, or on a host whose rule has a place left; ownership and order of the records are kept in any case |
| TabTools.SeenStillFits | open-webbridge-extension/src/tools/tabs.js:80-84 | that is so whenever the tab still has the host seen when the lock is taken, or is in a record or an owned group |
| TabTools.ActivateTab | open-webbridge-extension/src/tools/tabs.js:112-126 | the given or the active tab is bound only with room for its host, and becomes active; caps are kept, and ownership and the order of the records however groups are named |
| TabTools.CloseTab | open-webbridge-extension/src/tools/tabs.js:128-131 | true exactly when there was an active tab and it is gone, in an obliging browser exactly when there was one; in a quiet one no other tab goes; caps are kept, and ownership and the order of the records however groups are named |
| TabTools.CloseSession | open-webbridge-extension/src/tools/tabs.js:164-171 | closing a session or a group: an obliging browser is left without the session, or without a tab in the group; in a quiet one no other tab goes; caps, ownership and the order of the records are kept |
| TabTools.ListTabs | open-webbridge-extension/src/tools/tabs.js:88-92 | the record listed has every live tab of the session's groups, recovered ones included; caps, ownership and the order of the records are kept |
| TabSteps.CapsHoldIffAllFit | open-webbridge-extension/src/tools/tabs.js:39-171 | the tab caps over every run of navigate, find, activate, close, end and list commands of any sessions, with the query and the locked half of a find apart, the user opening and moving tabs of their own, and tabs closing anywhere: if they hold at the start, they hold in every state if and only if every tab bound fits in the state it is bound in |
| TabSteps.MisfitStrayed | open-webbridge-extension/src/tools/tabs.js:63-86 | a tab that does not fit was bound by a find, and that very tab strayed between the query and the binding: the user browsed in it, or a navigation that found its session without a tab took it |
| TabSteps.CapsHoldWithoutStrays | open-webbridge-extension/src/tools/tabs.js:39-171 | so the caps hold over every run without a find, and over every run in which no tab strays |
| TabSteps.StepKeepsCaps | open-webbridge-extension/src/tools/tabs.js:39-171 | one command: the caps hold up to the state it acts in, and after it exactly when it bound no misfit, which only a find can |
| TabSteps.RunIsOrderly | open-webbridge-extension/src/tools/tabs.js:39-171 | over every run the records are in order in every state and no unowned group comes into being, however groups are named |
| TabSteps.StaleFindBreaksCap | open-webbridge-extension/src/tools/tabs.js:63-86 | a run of four commands from a state in order that breaks a cap of one tab: a query, a navigation that loses its only tab during its check, a navigation that fits, and the find |
| TabRuns.Perform | open-webbridge-extension/src/tools/tabs.js:39-171 | carrying out a command on the bridge is a step of that command, from the state before to the state after |
| TabRuns.Run | open-webbridge-extension/src/tools/tabs.js:39-171 | carrying out any sequence of commands on the bridge, tabs closing before, between and during them, is a run of those commands, so the caps hold throughout exactly if all tabs bound fit |

## Left out

- Fixed rules: the limiter's and the caps' theorems are for rules that do not change during a run; what old grants are worth under a new rule is in `NewRuleKeptIff`.
- Time: integers that do not decrease in the order requests take the lock, in units of 1/`SECOND` of a second; the overflow of `time.Duration` for windows beyond 292 years is not modelled.
- Backing arrays: Go slices that share one array are sequences here; the compaction still writes over the list it scans.
- Host names and domains: lower-casing and trimming are ASCII; URL parsing is left out, a request or tab carries its host.
- SlidingWindow.SingleSlotRunBounded: for Max of 2 and more the bound under arbitrary releases is false; `OutOfOrderReleasesBreakBound` gives the run, `RunBoundedIffFits` the exact condition for the bound and `MonotoneIffGuarded` that for the order of grants.
- RateLimiter.Limiter.AwaitSlot: the timer and the context are one Boolean, which of the two ended the wait.
- HubProtocol.EveryInterleavingKeepsInv: deadlines, write failures and lost connections may happen at any time, not after a given time; liveness beyond "can take its next step" is not stated.
- Hub.HubObject.Submit: ids are numbers, not the text `r` and a number; the extension's version string and log lines are left out.
- Connection.Conn.ReadMessage: input is all the peer will ever send, output always succeeds until the connection is closed; the handshake, partial writes and the lock around writes are left out.
- Frames.Reassembly: the reader takes a data frame with any opcode as a fragment and skips opcodes it has no case for, as the code does, although RFC 6455 sections 5.2 and 5.4 would have it fail.
- Snapshot.Outline: names and values are taken as already cut and tidied, and lines are records rather than text.
- Annotations.RunKeepsWellFormed: storage writes succeed; the retry that drops half the images on a full quota, the wire projection, statistics and the long poll are left out. Element details are not part of a record here.
- AnnotationStore.Store.Patch: records are values in a list, so the sharing of record objects with callers is not captured.
- Locators.LookupFindsTheElement: plain HTML documents; shadow roots, SVG namespaces, escaping inside selector text and clipping of recorded strings are left out, and selectors are parsed terms.
- Locators.CssLocates: which ids and class names look generated is a parameter.
- TabSteps.CapsHoldIffAllFit: the caps are about fixed rules, tabs of sessions that change host only through the commands, names no unowned group bears, and one worker lifetime; the order of the records needs none of that but the last.
- SessionBridge.Bridge.Reconcile: records are values in a map rather than shared objects, and reading and writing the stored ownership is one step, so lost updates between two sessions' writes are not modelled. The listing order of groups is the browser's; a group's tabs come in any order.
- SessionBridge.Bridge.CloseSession: the number of closed tabs is not returned.
- TabTools.Navigate: at an await only closings of tabs and removal events interleave, not the unlocked tools of other sessions (close_session, close_tab, list_tabs); those run between the commands of `TabRuns.Run`. The lock makes the tools that place tabs run one at a time. Page loading, debugger attachment and refs are left out.
- TabTools.FindTab: how a tab is picked among those that fit the URL is a parameter.
- What the listing tools report, window focus, the popup, and the tools that drive a page over the debugger protocol are left out.
- Configuration files, hot reload, process control, updating, HTTP routing and token checks are left out.
