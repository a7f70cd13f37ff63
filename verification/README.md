# Verified models of the stateful components

Six parts of the repository hold state, concurrency or real recursion. Each is
modelled here in Dafny with the branches, edge cases and constants of its
source, and its central promises are proved.

| component | modules | what is proved |
|---|---|---|
| ocahub broker | `OcahubNames`, `OcahubStore`, `OcahubHub`, `OcahubInvariants`, `OcahubGuards`, `OcahubForms`, `OcahubRuns`, `OcahubConservation`, `OcahubReplies`, `OcahubDelivery`, `OcahubContent`, `OcahubLedger`, `OcahubDaemon`, `OcahubEnvelope` | no mail waits for an online session, order survives offline periods, mail is conserved, messages arrive as they were sent, messages and replies reach the right sockets, at most one reply per ask, envelopes round-trip |
| vzlink | `VzlinkSupervisor`, `VzlinkProtocol`, `VzlinkTasks`, `VzlinkStops`, `VzlinkAnswers`, `VzlinkForward`, `VzlinkFraming` | an idle stop cuts no registered proxy and begins exactly when nobody has been registered for the idle timeout, which a leaked registration prevents for good, boots are single-flight, the relay is a pair of FIFO channels, reading a line does not depend on chunking |
| wrapty | `WraptyNudge`, `WraptyTranscript`, `WraptyOrder`, `WraptyExpiry`, `WraptyMeaning`, `WraptyWatchdog`, `WraptyWriter` | stop permissions are conserved, one-pass replay meets its specification, exactly what time closes, the watchdog terminates, the pty queue is a FIFO |
| merged-file | `MergedFile` | path semantics of `deep_merge`, exactly when it is associative |
| git-write hook | `GitHook`, `GitVerdicts` | exactly when splitting is a homomorphism, exactly what is stripped off a command, exactly which texts are denied, redirections and nesting and all |
| pyedit | `HelperClosure` | the fixpoint loop computes reachability |

How the models are built:

- State and its transitions are functions on values (`OcahubHub.Next`,
  `VzlinkProtocol.Next`, `WraptyNudge.Apply`, ...). Theorems about runs are
  inductions over sequences of such steps.
- Where the source is an object or a loop, so is the model: a class or a method,
  whose postcondition ties the new state to the transition function. The
  theorems about the function are thereby theorems about the object.
- The outside world is a parameter of each step: whether routing succeeds,
  which order equal timestamps drain in, how much a partial write takes, which
  process is alive, how late a sleep returns.

## Where the code falls short of the intent

The code is modelled as it is. These results show where, and exactly when, an
expected property does not hold.

- A poll that names its session with a blank `cwd` goes online, is refused and
  never drains (daemon.py:302-306).
- A send may carry the id null: `parse` keeps it (protocol.py:299-300) and nothing
  checks it. A TEXT primary key admits any number of NULLs, and `DELETE ... WHERE
  msg_id = NULL` deletes none (store.py:13, 52). Such a row is handed over by every
  drain of its sessions until it is purged
  (`OcahubDelivery.UnnamedIsHandedAgain`).
- What these two break, and all that does: mail waits for an online session
  exactly if a request put it online and left such mail
  (`OcahubInvariants.StepSound`, `OcahubRuns.MailedThroughout`); order breaks
  exactly if a step routes a message past older mail, as the next message after
  such a request does (`OcahubDelivery.LeftMailIsOvertaken`), or a drain passes a row
  that stays (`OcahubRuns.StepOrderedIff`, `OrderedThroughout`); a row is not
  conserved exactly if it is drained without an id, or another is stored under its
  id by `INSERT OR REPLACE` (`OcahubConservation.StepConserves`,
  `ConservedThroughout`).
- A hello for a session the registry does not know leaves the socket mapped to
  nothing if it fails after line 195: with a blank `cwd`, or with a title that has
  no `strip` (daemon.py:195-199). Its next request ends `router_loop` outside the
  handler that is meant to survive anything (daemon.py:414-417, comment at 424).
  `OcahubInvariants.StepLinked`, `UnlinkedCrashes`; over runs,
  `OcahubRuns.LinkedThroughout`.
- A refused request whose sender is gone ends `router_loop` too: the error
  message is sent inside the `except` (daemon.py:421-422), where nothing catches
  what ROUTER_MANDATORY makes it raise. `OcahubGuards.CrashIff`: these two cases
  are all there are.
- An ask sent back along a correlation, with `reply_to` and no `to`, is delivered
  as an ask but never put on the ledger (daemon.py:244-248, 260), so every reply
  to it degrades to a tell. `OcahubReplies.AskOwedIff`, `CorrelatedAskIsNotOwed`.
- A drain deletes its rows before it sends them; if a send raises, the rest is
  gone (`OcahubConservation.DrainsMatch`). The caller cannot tell: an ack that
  cannot be sent after a complete drain gives the same answer
  (`InternalErrorIff`).
- `parse` keeps an explicit null, which `to_dict` then leaves out.
  `OcahubEnvelope.ReparseIsFixed` and `RoundTrip` say for which dictionaries and
  messages encoding and parsing are inverse.
- `deep_merge` is not associative. `MergedFile.AssociativityExact` gives the
  condition, `NotAssociative` an instance.
- A redirect at the end of a command turns the following separator into a file
  name. `GitHook.ArgvsSplitIff`: that joins two commands exactly if one is
  unfinished before it and words follow.
- A start without a timestamp is read as starting now at every look, so it never
  expires. `WraptyExpiry.ExpiresIff`, and `ShrinksIff` for the answer as a whole.
- `open_tasks` says it answers in the order tasks started (transcript.py:111). An
  id started again while open keeps its old place. `WraptyOrder.StartOrderIff`:
  the answer is in the order of starts exactly if no task in it was started again
  after a younger one had; `RestartKeepsItsPlace` is a log where one was.
- The hook strips env's assignments before its options, while env(1) takes its
  options first, and it does not strip an option's value. `GitHook.StripIff` says
  exactly what comes off a command, `UnwrapIff` what one pass takes;
  `UnstrippedPasses`: `env -i A=1 git push` and `sudo -u root git push` are not
  denied.
- A registration is left behind, and from then on the VM is never stopped for
  idleness (`VzlinkStops.LeakKeepsRunning`), in exactly two ways: a REGISTER is
  handled after its proxy gave up (proxy.py:164-168), or a proxy dies or fails to
  reach the supervisor after it was registered and before its UNREGISTER is sent
  (proxy.py:192-199). `VzlinkStops.StepLeakedIff`, `LeakedIff`.

## Model

| member | source | states |
|---|---|---|
| OcahubNames.ParseTargetExact | pkgs/ocahub/src/ocahub/daemon.py:158-167 | A target parses to a name and session iff both are valid and joined by an at sign, to a bare name iff it is a valid name; nothing else parses |
| OcahubNames.AddressInjective | pkgs/ocahub/src/ocahub/protocol.py:89-90 | Different sessions never share an address, even if a name itself holds an at sign |
| OcahubNames.NamesMean | pkgs/ocahub/src/ocahub/protocol.py:58-79 | A name is valid iff it is not empty and holds no at sign and no white space; a cwd is blank iff it holds only white space |
| OcahubNames.LexMeans | pkgs/ocahub/src/ocahub/daemon.py:142-148 | Strings are ordered by the first difference, and a beginning comes before what it begins |
| OcahubNames.CwdMatchMeans | pkgs/ocahub/src/ocahub/protocol.py:82-86 | Directories match iff one occurs in the other, slashes at their ends aside |
| OcahubHub.NotAfterOrder | pkgs/ocahub/src/ocahub/daemon.py:142-148 | Comparing (last seen, key) is a total order, so the latest session is unique |
| OcahubHub.LatestExists | pkgs/ocahub/src/ocahub/daemon.py:142-156 | Whenever some session is live there is a latest one |
| OcahubLedger.LatestMeans | pkgs/ocahub/src/ocahub/daemon.py:142-156 | It is the one seen last of those, and on a tie the last by name and session |
| OcahubLedger.BareNameMeans | pkgs/ocahub/src/ocahub/daemon.py:241-242 | A bare name means its session seen last of those online, or none in particular iff none is |
| OcahubLedger.DirectoryMeans | pkgs/ocahub/src/ocahub/daemon.py:250-256 | A directory means the session seen last of those online in a matching one, and nobody iff there is none |
| OcahubStore.InsertStores | pkgs/ocahub/src/ocahub/store.py:33-41 | A put makes a row with an id the only one under it, and adds one without |
| OcahubStore.WithoutStores | pkgs/ocahub/src/ocahub/store.py:50-54 | Deleting what was selected removes every copy of a matching row with an id, and none of one without |
| OcahubStore.YoungerStores | pkgs/ocahub/src/ocahub/store.py:57-58 | Pruning removes exactly the older rows, every copy of them |
| OcahubStore.InsertSortedHolds | pkgs/ocahub/src/ocahub/store.py:43-49 | Sorting a row in adds it once and loses nothing |
| OcahubStore.InsertSortedKeeps | pkgs/ocahub/src/ocahub/store.py:43-49 | And leaves the rows sorted by timestamp |
| OcahubStore.SelectionIds | pkgs/ocahub/src/ocahub/store.py:50-54 | Deleting by the selected ids removes the matching rows that have one and no others |
| OcahubStore.Mailbox.Put | pkgs/ocahub/src/ocahub/store.py:21-41 | Insert under the message id, replacing what was there; a null id replaces nothing |
| OcahubStore.Mailbox.Select | pkgs/ocahub/src/ocahub/store.py:43-49 | The answer holds every row that passes, as often as it is stored, by timestamp |
| OcahubStore.Mailbox.Take | pkgs/ocahub/src/ocahub/store.py:43-55 | What is answered is a selection, and of it exactly the rows with an id are gone |
| OcahubStore.Mailbox.Prune | pkgs/ocahub/src/ocahub/store.py:57-60 | Exactly the rows older than the cutoff go, and the count is theirs |
| OcahubLedger.SweepMeans | pkgs/ocahub/src/ocahub/daemon.py:448-452 | An uninterrupted sweep takes exactly the sessions offline that were not seen for two minutes, and changes nothing else |
| OcahubLedger.PurgeMeans | pkgs/ocahub/src/ocahub/daemon.py:453 | The purge takes exactly the mail older than a week |
| OcahubDaemon.Hub.Max | pkgs/ocahub/src/ocahub/daemon.py:142-156 | The loop finds the latest of the live sessions, ties broken by key |
| OcahubDaemon.Hub.LatestLive | pkgs/ocahub/src/ocahub/daemon.py:142-148 | The latest online session of a name, or none if none is online |
| OcahubDaemon.Hub.LatestLiveByCwd | pkgs/ocahub/src/ocahub/daemon.py:150-156 | The latest online session whose directory matches |
| OcahubDaemon.Hub.ResolveTarget | pkgs/ocahub/src/ocahub/daemon.py:241-242 | An explicit session stays, a bare name goes to its latest session, or to none in particular if none is online |
| OcahubDaemon.Hub.DeliverToSession | pkgs/ocahub/src/ocahub/daemon.py:121-140 | Routed if the session is online and takes it, else marked offline and queued |
| OcahubDaemon.Hub.DrainMailbox | pkgs/ocahub/src/ocahub/daemon.py:169-184 | The rows leave the store before they are sent, in store order, and are lost from the first send that raises |
| OcahubDaemon.Hub.OnHelloRequest | pkgs/ocahub/src/ocahub/daemon.py:186-213 | State, events and answer of a hello, including the half-done states its errors leave |
| OcahubDaemon.Hub.ReplyTo | pkgs/ocahub/src/ocahub/daemon.py:228-243 | A reply settles its ask, goes to the asker's socket, else to the address given, else is refused |
| OcahubDaemon.Hub.OnSendRequest | pkgs/ocahub/src/ocahub/daemon.py:215-267 | State, events and answer of a send in every branch; an ask is on the ledger within the same step |
| OcahubDaemon.Hub.ResolveSession | pkgs/ocahub/src/ocahub/daemon.py:269-312 | An explicit session is re-bound to the caller and online even if its cwd is then refused |
| OcahubDaemon.Hub.FindSession | pkgs/ocahub/src/ocahub/daemon.py:269-312 | Without rebinding, a reader is refused iff it names an invalid session, or none while it has none |
| OcahubDaemon.Hub.OnPollRequest | pkgs/ocahub/src/ocahub/daemon.py:314-319 | A poll drains the session it resolved to |
| OcahubDaemon.Hub.OnByeRequest | pkgs/ocahub/src/ocahub/daemon.py:361-378 | The named or own session goes offline and its socket is unmapped |
| OcahubDaemon.Hub.HandleRequest | pkgs/ocahub/src/ocahub/daemon.py:380-408 | Every handler's state, events and answer are those of the transition system, whatever becomes of the answer |
| OcahubDaemon.Hub.Turn | pkgs/ocahub/src/ocahub/daemon.py:410-430 | One turn of the router loop, the sending of its answer included, is one step of the transition system the run theorems quantify over, with a legal oracle |
| OcahubDaemon.Hub.SweepSessions | pkgs/ocahub/src/ocahub/daemon.py:448-452 | Uninterrupted, the loop takes exactly the silent sessions offline, and is a run of marks |
| OcahubDaemon.Hub.SweepPending | pkgs/ocahub/src/ocahub/daemon.py:454-456 | Exactly the expired routing entries go |
| OcahubDaemon.Hub.SweepAsks | pkgs/ocahub/src/ocahub/daemon.py:457-459 | Exactly the stale asks go |
| OcahubDaemon.Hub.SweepRest | pkgs/ocahub/src/ocahub/daemon.py:453-459 | What follows the marks is the purge step, and what it prunes is what was too old |
| OcahubInvariants.DeliverSound | pkgs/ocahub/src/ocahub/daemon.py:121-140 | Queuing never strands mail: the target is not online, or is offline once queued |
| OcahubInvariants.SendSound | pkgs/ocahub/src/ocahub/daemon.py:215-267 | Every branch of send, route failures included, leaves no online session with waiting mail |
| OcahubInvariants.HelloSound | pkgs/ocahub/src/ocahub/daemon.py:186-213 | Hello leaves mail for its session exactly if a row without an id waits for it |
| OcahubInvariants.HelloLinked | pkgs/ocahub/src/ocahub/daemon.py:190-206 | Hello leaves a socket mapped to no entry exactly for an unknown session and a blank cwd or bad title |
| OcahubInvariants.PollSound | pkgs/ocahub/src/ocahub/daemon.py:269-319 | Poll leaves mail for its session exactly if its cwd is blank and any waits, or a row without an id does |
| OcahubInvariants.ByeSound | pkgs/ocahub/src/ocahub/daemon.py:361-378 | Bye strands no mail |
| OcahubInvariants.MarkSound | pkgs/ocahub/src/ocahub/daemon.py:450-452 | Marking a session offline strands no mail, however stale the sweep's listing |
| OcahubInvariants.PurgeSound | pkgs/ocahub/src/ocahub/daemon.py:453-459 | Nor does the rest of the sweep |
| OcahubInvariants.StepSound | pkgs/ocahub/src/ocahub/daemon.py:380-459 | Between requests no row matches an online session: every step keeps that except exactly a request that puts its session online and leaves mail of its, all of it by a blank-cwd poll or the rows without an id by any |
| OcahubInvariants.StepLinked | pkgs/ocahub/src/ocahub/daemon.py:186-459 | Every step keeps every mapped socket registered except exactly a hello for an unknown session with a blank cwd or a bad title |
| OcahubGuards.RefusedIff | pkgs/ocahub/src/ocahub/daemon.py:380-408 | A handler raises ProtocolError iff the request fails a check that can be made beforehand |
| OcahubGuards.CrashIff | pkgs/ocahub/src/ocahub/daemon.py:410-430 | The loop ends on a request iff its socket is mapped to no entry, or it is refused and its error message cannot be sent |
| OcahubGuards.NamedAddressee | pkgs/ocahub/src/ocahub/daemon.py:228-258 | A send that names its session is put to it, unless it is a reply that reaches the socket remembered for it |
| OcahubGuards.SendGoesTo | pkgs/ocahub/src/ocahub/daemon.py:215-267 | A send reaches its addressee's session directly iff that is online and routable, and the store otherwise |
| OcahubGuards.GuardsMean | pkgs/ocahub/src/ocahub/daemon.py:121-140 | A step delivers directly, or stores a message, iff the guard on the state before it says so |
| OcahubInvariants.UnlinkedCrashes | pkgs/ocahub/src/ocahub/daemon.py:195-197 | After the blank-cwd hello the same socket's next request ends the loop |
| OcahubRuns.AlwaysMailed | pkgs/ocahub/src/ocahub/daemon.py:410-459 | After every run from a fresh start in which no request leaves mail, no mail waits for an online session |
| OcahubRuns.MailedThroughout | pkgs/ocahub/src/ocahub/daemon.py:410-459 | That condition is exact |
| OcahubRuns.LinkedThroughout | pkgs/ocahub/src/ocahub/daemon.py:186-206 | Over a run every mapped socket is registered throughout iff no hello of it for an unknown session fails halfway |
| OcahubRuns.LoopEndsIff | pkgs/ocahub/src/ocahub/daemon.py:410-430 | After any run without a hello for an unknown session that fails halfway, the loop ends on exactly the refused requests whose sender cannot be reached |
| OcahubRuns.StepOrderedIff | pkgs/ocahub/src/ocahub/daemon.py:121-140 | A step keeps the order iff it does not route a message to an online session past an older row that waits for it, nor hand over a row later than one without an id that stays |
| OcahubRuns.OrderSurvives | pkgs/ocahub/src/ocahub/daemon.py:169-213 | Unless a request leaves mail or a row without an id is stored, everything handed to one session over a run, direct and drained together, has non-decreasing hub timestamps, and what waits is no older than what was handed over |
| OcahubRuns.OrderedThroughout | pkgs/ocahub/src/ocahub/daemon.py:121-140 | For any run at all this holds throughout iff no step overtakes waiting mail |
| OcahubConservation.StepConserves | pkgs/ocahub/src/ocahub/store.py:33-54 | A step neither makes nor loses a row exactly unless it is a send, put to a target it cannot be routed to, under the id of that row while it is stored, or a drain of the row while it has no id |
| OcahubConservation.ConservedThroughout | pkgs/ocahub/src/ocahub/store.py:21-60 | For any run, fresh ids or not, a row is conserved throughout iff no step does that |
| OcahubConservation.MailConserved | pkgs/ocahub/src/ocahub/store.py:21-60 | With fresh ids every row with an id is in one place: stored, or gone once by drain, broken drain or age |
| OcahubConservation.DrainsMatch | pkgs/ocahub/src/ocahub/daemon.py:169-213 | Rows leave only for a session their address matches; some are lost exactly when the router refuses one before the drain is through |
| OcahubConservation.InternalErrorIff | pkgs/ocahub/src/ocahub/daemon.py:423-430 | Of requests whose fields have their declared types, a hello's title aside, exactly a drain that breaks, a hello that raises on its title and an ack that cannot be sent are answered with an internal error |
| OcahubConservation.AckTellsFate | pkgs/ocahub/src/ocahub/daemon.py:215-267 | A sender told queued, delivered or lost is told what happened to its message |
| OcahubConservation.AckCounts | pkgs/ocahub/src/ocahub/daemon.py:314-319 | A drain's ack counts the messages it handed over |
| OcahubConservation.SentOnce | pkgs/ocahub/src/ocahub/daemon.py:121-140 | With fresh ids an id is routed or queued at most once, so a delivered message is never stored |
| OcahubReplies.StepSettles | pkgs/ocahub/src/ocahub/daemon.py:228-236 | A reply event costs the ledger its ask |
| OcahubReplies.RepliesNeedAsks | pkgs/ocahub/src/ocahub/daemon.py:215-267 | From any moment on, replies emitted to an id plus the ask owed never outnumber the asks made since plus the one owed then |
| OcahubReplies.OneReplyPerAsk | pkgs/ocahub/src/ocahub/daemon.py:215-267 | Over every run, replies emitted to an id plus the ask still owed never outnumber the asks made under it |
| OcahubReplies.LateRepliesAreTells | pkgs/ocahub/src/ocahub/daemon.py:228-243 | A reply without a live ask goes out as a tell, one with it goes out as a reply and settles it |
| OcahubReplies.AskOwedIff | pkgs/ocahub/src/ocahub/daemon.py:244-266 | An ask that was sent is owed a reply iff it was addressed, by name or directory, rather than sent back along a correlation |
| OcahubReplies.CorrelatedAskIsNotOwed | pkgs/ocahub/src/ocahub/daemon.py:244-248 | Such an ask arrives as an ask and is on no ledger, and until an ask is made under its id nothing answers it as a reply, however much later |
| OcahubDelivery.StepBinds | pkgs/ocahub/src/ocahub/daemon.py:186-312 | Only a hello or an explicit poll changes whose socket a session is on, and only its own |
| OcahubDelivery.AlwaysBound | pkgs/ocahub/src/ocahub/daemon.py:190-206 | Over every run the registry holds for each session the socket that attached last, and the identity map only what a socket said of itself |
| OcahubDelivery.AlwaysTracked | pkgs/ocahub/src/ocahub/daemon.py:218-263 | Over every run the sockets remembered for replies are the senders of those messages |
| OcahubDelivery.StepReaches | pkgs/ocahub/src/ocahub/daemon.py:121-140 | Direct deliveries go to the socket on record, answers to the one remembered, drains to the caller |
| OcahubDelivery.MailReachesItsSession | pkgs/ocahub/src/ocahub/daemon.py:121-140 | Over every run a direct delivery reaches the socket that attached to the session last, a drain only a socket that has said it is that session |
| OcahubDelivery.AnswersReachTheirSender | pkgs/ocahub/src/ocahub/daemon.py:228-250 | Over every run a routed answer reaches a socket that sent a message under the id it answers |
| OcahubDelivery.AttachesOnline | pkgs/ocahub/src/ocahub/daemon.py:186-312 | An attachment puts its session online on the caller's socket |
| OcahubDelivery.AttachHandsOver | pkgs/ocahub/src/ocahub/daemon.py:269-319 | A drain hands the caller all waiting mail of the session, unless it breaks, and takes what has an id out of the store |
| OcahubDelivery.ByeDetaches | pkgs/ocahub/src/ocahub/daemon.py:361-378 | After an accepted bye the session is offline |
| OcahubDelivery.StoredUntilRemoved | pkgs/ocahub/src/ocahub/store.py:21-60 | A row stays stored through any steps but a drain of its session that can delete it, a put under its id and its purge |
| OcahubDelivery.WaitingMailArrives | pkgs/ocahub/src/ocahub/daemon.py:186-319 | So it is handed to whoever drains a session of its address, however much later, unless that drain breaks |
| OcahubDelivery.UnnamedIsHandedAgain | pkgs/ocahub/src/ocahub/store.py:50-54 | A row without an id is handed over by every such drain, and stays, until it is purged |
| OcahubDelivery.OfflineIsStored | pkgs/ocahub/src/ocahub/daemon.py:121-140 | A message of any kind put to a target is stored for it iff that is not online or cannot be reached, and its sender is then told so |
| OcahubDelivery.StrandedIsLeft | pkgs/ocahub/src/ocahub/daemon.py:269-319 | A request that leaves mail leaves a stored row of the session it put online |
| OcahubDelivery.LeftMailIsOvertaken | pkgs/ocahub/src/ocahub/daemon.py:121-140 | As long as such a row is stored, every younger message routed to its session, however much later, breaks the order |
| OcahubContent.HexMeans | pkgs/ocahub/src/ocahub/daemon.py:99-101 | A socket the hub does not know is called by two hexadecimal digits for each byte of its identity |
| OcahubContent.StepCarries | pkgs/ocahub/src/ocahub/daemon.py:215-227 | Whatever a step routes or stores has the id, payload, topic and reply_to its request gave, the hub's time, the caller's address or hex identity as sender, and the kind given, but tell for a reply to no live ask |
| OcahubContent.RowOrigin | pkgs/ocahub/src/ocahub/store.py:21-41 | A stored row was there at the start or some step of the run queued it |
| OcahubContent.DrainedCarries | pkgs/ocahub/src/ocahub/daemon.py:169-184 | A row a drain hands over carries exactly what the send that stored it gave |
| OcahubLedger.SendLeft | pkgs/ocahub/src/ocahub/daemon.py:215-266 | What a send leaves of registry, identity map, routing entries and ledger, in terms of whom it was put to |
| OcahubLedger.StepEntry | pkgs/ocahub/src/ocahub/daemon.py:111-312 | Every session's entry after every step: known iff it was or attaches, online iff it attaches or was and did not say bye, was not marked and not missed by the router, on the attaching socket, seen at its socket's every request, in the directory last given |
| OcahubLedger.StepMapped | pkgs/ocahub/src/ocahub/daemon.py:186-378 | The session a socket is mapped to after every step: the one it named, else the one it had, unless another socket's hello took it over or a bye ended it |
| OcahubLedger.UnmappedIsNobody | pkgs/ocahub/src/ocahub/daemon.py:310-312 | A socket so unmapped is refused its next nameless poll |
| OcahubLedger.StepRemembered | pkgs/ocahub/src/ocahub/daemon.py:218 | A sender is remembered under its message's id, for ten minutes |
| OcahubLedger.StepLedger | pkgs/ocahub/src/ocahub/daemon.py:228-266 | An ask is on the ledger, with its target, asker and time, from when it is put to a target until a reply to it or half an hour |
| OcahubEnvelope.GivenBack | pkgs/ocahub/src/ocahub/protocol.py:109-116 | Every field, the renamed sender included, is found again in the dictionary unless it is null |
| OcahubEnvelope.ParseAcceptsIff | pkgs/ocahub/src/ocahub/protocol.py:268-296 | A dictionary is accepted iff its type is known, its version is this or none, every key is a field of the class and no required field is missing |
| OcahubEnvelope.ParsedAs | pkgs/ocahub/src/ocahub/protocol.py:276-303 | Each field is what the dictionary gives under its name, for the sender under the later of its two, else the default; id and ts are as given |
| OcahubEnvelope.NoKindIsTell | pkgs/ocahub/src/ocahub/protocol.py:154-160 | A send or delivery that gives no kind is a tell |
| OcahubEnvelope.RoundTrip | pkgs/ocahub/src/ocahub/protocol.py:109-116 | Parsing what any of the twelve classes encodes gives it back, id and ts included, iff it is of this version and null only where null is the default |
| OcahubEnvelope.ReparseIsFixed | pkgs/ocahub/src/ocahub/protocol.py:268-303 | A parsed dictionary re-encodes and parses to the same message iff it holds no null that parsing keeps and encoding drops |
| OcahubEnvelope.NullKindIsNotFixed | pkgs/ocahub/src/ocahub/protocol.py:268-303 | A send with a null kind is such a dictionary |
| OcahubEnvelope.Collect | pkgs/ocahub/src/ocahub/protocol.py:276-287 | The loop accepts iff every key is known, and keeps for each field the value given last |
| OcahubEnvelope.BuildMsg | pkgs/ocahub/src/ocahub/protocol.py:276-303 | Unknown and missing fields are refused, defaults filled in, id and ts kept |
| OcahubEnvelope.ParseMeta | pkgs/ocahub/src/ocahub/protocol.py:268-303 | The imperative parse is the function the round trips are about |
| VzlinkSupervisor.Supervisor.HandleRequest | pkgs/vzlink/src/vzlink/supervisor.py:180-200 | A request up to its first await: refusal while stopping, registration, or queuing for the boot lock |
| VzlinkSupervisor.Supervisor.TakeBootLock | pkgs/vzlink/src/vzlink/supervisor.py:206-208 | Under the lock the remembered answer is given, else a boot begins |
| VzlinkSupervisor.Supervisor.BootAnswered | pkgs/vzlink/src/vzlink/supervisor.py:209-212 | Success is remembered, failure is not, the lock is free |
| VzlinkSupervisor.Supervisor.StopVm | pkgs/vzlink/src/vzlink/supervisor.py:270-275 | From here on the supervisor is stopping for this reason |
| VzlinkSupervisor.Supervisor.WakeUp | pkgs/vzlink/src/vzlink/supervisor.py:310-344 | The idle tick up to the probe's await or its end |
| VzlinkSupervisor.Supervisor.ProbeAnswered | pkgs/vzlink/src/vzlink/supervisor.py:322-344 | The rest of the tick, which does not look at stopping again |
| VzlinkTasks.Tasks.Proxy | pkgs/vzlink/src/vzlink/proxy.py:138-199 | A proxy's step, with its answer checked at the stage it is at, is a step of the protocol |
| VzlinkTasks.Tasks.Serve | pkgs/vzlink/src/vzlink/supervisor.py:180-212 | So is a request handler's between two awaits, on the supervisor object |
| VzlinkTasks.Tasks.Watch | pkgs/vzlink/src/vzlink/supervisor.py:292-362 | And a step of the idle loop or the signal watcher, the cancelling return included |
| VzlinkTasks.Tasks.Take | pkgs/vzlink/src/vzlink/supervisor.py:180-362 | Every step the protocol allows is carried out by the object, so the protocol's theorems are about it |
| VzlinkProtocol.InvKept | pkgs/vzlink/src/vzlink/supervisor.py:180-212 | Every step of every task keeps: live proxies are registered, one boot holds the lock, only success is remembered, an idle stop has no live proxy |
| VzlinkProtocol.AlwaysInv | pkgs/vzlink/src/vzlink/proxy.py:138-199 | So it holds at every moment of every interleaving of any number of proxies |
| VzlinkProtocol.BeginsQuietly | pkgs/vzlink/src/vzlink/supervisor.py:336-343 | The step that begins an idle stop finds no connection and no boot in flight |
| VzlinkProtocol.IdleStopCutsNobody | pkgs/vzlink/src/vzlink/supervisor.py:336-343 | From an idle stop on, no proxy is ever between its accepted REGISTER and its UNREGISTER |
| VzlinkProtocol.StoppingIsFinal | pkgs/vzlink/src/vzlink/supervisor.py:185-189 | Stopping never reverts and no connection is added after it |
| VzlinkProtocol.OneBootAtATime | pkgs/vzlink/src/vzlink/supervisor.py:202-212 | Two boots never overlap, and none runs once one has succeeded |
| VzlinkProtocol.SuccessIsRemembered | pkgs/vzlink/src/vzlink/supervisor.py:206-212 | After a success nothing boots again and every later ask gets that answer |
| VzlinkProtocol.FailureIsForgotten | pkgs/vzlink/src/vzlink/supervisor.py:209-212 | After a failure nothing is remembered and the lock is free |
| VzlinkProtocol.AskerBootsIff | pkgs/vzlink/src/vzlink/supervisor.py:206-212 | Whoever gets the lock, whenever, boots iff no boot has succeeded so far |
| VzlinkAnswers.HandledAs | pkgs/vzlink/src/vzlink/supervisor.py:180-200 | ENSURE_UP and REGISTER are refused, and change nothing, iff the supervisor is stopping; else the one waits for the boot lock and the other makes a connection; UNREGISTER unmakes it; an unknown op is an error |
| VzlinkAnswers.PendingSinceBefore | pkgs/vzlink/src/vzlink/supervisor.py:185-189 | No request handled after stopping began ever waits for a boot or boots |
| VzlinkAnswers.BootEndsAs | pkgs/vzlink/src/vzlink/supervisor.py:209-212 | A boot's asker is told how it went |
| VzlinkAnswers.ReceivedAs | pkgs/vzlink/src/vzlink/proxy.py:154-176 | An answer moves its proxy on iff it is ok, and back to the start iff it says stopping and there is time left |
| VzlinkAnswers.ConnectsToBooted | pkgs/vzlink/src/vzlink/proxy.py:154-169 | No proxy connects, registers or forwards before a boot has succeeded |
| VzlinkAnswers.StepReason | pkgs/vzlink/src/vzlink/supervisor.py:306-362 | Stopping begins, and its reason is recorded, at exactly an idle stop, a hang stop or a signal, and a VM that died by itself is recorded as such |
| VzlinkAnswers.StepExits | pkgs/vzlink/src/vzlink/supervisor.py:292-297 | The supervisor ends at exactly the step that finds the VM dead or completes a stop |
| VzlinkStops.ConnsExact | pkgs/vzlink/src/vzlink/supervisor.py:192-199 | At every moment the connections are exactly the ids whose REGISTER was accepted and not followed by an UNREGISTER |
| VzlinkStops.StepClocks | pkgs/vzlink/src/vzlink/supervisor.py:306-339 | What one step does to the idle and the silence clock |
| VzlinkStops.ClocksMean | pkgs/vzlink/src/vzlink/supervisor.py:306-339 | The idle clock is the poll interval times the looks since the last that found somebody |
| VzlinkStops.SilenceMeans | pkgs/vzlink/src/vzlink/supervisor.py:322-327 | The silence clock is the time of the first failed probe since one was answered |
| VzlinkStops.IdleStopIff | pkgs/vzlink/src/vzlink/supervisor.py:336-344 | An idle stop begins iff a look finds nobody and, with the looks since the last that found somebody, covers the idle timeout |
| VzlinkStops.HangStopIff | pkgs/vzlink/src/vzlink/supervisor.py:321-335 | A hang stop begins iff a probe fails and the silence has lasted the hang timeout, and only if the test is on |
| VzlinkStops.AlwaysAccounted | pkgs/vzlink/src/vzlink/proxy.py:138-199 | At every moment a registered id has a live proxy or a closed one |
| VzlinkStops.StepLeakedIff | pkgs/vzlink/src/vzlink/proxy.py:164-199 | A step leaves an id registered with nobody to unregister it iff a REGISTER is handled after its proxy closed, or a registered proxy closes before it has sent its UNREGISTER |
| VzlinkStops.LeakedIff | pkgs/vzlink/src/vzlink/proxy.py:164-199 | At any moment an id is so left iff one of these has happened to it |
| VzlinkStops.LeakKeepsRunning | pkgs/vzlink/src/vzlink/supervisor.py:336-338 | From then on the id stays and no idle stop ever begins |
| VzlinkForward.StepFaithful | pkgs/vzlink/src/vzlink/forward.py:64-81 | A copy step only appends the next bytes of its source; EOF goes out after all of them |
| VzlinkForward.RunGood | pkgs/vzlink/src/vzlink/forward.py:93-119 | Both directions stay faithful under every interleaving, and a direction is cancelled only after the other failed |
| VzlinkForward.PairOfChannels | pkgs/vzlink/src/vzlink/forward.py:93-119 | At every moment each side got a prefix of what was read from the other, EOF only after everything, and no counter runs ahead |
| VzlinkForward.EofEnding | pkgs/vzlink/src/vzlink/forward.py:107-119 | An EOF ending means both streams arrived whole and both counters equal the bytes moved; an error ending means a task raised |
| VzlinkForward.EofPassedOn | pkgs/vzlink/src/vzlink/forward.py:77-81 | A copy task returns exactly when it has tried to pass its EOF on, and it is passed on iff that went well |
| VzlinkForward.HalfClose | pkgs/vzlink/src/vzlink/forward.py:109-111 | After one side's EOF the other direction, while its streams do not raise, is ended by nothing outside it, finishes within a bounded number of steps, and is stuck only with its whole source sent and counted |
| VzlinkForward.CopyTask.Resume | pkgs/vzlink/src/vzlink/forward.py:73-81 | What the task does after each await is the step of the relay, and the other counter is untouched |
| VzlinkForward.CopyTask.Copy | pkgs/vzlink/src/vzlink/forward.py:73-81 | Undisturbed, the loop moves the whole source for any chunk sizes and counts every byte |
| VzlinkFraming.FirstNewlineUnique | pkgs/vzlink/src/vzlink/protocol.py:99-101 | The position before which no newline stands and at which one does is the one the split uses |
| VzlinkFraming.OutcomesMean | pkgs/vzlink/src/vzlink/protocol.py:66-103 | A stream is a message iff its first line fits and decodes to it, a closed peer iff it is empty, and an error otherwise |
| VzlinkFraming.MeaningDecided | pkgs/vzlink/src/vzlink/protocol.py:98-103 | Once a prefix holds a newline, or is too long without one, no further byte changes the outcome |
| VzlinkFraming.ReadMessage | pkgs/vzlink/src/vzlink/protocol.py:85-103 | For every split of a stream into non-empty chunks the outcome is the one meaning of the stream, so the length limit never fires early |
| VzlinkFraming.EncodedReadsBack | pkgs/vzlink/src/vzlink/protocol.py:61-77 | An encoded message reads back as itself whatever follows, iff it fits; else it is refused |
| WraptyNudge.RecordMatchesCalls | pkgs/wrapty/src/wrapty/wrapper.py:533-554 | After any RPCs the record holds exactly what the calls since the last stop say, and a pending compaction or resume implies that stopping is allowed |
| WraptyNudge.StopMeansCalls | pkgs/wrapty/src/wrapty/wrapper.py:255-287 | A stop is decided by the calls since the one before it and leaves no permission for a later one |
| WraptyNudge.RefusalsMean | pkgs/wrapty/src/wrapty/wrapper.py:581-590 | A hand-over is refused iff its reason is blank, a compaction iff under a quarter of the context is used, nothing else is, and a refusal changes nothing |
| WraptyNudge.GrantedMeansCall | pkgs/wrapty/src/wrapty/wrapper.py:618-621 | Stopping is permitted iff a compaction, hand-over or resume was accepted since the last stop |
| WraptyNudge.CountIsStreak | pkgs/wrapty/src/wrapty/wrapper.py:283-287 | The counter is the number of stops pushed back in a row |
| WraptyNudge.PermissionsConserved | pkgs/wrapty/src/wrapty/wrapper.py:699-734 | Permitted stops plus the permission held never outnumber the accepted calls |
| WraptyNudge.MonitorsExact | pkgs/wrapty/src/wrapty/wrapper.py:737-766 | A monitor is on record iff some call registered it and nothing since registered it anew, called it done, or looked and found it dead |
| WraptyNudge.CooldownIsLatest | pkgs/wrapty/src/wrapty/wrapper.py:769-779 | A cooldown is on record iff its name has fired, and holds the time of its last firing |
| WraptyNudge.CooldownSpacing | pkgs/wrapty/src/wrapty/wrapper.py:769-779 | A check fires iff every earlier firing of its name is at least the call's seconds old |
| WraptyNudge.Session.CallUser | pkgs/wrapty/src/wrapty/wrapper.py:581-621 | A blank reason is refused and changes nothing; another permits a stop without resume |
| WraptyNudge.Session.ScheduleCompact | pkgs/wrapty/src/wrapty/wrapper.py:817-832 | Refused below the minimum usage, else scheduled and permitted |
| WraptyNudge.Session.ReapMonitors | pkgs/wrapty/src/wrapty/wrapper.py:235-252 | Exactly the monitors whose process is gone or whose time is up are dropped |
| WraptyNudge.Session.Stop | pkgs/wrapty/src/wrapty/wrapper.py:255-287 | The stop decision and what it consumes |
| WraptyNudge.Session.Cooldown | pkgs/wrapty/src/wrapty/wrapper.py:769-779 | Only a firing is recorded |
| WraptyNudge.Session.Serve | pkgs/wrapty/src/wrapty/wrapper.py:533-779 | Whichever call arrives, the record in place and the reply are those of the transition the history lemmas are about |
| WraptyNudge.Session.ServeAll | pkgs/wrapty/src/wrapty/wrapper.py:533-779 | So after any calls in any order the record is the one those lemmas describe |
| WraptyTranscript.LastStartMeans | pkgs/wrapty/src/wrapty/transcript.py:166-189 | Scanning back finds a task iff it is a start with no later start or end of its id |
| WraptyTranscript.UnbornIffClosed | pkgs/wrapty/src/wrapty/transcript.py:166-189 | An id has a birth iff it is open |
| WraptyTranscript.BornAtMeans | pkgs/wrapty/src/wrapty/transcript.py:174-182 | The birth of an id is its first start since its last end |
| WraptyTranscript.ReplayExact | pkgs/wrapty/src/wrapty/transcript.py:122-189 | The pass keeps exactly the latest starts without a later end, once each, ordered by first start since the last end |
| WraptyTranscript.OpenTasksExact | pkgs/wrapty/src/wrapty/transcript.py:108-191 | A task is answered iff it is open in the log and its deadline is past now |
| WraptyMeaning.OpenTasksMean | pkgs/wrapty/src/wrapty/transcript.py:100-191 | On the fields of the entries: a task is answered iff an entry's result started its id as a command, monitor or async agent, no notification in that entry and nothing since has started it again, stopped it or noted it completed, failed or killed, and its deadline, from its start or now, the timeout its call or result gives or an hour, and a minute, is past now |
| WraptyMeaning.StopsMean | pkgs/wrapty/src/wrapty/transcript.py:145-149 | A TaskStop call ends the task and the shell it names |
| WraptyMeaning.LatestUseMeans | pkgs/wrapty/src/wrapty/transcript.py:137-144 | The call known under an id is the latest tool_use of it |
| WraptyMeaning.OriginMeans | pkgs/wrapty/src/wrapty/transcript.py:167-171 | A result belongs to the call that its first block to name a known one names |
| WraptyMeaning.StartTaskMeans | pkgs/wrapty/src/wrapty/transcript.py:151-182 | A started task's kind, description and deadline |
| WraptyTranscript.OpenTasksOrdered | pkgs/wrapty/src/wrapty/transcript.py:108-191 | The answer holds each id once, in the order of first starts since the last end |
| WraptyOrder.StartOrderIff | pkgs/wrapty/src/wrapty/transcript.py:108-191 | That is the order of the starts in force iff no answered task was started again, while open, after a younger one had |
| WraptyOrder.RestartKeepsItsPlace | pkgs/wrapty/src/wrapty/transcript.py:174-182 | A log that opens a, b and a again is answered a first |
| WraptyExpiry.OpenedAtMeans | pkgs/wrapty/src/wrapty/transcript.py:122-189 | An id is open in the log iff some entry started it and no entry since mentions it, and then it is the task that entry started |
| WraptyExpiry.ExpiresIff | pkgs/wrapty/src/wrapty/transcript.py:135-191 | An open id is answered no more from some time on iff its latest start has a timestamp |
| WraptyExpiry.ShrinksIff | pkgs/wrapty/src/wrapty/transcript.py:135-191 | A later answer is always the earlier one less what expired since, in the same order, iff every open id has a timestamp on its latest start |
| WraptyExpiry.UntimestampedNeverExpires | pkgs/wrapty/src/wrapty/transcript.py:135-182 | An id whose latest start has no timestamp is answered at any time, whatever else follows in the log, until an entry ends it |
| WraptyTranscript.EndTwice | pkgs/wrapty/src/wrapty/transcript.py:184-189 | Seeing the same close again changes nothing |
| WraptyTranscript.EndIfGiven | pkgs/wrapty/src/wrapty/transcript.py:148-149 | A missing id ends nothing |
| WraptyTranscript.ScanBlock | pkgs/wrapty/src/wrapty/transcript.py:138-149 | One block updates the latest use of its id and ends what a TaskStop names |
| WraptyTranscript.ScanBlocks | pkgs/wrapty/src/wrapty/transcript.py:137-149 | The dictionary holds the latest use of each id and every TaskStop has ended its tasks |
| WraptyTranscript.FindOrigin | pkgs/wrapty/src/wrapty/transcript.py:167-171 | The first block that refers to a known use names the call |
| WraptyTranscript.ReadOpenTasks | pkgs/wrapty/src/wrapty/transcript.py:108-191 | The loop over the log computes the open tasks the lemmas are about |
| WraptyWatchdog.PokesBounded | pkgs/wrapty/src/wrapty/wrapper.py:296-314 | Pokes are at most the limit times the ticks with progress plus one; the interval is the backoff of the pokes since |
| WraptyWatchdog.TypedExact | pkgs/wrapty/src/wrapty/wrapper.py:308-314 | A poke is typed at exactly the ticks that saw work outstanding, unchanged, and a transcript that did not move |
| WraptyWatchdog.PokesCounted | pkgs/wrapty/src/wrapty/wrapper.py:310-314 | The pokes counted while the watch is on are those since the work last changed |
| WraptyWatchdog.IntervalsMean | pkgs/wrapty/src/wrapty/wrapper.py:308-314 | The watch looks after five minutes, after a first poke after ten, after a second after twenty, and a third is the last |
| WraptyWatchdog.PokesTheSilent | pkgs/wrapty/src/wrapty/wrapper.py:649-663 | So it pokes at exactly the looks that find the same tasks open and the transcript as it was |
| WraptyWatchdog.OverMeans | pkgs/wrapty/src/wrapty/wrapper.py:308-309 | The watch has ended itself iff some tick saw nothing outstanding |
| WraptyWatchdog.OpenBeforeDeadline | pkgs/wrapty/src/wrapty/transcript.py:191 | Without new starts, tasks are outstanding only before the last deadline |
| WraptyWatchdog.TicksBeforeHorizon | pkgs/wrapty/src/wrapty/wrapper.py:649-663 | Without new starts every tick but the last comes before the last deadline, which bounds their number |
| WraptyWatchdog.TickOnce | pkgs/wrapty/src/wrapty/wrapper.py:650-658 | One sleep and look yields the tick that compares this look with the one before |
| WraptyWatchdog.WatchIdle | pkgs/wrapty/src/wrapty/wrapper.py:640-663 | It terminates, at ticks that are what its looks saw, at the times the backoff says, poking as often as they found the session silent, and stops only when nothing is outstanding or the limit is reached |
| WraptyWriter.FlushKeeps | pkgs/wrapty/src/wrapty/wrapper.py:453-464 | A flush moves bytes from the buffer to the descriptor and loses none unless the error is fatal |
| WraptyWriter.FlushTakes | pkgs/wrapty/src/wrapty/wrapper.py:453-464 | The descriptor takes the first bytes of the buffer, as many as it has room for |
| WraptyWriter.WriteKeeps | pkgs/wrapty/src/wrapty/wrapper.py:466-471 | A write appends its data, whatever the descriptor takes |
| WraptyWriter.RefinesFifo | pkgs/wrapty/src/wrapty/wrapper.py:450-471 | Bytes accepted followed by the buffer are all bytes written since the last fatal error; the callback is registered iff the buffer is not empty |
| WraptyWriter.MasterWriter.FlushBuffer | pkgs/wrapty/src/wrapty/wrapper.py:453-464 | The flush of the queue the lemmas are about |
| WraptyWriter.MasterWriter.WriteBytes | pkgs/wrapty/src/wrapty/wrapper.py:466-471 | Its write |
| WraptyWriter.MasterWriter.TypeAndSubmit | pkgs/wrapty/src/wrapty/wrapper.py:521-531 | Without a fatal error the text joins the queue whole, in order, then Enter, for any chunk size |
| MergedFile.PathSemantics | pkgs/merged-file/src/mergedfile/merger.py:65-72 | At every path the overlay's value wins, mappings merge, and the base survives where the overlay names nothing and no leaf of it stands above |
| MergedFile.LeafAboveMeans | pkgs/merged-file/src/mergedfile/merger.py:68-71 | A leaf stands above a path iff a proper prefix of it is a leaf |
| MergedFile.BaseLeafSurvives | pkgs/merged-file/src/mergedfile/merger.py:65-72 | A base leaf is in the result iff the overlay says the same there, or names neither it nor a leaf above it |
| MergedFile.MergeIsOverlay | pkgs/merged-file/src/mergedfile/merger.py:65-72 | The result is the overlay iff the overlay covers every path of the base |
| MergedFile.MergeIsBase | pkgs/merged-file/src/mergedfile/merger.py:94-96 | The file is up to date iff it already contains the settings |
| MergedFile.MergedContains | pkgs/merged-file/src/mergedfile/merger.py:65-72 | The result contains the overlay |
| MergedFile.MergeIdempotent | pkgs/merged-file/src/mergedfile/merger.py:65-72 | A value merged with itself is itself, and merging twice is merging once |
| MergedFile.SplitMeans | pkgs/merged-file/src/mergedfile/merger.py:68-71 | Three values are split iff at some path a leaf of the middle one stands between two mappings of which the last does not cover the first |
| MergedFile.AssociativeIff | pkgs/merged-file/src/mergedfile/merger.py:65-72 | Grouping three merges either way is the same iff they are not split |
| MergedFile.AssociativityExact | pkgs/merged-file/src/mergedfile/merger.py:65-72 | The same in terms of paths |
| MergedFile.NotAssociative | pkgs/merged-file/src/mergedfile/merger.py:65-72 | A concrete split |
| MergedFile.DeepMerge | pkgs/merged-file/src/mergedfile/merger.py:65-72 | The loop over the overlay, recursive on mappings, computes the merge of the lemmas |
| MergedFile.File.MergeFile | pkgs/merged-file/src/mergedfile/merger.py:81-109 | Each of the outcomes exactly when it is due; the text changes only to the serialized merge, and not at all on an error |
| MergedFile.File.MergeTwice | pkgs/merged-file/src/mergedfile/merger.py:81-109 | With a format that reads back what it writes, a second run finds nothing to do |
| GitHook.ArgvsSplit | home/claude/skills/jj-worktrees/scripts/pretooluse-block-git-write.py:158-176 | Splitting at a separator is splitting both sides, unless a redirect target is owed |
| GitHook.OwedSeparatorIsAName | home/claude/skills/jj-worktrees/scripts/pretooluse-block-git-write.py:161-167 | If a target is owed, the separator is a file name and the words that follow join the unfinished command |
| GitHook.ArgvsSplitIff | home/claude/skills/jj-worktrees/scripts/pretooluse-block-git-write.py:158-176 | Splitting is a homomorphism iff no target is owed, or no command is unfinished before the separator, or no word follows it |
| GitHook.ArgvsOfWords | home/claude/skills/jj-worktrees/scripts/pretooluse-block-git-write.py:161-175 | Plain words are one command, and a redirect with its target drops out of it |
| GitHook.SplitCommands | home/claude/skills/jj-worktrees/scripts/pretooluse-block-git-write.py:158-176 | The loop computes the splitting of the lemmas |
| GitHook.UnwrapIff | home/claude/skills/jj-worktrees/scripts/pretooluse-block-git-write.py:188-201 | One pass takes a wrapper off whole, and nothing more, iff between its word and the command stands nothing for a keyword, assignments then options for env, options then one word for timeout, options for the others |
| GitHook.StripUndoesWrapping | home/claude/skills/jj-worktrees/scripts/pretooluse-block-git-write.py:179-202 | Stripping undoes any nesting of wrappers of that form |
| GitHook.StripIff | home/claude/skills/jj-worktrees/scripts/pretooluse-block-git-write.py:179-202 | What stands before a command that is no wrapper comes off, down to the command, iff it is nothing but wrappers with what each takes off |
| GitHook.WrappersPeel | home/claude/skills/jj-worktrees/scripts/pretooluse-block-git-write.py:179-202 | Any nesting of wrappers of the form above is such |
| GitHook.StripRunners | home/claude/skills/jj-worktrees/scripts/pretooluse-block-git-write.py:179-202 | The nested loops compute the stripping of the lemmas |
| GitHook.SubcommandFound | home/claude/skills/jj-worktrees/scripts/pretooluse-block-git-write.py:205-216 | Any global options, with values of any looks, do not hide the subcommand |
| GitHook.FindSubcommand | home/claude/skills/jj-worktrees/scripts/pretooluse-block-git-write.py:205-216 | The index loop computes the subcommand of the lemmas |
| GitHook.LaterNeverUndenies | home/claude/skills/jj-worktrees/scripts/pretooluse-block-git-write.py:262-288 | The verdict on two halves is the first half's if that is denied, else the second's |
| GitHook.WrappedWriteJudged | home/claude/skills/jj-worktrees/scripts/pretooluse-block-git-write.py:262-286 | A git write behind anything that comes off, with any global options, is named as the offender |
| GitVerdicts.PositionalMeans | home/claude/skills/jj-worktrees/scripts/pretooluse-block-git-write.py:205-216 | The subcommand is what follows the options and their values, if anything does |
| GitVerdicts.ReadsConfigIff | home/claude/skills/jj-worktrees/scripts/pretooluse-block-git-write.py:219-233 | A config reads iff no write flag is anywhere, its subcommand is no write, and it is a read or a read flag is there |
| GitVerdicts.HarmlessIff | home/claude/skills/jj-worktrees/scripts/pretooluse-block-git-write.py:280-286 | git is let pass iff it has no subcommand, a read-only one, or a config that reads |
| GitVerdicts.GitPassesIff | home/claude/skills/jj-worktrees/scripts/pretooluse-block-git-write.py:262-286 | Behind anything that comes off, too |
| GitVerdicts.DeniedIff | home/claude/skills/jj-worktrees/scripts/pretooluse-block-git-write.py:236-288 | A text is denied iff, within the depth bound, a backtick body is, or some command of it strips to a git that is not harmless or to a shell one of whose -c texts is denied |
| GitVerdicts.BasenameMeans | home/claude/skills/jj-worktrees/scripts/pretooluse-block-git-write.py:188 | A command word is what follows the last slash |
| GitHook.UnstrippedPasses | home/claude/skills/jj-worktrees/scripts/pretooluse-block-git-write.py:195-201 | In others it may pass: an option before env's assignments, or an option's value |
| GitHook.ArgvsAfter | home/claude/skills/jj-worktrees/scripts/pretooluse-block-git-write.py:158-176 | What stands at a command position is split as if it stood alone |
| GitHook.CommandFound | home/claude/skills/jj-worktrees/scripts/pretooluse-block-git-write.py:262-288 | The verdict on a text is that of what precedes a command, else that on the command's words without its redirections, else that of what follows |
| GitHook.GitWriteIsDenied | home/claude/skills/jj-worktrees/scripts/pretooluse-block-git-write.py:236-288 | Any text with a git write at a command position, behind anything that comes off and with any redirections, is denied, whatever precedes or follows it |
| GitHook.ShellTextsMeans | home/claude/skills/jj-worktrees/scripts/pretooluse-block-git-write.py:268-271 | The nested texts are exactly the words right after a -c |
| GitHook.ShellJudged | home/claude/skills/jj-worktrees/scripts/pretooluse-block-git-write.py:268-274 | A shell behind anything that comes off is denied iff one of those texts is, one level deeper |
| GitHook.DeniedIn | home/claude/skills/jj-worktrees/scripts/pretooluse-block-git-write.py:236-288 | The recursive check computes the verdict of the lemmas, within its depth bound |
| GitHook.JudgeCommand | home/claude/skills/jj-worktrees/scripts/pretooluse-block-git-write.py:264-286 | So does its judgement of one command |
| GitHook.JudgeShell | home/claude/skills/jj-worktrees/scripts/pretooluse-block-git-write.py:268-274 | And its loop over the words of a shell |
| GitHook.JudgeGit | home/claude/skills/jj-worktrees/scripts/pretooluse-block-git-write.py:280-286 | And its verdict on git, which HarmlessIff says exactly |
| HelperClosure.LinkReachable | examples/pyedit/extract-commands.py:107-118 | What mentions, or is mentioned by, a helper linked to a seed is linked to a seed |
| HelperClosure.ReachableIsLeast | examples/pyedit/extract-commands.py:100-118 | Every set closed under both rules that holds the seeds holds everything linked to one |
| HelperClosure.ClosedMeans | examples/pyedit/extract-commands.py:104-118 | A set is closed iff it has every helper that mentions one of its and every helper one of its mentions |
| HelperClosure.Pass | examples/pyedit/extract-commands.py:104-118 | A pass adds only linked helpers, and adds nothing only if the set is closed |
| HelperClosure.ClosedIsReachable | examples/pyedit/extract-commands.py:100-118 | A closed set of linked helpers is all of them, and the least closed set |
| HelperClosure.CommonHelpers | examples/pyedit/extract-commands.py:100-118 | The loop ends with exactly the helpers linked to a seed, however indirectly |
| HelperClosure.SharedHelpers | examples/pyedit/extract-commands.py:100-118 | From the users of each helper: the seeds are those two commands use |

## Left out

ocahub:

- Two clock readings within one request are one reading; the clock is assumed not to go back between requests.
- Each handler is one step. The sweeper may run between two requests after any of its marks, and marks may be stale; that it may also run where a handler awaits is not modelled.
- who, ping and broadcast change no modelled state and are one read-only request, and the answers to who and asks are not modelled; capabilities, titles, acks and published events are not modelled.
- zmq and SQLite: a routing attempt succeeds or fails by an oracle, the table is a map by primary key.
- A name, address or cwd that is no string is refused like an invalid one. Of the other wire fields of a wrong JSON type only a hello's title and a null id are modelled.
- OcahubConservation.InternalErrorIff: leaves out handlers that raise on a field of another type - caps that is no list, an id or reply_to that cannot be hashed, a directory that is no string - which answers an internal error too. So does a topic or reply_to that SQLite cannot store, and that message is lost.
- OcahubConservation.MailConserved: assumes that ids given are fresh and the row has one, because an insert under a stored id replaces the row and a row without is drained again; ConservedThroughout is the exact statement for any run and row.
- OcahubRuns.AlwaysMailed: assumes that no request leaves mail, because such a request breaks it; MailedThroughout shows that this is exact.
- OcahubRuns.OrderSurvives: assumes the same, and that no row without an id is stored; OrderedThroughout is the exact statement for any run.
- OcahubRuns.LoopEndsIff: assumes no hello for an unknown session that fails halfway; CrashIff covers every request in every state. A run goes on after the loop has ended, so the theorems about runs hold of more runs than there are.
- OcahubReplies.OneReplyPerAsk: leaves out the empty id, which the code treats as no reply address.
- The JSON text layer under the envelope dictionaries. Values are equal if they are the same value, where Python also equates 1, 1.0 and True. The empty tuple that is the default of caps is an empty list. A type that is not a string is refused, where an unhashable one raises another error.

vzlink:

- One supervisor: a proxy that is told to wait starts over against the same one, where in the code the next one answers.
- The stages inside a boot, and deadlines and timeouts: a boot ends with an answer, and a proxy may give up at any point.
- How the VM is signalled and killed after stopping began; exit codes; registration times.
- A lock handed from one waiter to the next is free for a moment in the model, so the model allows more stops than the code.
- Connection ids are assumed distinct.
- The stall monitor of the relay, error descriptions, and the cap on one read.
- VzlinkFraming.EncodedReadsBack: takes the JSON codec's laws as its premise: what is written reads back and holds no raw newline (section 7 of RFC 8259).
- check_response appears as the branches of the answer a proxy reads, not on dictionaries.

wrapty:

- Forking, job control, the journal, the status line, what a compaction or resume types after its stop, and cancelling the watchdog at the next stop.
- Environment overrides of the constants; the defaults are used.
- Timestamps and tags are parsed values; the substring filter before a line is decoded is left out.
- Times are whole milliseconds in the transcript and the watchdog.
- WraptyWriter.MasterWriter.TypeAndSubmit: assumes no other typist in between and no fatal error; RefinesFifo covers any interleaving of writes.
- WraptyWatchdog.WatchIdle: assumes timestamped starts and no new starts, because otherwise it may go on for as long as the session does.
- The cooldown's configured seconds are a parameter.

merged-file:

- The JSON, TOML and YAML libraries are a partial parser and a partial serializer. Key order, file mode and the temporary file are not modelled.
- MergedFile.MergeIsBase: values are equal if they are the same value, where Python also equates 1, 1.0 and True.
- MergedFile.File.MergeTwice: assumes the format reads back what it writes.

git-write hook and pyedit:

- Heredoc bodies, backticks and shell lexing are one function from a text to backtick bodies and tokens; finding out whether a directory is a jj repository is not modelled.
- GitHook.GitWriteIsDenied: assumes that what precedes git comes off, because otherwise a git write may pass (StripIff, UnstrippedPasses).
- HelperClosure starts from the names each function mentions; reading the syntax tree is left out.

Not modelled at all: the sibling hooks, the permission scanners, editor and shell plugins, browser automation and the Nix files, which are configuration, file walks or interface code.
