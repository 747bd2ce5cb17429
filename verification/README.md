# Draupnir, modelled and verified in Dafny

Draupnir keeps three stores in agreement: the Postgres tables of images, instances and whitelisted
addresses; the btrfs subvolumes on disk; and an iptables chain. HTTP handlers, a cleaner, a timer and
one reconcile consumer change them at the same time. This project models that control plane and proves
what every interleaving keeps, together with the algorithms underneath: the reconcile, the rule text
round trip, the OAuth rendezvous, the port search, the client-address extraction and the middleware
chain.

`dafny verify dfyconfig.toml` checks everything.

## How the model is built

- `Tables.dfy` is the shared state (tables with the constraints of structure.sql, disk, trigger queue) and
  the effect of every store or executor call. Fields marked as history are written and never read by a step.
- `Handlers.dfy` cuts every handler and the cleaner at each store, executor and channel call. A thread is a
  program counter with its locals; `Advance` is the code between two calls; an `Outcome` says how the call
  ended, and every call may fail.
- `Assertions.dfy` is an Owicki-Gries proof: one assertion per program counter, each call sound where it
  stands, no call breaking another thread's assertion.
- `Server.dfy` adds arrivals, the timer, the consumer loop call by call, and process restarts, and proves
  the invariant of all runs. `Theorems.dfy` and `Ports.dfy` draw the whole-run results from it, and
  `Races.dfy` gives concrete runs on which the conditions in those results fail.
- `Routes.dfy` gives, for every route, the history of effects behind each place and each reply, and proves it of all
  runs; `Replies.dfy` gives what each request answers and leaves behind when it runs alone and nothing fails.
- `Rules.dfy`, `RuleText.dfy` and `Firewall.dfy` are the reconcile itself, from rule entries down to the text
  iptables lists. The consumer in `Server.dfy` works on entries; `Reconciler.dfy` shows the reconcile to be a run of it.
- `Operations.dfy` has the image destroy and the sweep run alone, loop by loop, and shows each to be a run of its
  interleaved handler. `OAuth.dfy`, `ClientAddress.dfy` and `MiddlewareChain.dfy` stand on their own.

Where the code departs from what a reader might expect, the model follows the code:

- The inner `match, err :=` at pkg/server/api/routes/images.go:195 and pkg/server/api/routes/instances.go:88
  shadows the store error. A failed insert or delete that is not a foreign-key violation returns nil with no
  status written (`NoStatus`), and a foreign-key violation in the instance insert calls `Error` on a nil
  error (`Panicked`).
- iptables takes a rule whose email is empty or has a newline, but it never reads back as its entry: the chain cannot be
  read any more, or the rule reads as another entry and stays (`RuleText.BadEmailReads`, `Firewall.BadEmailBlocks`).
- The upload user's image destroy deletes an instance's row before its disk, ignores the error of its List,
  and, like the cleaner, never triggers a reconcile.
- README.md:587 of the repository says a whitelist rule is removed as soon as its instance is destroyed.
  That holds for DELETE on the instance only: `Races.SweepCanLeaveStaleRule` is a run in which the cleaner
  destroys an instance and the quiet chain keeps its rule until the next reconcile.

Assumptions: a store call that reports an error has changed nothing; executor calls, channel operations and
accesses to the shared `Callbacks` map are atomic; ids come from sequences and are never reused; iptables
appends a rule only if no equal one is present, deletes the first equal one, prints options as shown at
pkg/server/whitelister.go:205 with all whitespace of a comment listed unchanged, and takes comments of any length
(its real limit is not modelled). During a run nobody but the server changes the chain or the tables. The stores
never check `rows.Err()` (pkg/store/whitelisted_addresses.go:58-83, pkg/store/instances.go:56-75), so a List that
breaks off can come back short without an error; the reconcile's List and the cleaner's are taken to be complete
when they report none. A restart drops the threads and the queue and keeps tables, disk and chain.

## Model

| member | source | states |
|---|---|---|
| `Theorems.NoLostUpdate` | pkg/server/whitelister.go:85-171 | in every run: queue empty, no handler between its store write and its trigger, last reconcile succeeded, consumer idle, imply that the chain holds exactly the rules the tables ask for and those of rows deleted without a trigger since the last List |
| `Theorems.QuietChainIsExact` | pkg/server/api/routes/instances.go:265-273 | such a quiet chain is exactly what the tables ask for if and only if every rule of every row deleted without a trigger since the last List is wanted again; and there is a last List |
| `Theorems.SilentMeansDropped` | pkg/server/cleaner.go:75-81 | the rules that may be left over are exactly those of the rows that the cleaner or an image destroy deleted since the last List |
| `Server.RunKeepsInv` | pkg/server/whitelister.go:60-108 | every state of every run of handlers, cleaner, timer, consumer and restarts satisfies the system invariant, queue bound included |
| `Server.EffectKeepsAgreement` | pkg/server/api/routes/instances.go:122-128 | only the address upsert and the owner's row deletion, the two writes followed by a trigger, can put a synced whitelist out of date |
| `Server.TriggerDiscipline` | pkg/server/api/routes/instances.go:215-221 | those two writes always lead to the trigger, and a handler at the trigger does nothing but send it |
| `Server.JoinIsWanted` | pkg/store/whitelisted_addresses.go:37-83 | the listed join of addresses and instances is, as a set, what the tables ask for, in whatever order and with whatever duplicates |
| `Assertions.CallIsSound` | pkg/server/api/routes/instances.go:37-137 | each call of each handler, whatever it answers, finds what it relies on and establishes the assertion of the next program point |
| `Assertions.EffectKeepsOthers` | pkg/server/api/routes/instances.go:229-277 | no call of another thread breaks a thread's assertion, including a destroy racing a create between row insert and disk creation |
| `Assertions.EffectKeepsStore` | structure.sql:164-173 | every justified call keeps the foreign keys, readiness, snapshots, disks, visits and ports consistent |
| `Routes.RequestTold` | pkg/server/api/routes/instances.go:37-137 | in every run, the effects that a request's calls have had so far, in order, are those its route allows for the place where it stands and the reply it has given; for all six routes and the sweep |
| `Routes.CreatedIsWhitelisted` | pkg/server/api/routes/instances.go:84-128 | a create that answered 201 has inserted its caller's row, made its disk, recorded the caller's address and sent a trigger, in this order, and nothing else |
| `Routes.ShownIsWhitelisted` | pkg/server/api/routes/instances.go:183-221 | a get that answered 200 was the owner's, and has recorded the owner's address and sent a trigger |
| `Routes.DeletedIsTriggered` | pkg/server/api/routes/instances.go:259-274 | a DELETE on an instance that answered 204 has deleted its disk, then its row, and then sent a trigger |
| `Routes.OthersSpareInstances` | pkg/server/api/routes/images.go:174-193 | an image destroy by anybody but the upload user deletes no instance row and no instance disk |
| `Routes.OnlyUploadPurges` | pkg/server/api/routes/images.go:174-189 | every step of an image destroy that deletes an instance row serves a DELETE the upload user sent |
| `Routes.OnlyRevokedAreSwept` | pkg/server/cleaner.go:48-61 | the cleaner turns to an instance's disk only right after its lookup was answered with invalid_grant; a failed lookup spares the instance |
| `Routes.SweepListsAll` | pkg/server/cleaner.go:43-46 | a sweep begins with all the instances that have a refresh token and no other |
| `Routes.FailureEnds` | pkg/server/api/routes/instances.go:100-125 | no handler takes a failing call for a success: the request ends with an error, the sweep goes on to the next instance, and nothing changes but what the failing call itself had done |
| `Routes.EveryCallMayFail` | pkg/server/api/routes/images.go:174-205 | every store and executor call may fail, except that the List of an image destroy has its error ignored, and executor calls may fail after changing the disk |
| `Routes.AnythingMayHappen` | pkg/server/server.go:112-144 | any request may arrive on an unused thread, the process may restart, and any call of the consumer may fail |
| `Replies.UploadReplies` | pkg/server/api/routes/images.go:91-101 | with nothing failing POST /images leaves a row that is not ready and answers 201 |
| `Replies.DoneReplies` | pkg/server/api/routes/images.go:122-142 | with nothing failing a Done request answers 404 for a missing image, and otherwise leaves it ready, with its snapshot if it was not, and answers 200 |
| `Replies.OthersDestroyReplies` | pkg/server/api/routes/images.go:167-212 | an image destroy by another user answers 404 for a missing image, 422 for one in use, changing nothing, and otherwise 204 with row and snapshot gone |
| `Replies.InUseAlwaysRefused` | pkg/server/api/routes/images.go:193-203 | and with the image in use and no call failing, 422 with nothing changed is the only way it can end |
| `Replies.CreateReplies` | pkg/server/api/routes/instances.go:62-137 | with nothing failing a create answers 201 with the row as asked for, on the drawn port, its disk, the caller's address and one more trigger |
| `Replies.CreateRefused` | pkg/server/api/routes/instances.go:62-71 | a create answers 404 for a missing image and 422 for one that is not ready |
| `Replies.InsertFails` | pkg/server/api/routes/instances.go:84-96 | a failed row insert answers nothing, and one that finds the image gone panics, since the shadowed error is looked at |
| `Replies.GetReplies` | pkg/server/api/routes/instances.go:183-226 | a get answers the owner 200 with the caller's address and one more trigger, and anybody else 404 |
| `Replies.DeleteReplies` | pkg/server/api/routes/instances.go:247-277 | a DELETE on an instance by the owner or the upload user answers 204 with disk, row and addresses gone and one more trigger, and anybody else 404 |
| `Replies.TriggerWaits` | pkg/server/whitelister.go:56 | a hundred triggers can be queued, and then the timer and the requests that owe one wait |
| `Theorems.TablesAndDiskConsistent` | pkg/server/api/routes/images.go:129-139 | in every run every instance row refers to an image row that exists and is ready, and every ready image row has its snapshot on disk |
| `Theorems.DisksComeFromSnapshots` | pkg/server/api/routes/instances.go:103-105 | an instance's disk is only ever made from a snapshot on disk at that moment, by the create that inserted its row |
| `Theorems.OrphanVolumeWasPurged` | pkg/server/api/routes/images.go:174-189 | an on-disk instance without a row lost its row to an image destroy, in the service of a DELETE that the upload user had sent; without those, every on-disk instance has a row, under any failures and races |
| `Theorems.NoOrphanIff` | pkg/server/api/routes/images.go:177-189 | up to any state of a run, an instance has never been on disk without a row if and only if no image destroy deleted its row while it was on disk and no create made its disk after the row had gone |
| `Theorems.OrphanedIff` | pkg/server/api/routes/images.go:177-189 | at any state of a run, an instance is on disk without a row if and only if some step orphaned its disk (an image destroy deleting the row of an on-disk instance, or a create making the disk of a deleted row) and no step since has deleted that disk |
| `Races.ImageDestroyCanOrphanVolume` | pkg/server/api/routes/images.go:182-185 | a run in which such a destroy overtakes a create, fails on the missing disk, and leaves an on-disk instance without a row when every request has ended |
| `Theorems.StrandedStays` | pkg/server/api/routes/instances.go:259-268 | a row with no disk, no create that could still make it, and no thread about to delete the row is beyond DELETE and the cleaner for the rest of the run: it goes if and only if an image destroy deletes it |
| `Races.FailedCreateStrands` | pkg/server/api/routes/instances.go:85-105 | a run in which a create whose disk creation fails leaves such a row |
| `Theorems.OnlyEntitledDestroy` | pkg/server/api/routes/instances.go:247-260 | in every run a DELETE on an instance reaches its disk or its row only for the upload user or the owner |
| `Theorems.DestroyedImageHasNoInstances` | pkg/server/api/routes/images.go:193-210 | once an image destroy has answered 204, no instance row of that image exists, then or ever after |
| `Theorems.ReadyIsFinal` | pkg/store/images.go:103-126 | a ready image row never returns to not ready, and after deletion its id is never handed out again |
| `Theorems.MarkedAtMostOnce` | pkg/store/images.go:103-126 | for any number of overlapping Done requests, MarkAsReady succeeds at most once per image in a run |
| `Theorems.MarkFollowsFinalise` | pkg/server/api/routes/images.go:122-139 | a request about to mark an image ready has itself finalised it successfully, and has been at that point ever since |
| `Theorems.DoneMeansReady` | pkg/server/api/routes/images.go:122-142 | a Done request that has answered 200 leaves the image ready, or gone again, for good |
| `Theorems.AddedRuleHasProvenance` | pkg/server/whitelister.go:117-126 | every rule a reconcile adds carries the port and owner of an instance live when the tables were listed, and an address from which that owner had made a create or get for it |
| `Theorems.VisitHasRequest` | pkg/server/api/routes/instances.go:190-221 | a recorded visit was made by a create that inserted the instance or a get whose user owns it |
| `Races.SweepCanLeaveStaleRule` | pkg/server/cleaner.go:75-81 | a run in which a sweep leaves the quiet chain with a rule whose row is gone |
| `Firewall.Chain.Reconcile` | pkg/server/whitelister.go:110-171 | for any table: an unparsable rule or a failed List changes nothing; otherwise the differences are added and removed in order up to the first failure, it succeeds exactly if no call fails, iptables takes every addition, and every rule that reads as an undesired entry is that entry's own; wherever it stops, nothing desired has gone and nothing undesired has come; success leaves exactly the rules that read as desired and the missing ones, so with entries that can be listed back the chain is exactly the desired set; a chain already equal is not touched |
| `Firewall.Chain.AddAll` | pkg/server/whitelister.go:139-149 | the adding loop makes additions in order and stops at the first failing call or rejected rule; it succeeds exactly if it makes them all |
| `Firewall.Chain.RemoveAll` | pkg/server/whitelister.go:151-161 | the removing loop deletes first equal rules in order and stops at the first failing call or absent rule; it succeeds exactly if it makes all deletions |
| `Firewall.AddedPhase` | pkg/server/whitelister.go:139-149 | after any number of additions that can be listed back, the chain reads, lies between the old one and the tables, and lacks only desired rules that are still to be added |
| `Firewall.RemovedPhase` | pkg/server/whitelister.go:151-161 | and after any number of deletions it lacks no desired rule, and its undesired ones, duplicates included, are those still to be removed |
| `Firewall.DeletableIffOrderly` | pkg/server/whitelister.go:151-155 | all deletions find their rules if and only if every rule that reads as an undesired entry is the one its own specification installs |
| `Firewall.CompleteIsExpected` | pkg/server/whitelister.go:136-161 | a complete reconcile leaves a rule if and only if it read as a desired entry or is the rule of a desired entry that none read as |
| `Firewall.ProgressIsBounded` | pkg/server/whitelister.go:136-161 | an interrupted one has added only rules of desired entries and deleted only rules that read as undesired ones |
| `Firewall.RejectedEntryBlocks` | pkg/server/whitelister.go:139-161 | with one desired entry that iptables rejects, such as an IPv6 address, no deletion ever happens and no rule goes |
| `Firewall.OursUnobstructed` | pkg/server/whitelister.go:136-161 | over a chain of the server's own rules, with good entries and no failing call, nothing is in the way of success |
| `Firewall.Chain.ReconcileTwice` | pkg/server/whitelister.go:117-171 | two reconciles over the same table, each with its own faults: each makes its progress and succeeds exactly if unobstructed; and after one that succeeded, the second changes nothing, whichever of its calls fail and whatever the table holds |
| `Firewall.SecondDoesNothing` | pkg/server/whitelister.go:136-161 | over the chain a complete reconcile left, any progress of another over the same table leaves every rule where it is |
| `Firewall.Chain.Retrieve` | pkg/server/whitelister.go:193-227 | the chain reads as entries in order if and only if every rule parses |
| `Firewall.SliceDifference` | pkg/server/whitelister.go:244-262 | returns the occurrences in the first list of what is not in the second |
| `Rules.DifferenceCounts` | pkg/server/whitelister.go:244-262 | membership and multiplicity of a difference, element by element |
| `RuleText.RuleRoundTrip` | pkg/server/whitelister.go:193-241 | for every IPv4 address and uint16 port, the built arguments install the entry's rule, and its listing parses back to the same entry if and only if the email is non-empty and free of newlines |
| `RuleText.BadEmailReads` | pkg/server/whitelister.go:193-241 | a rule installed with any other email never reads as its entry: it reads as the entry whose email follows a comment marker inside it, if one does on one line, and otherwise cannot be read |
| `RuleText.HiddenExamples` | pkg/server/whitelister.go:217-223 | both outcomes occur: the empty email leaves an unreadable rule, and one with a newline and a marker reads as another entry |
| `Firewall.BadEmailBlocks` | pkg/server/whitelister.go:117-171 | with such a rule in the chain a reconcile can succeed only if an email hides in it and the tables list that entry |
| `RuleText.QuadRoundTrip` | pkg/server/whitelister.go:223 | printing an IPv4 address and parsing the text gives the address back |
| `RuleText.ParsedIsCanonical` | pkg/server/whitelister.go:223 | and whatever parses as an IPv4 address is that address's canonical text |
| `RuleText.SpecInstallsIff` | pkg/server/whitelister.go:230-241 | the built arguments are accepted exactly for IPv4 addresses and uint16 ports |
| `RuleText.SpecIsInjective` | pkg/server/whitelister.go:230-241 | no two entries install the same rule |
| `RuleText.ListedPortReadsBack` | pkg/server/whitelister.go:208-215 | the port is read back whatever the comment contains, even another dpt marker |
| `RuleText.ListedEmailReadsBack` | pkg/server/whitelister.go:217-223 | the email is read back exactly when non-empty and on one line, even if it contains comment markers |
| `RuleText.FindPortIsLeftmost` | pkg/server/whitelister.go:208-211 | on any text the port search finds the digits at the leftmost dpt marker followed by a digit, or nothing if there is none |
| `RuleText.FindEmailIsLeftmost` | pkg/server/whitelister.go:217-221 | on any text the email search finds what stands between the leftmost marker on the last line and the closing of the comment, or nothing |
| `RuleText.ReadIsRepresentable` | pkg/server/whitelister.go:193-227 | whatever parses, even from somebody else's rule, can be written back |
| `RuleText.TextDecides` | pkg/server/whitelister.go:203-223 | reading goes by the listed text alone: somebody else's rule that lists as one of the server's reads as it |
| `Firewall.IptablesIsLawful` | pkg/server/whitelister.go:19-22 | the text layer satisfies the three laws the reconcile relies on |
| `Firewall.IptablesAcceptable` | pkg/server/whitelister.go:139-143 | the entries whose rule can be installed but not listed back are exactly the IPv4 ones whose email is empty or spans lines |
| `Firewall.ChainReadsBack` | pkg/server/whitelister.go:203-226 | a whole chain installed from representable entries reads back in order |
| `Firewall.AppendRefines` | pkg/server/whitelister.go:139-143 | on a chain of our own rules, appending in the kernel is appending to the entries, as the server model does |
| `Firewall.DeleteRefines` | pkg/server/whitelister.go:151-155 | and deleting the first matching rule is deleting the first equal entry |
| `Reconciler.ReconcileIsRun` | pkg/server/whitelister.go:132-171 | over a chain of the server's own rules and a table whose entries can be listed back, whatever a reconcile has done to it wherever it stops, the consumer of the server model can do, step by step, to the entries; after a complete one it is a step from idle with success |
| `Reconciler.TriggerCanReconcile` | pkg/server/whitelister.go:85-171 | from any idle state with a trigger queued, whatever the chain holds, the consumer can go on, step by step, until the chain is what the tables ask for |
| `OAuth.ExchangeAuthCode` | pkg/server/api/routes/access_tokens.go:167-206 | a token is passed on if and only if the exchange returned it with a refresh token |
| `OAuth.CreatedTokenHasOneSource` | pkg/server/api/routes/access_tokens.go:83-115 | a create that answers 201 returns a token with a refresh token, and exactly one callback, of the same state and redirected with a code and no error, exchanged and delivered it, even when states repeat |
| `OAuth.ReportedSuccessWasReceived` | pkg/server/api/routes/access_tokens.go:129-163 | a callback that has sent its message has handed it to exactly one create of its state, which has it |
| `OAuth.LateSenderBlocksForever` | pkg/server/api/routes/access_tokens.go:105-115 | only the create times out: a callback sending to a create that has left stays blocked for the rest of the run |
| `OAuth.CallbackIsHandled` | pkg/server/api/routes/access_tokens.go:129-163 | a callback is ignored exactly if its state was not registered when it looked; otherwise it keeps the channel it found, exchanges an authorised redirect's code and sends what that yields, and refuses any other with the redirect's own error or a missing code |
| `OAuth.RefusedIff` | pkg/server/api/routes/access_tokens.go:135-157 | a message is an error if and only if the redirect carried an error or no code, or the exchange failed or returned no refresh token |
| `OAuth.AuthorisedCompletes` | pkg/server/api/routes/access_tokens.go:105-163 | from a create waiting on the channel registered for its state, an authorised redirect whose exchange returns a refresh token can always go on to 201 with that token |
| `OAuth.LoginCompletes` | pkg/server/api/routes/access_tokens.go:83-163 | and so, from any state, can a login from its arrival |
| `OAuth.WaitEnds` | pkg/server/api/routes/access_tokens.go:91-115 | a waiting create may always time out, and then answers 400 |
| `OAuth.ExchangeErrorIsReported` | pkg/server/api/routes/access_tokens.go:167-176 | a failed exchange is reported with its own error |
| `OAuth.RevocationIsReported` | pkg/server/api/routes/access_tokens.go:183-206 | without a refresh token, the user is asked to try again exactly if the token was revoked |
| `OAuth.MapExactIffStatesDistinct` | pkg/server/api/routes/access_tokens.go:83-89 | throughout a run the Callbacks map is the bijection from outstanding creates to their channels if and only if outstanding states never repeat |
| `OAuth.MapEntriesAreOwned` | pkg/server/api/routes/access_tokens.go:129-133 | with no hypothesis at all, every entry is the channel of an outstanding create of that state |
| `OAuth.RepeatedStateCanStrand` | pkg/server/api/routes/access_tokens.go:88-89 | a run in which two creates share a state and the first one's delete strands the second |
| `Ports.FindFreePort` | pkg/server/api/routes/instances.go:279-308 | for every random source: at most 99 draws; a found port was absent from the list read in the same iteration and lies in the cyclic interval; all earlier draws were taken; all ports taken means no result; panic exactly when the bounds are equal |
| `Ports.SearchIsRun` | pkg/server/api/routes/instances.go:279-308 | draw by draw, whatever the tables become in between, the search is the create's thread of the server model, up to the same end |
| `Ports.PortsDistinctIff` | pkg/server/api/routes/instances.go:72-85 | up to any state of a run, live ports have been distinct throughout if and only if no create inserted its row after being overtaken: another create having, since the port was chosen, inserted a row with it that is still live |
| `Ports.TakenMeansOvertaken` | pkg/server/api/routes/instances.go:279-308 | a port found free when chosen is taken at the insert exactly if the create was overtaken |
| `Ports.DrawsAreReachable` | pkg/server/api/routes/instances.go:292 | the uint16 draws reach exactly the cyclic interval from min to max |
| `Ports.ReachableIsInterval` | README.md:221-222 | that interval is min inclusive to max exclusive, wrapping round when min exceeds max |
| `Ports.LivePortsDistinct` | pkg/server/api/routes/instances.go:78-85 | if no create was overtaken between choosing its port and inserting its row, live instances have pairwise distinct ports in range, so never more than max - min of them |
| `Ports.UncontendedNotOvertaken` | pkg/server/api/routes/instances.go:72-85 | creates that never hold the same port between choosing and inserting are never overtaken |
| `Races.OverlappingCreatesCanSharePort` | structure.sql:71-79 | a run in which two overlapping creates end up with one port |
| `ClientAddress.ExtractRequestIPAddress` | pkg/server/api/middleware/record_ip_address.go:36-90 | the loops compute the specification `ClientOf` |
| `ClientAddress.ClientIsLastUntrusted` | pkg/server/api/middleware/record_ip_address.go:41-76 | the client is the last header element that parses and lies in no trusted network |
| `ClientAddress.ClientElseRemote` | pkg/server/api/middleware/record_ip_address.go:78-87 | without such an element, or without a usable header, it is the remote host |
| `ClientAddress.FrontCannotAffect` | pkg/server/api/middleware/record_ip_address.go:69-76 | nothing before a counting element can change the answer |
| `ClientAddress.AppendedTrustedIgnored` | pkg/server/api/middleware/record_ip_address.go:38-67 | appending any number of trusted or unparsable elements answers as the old header does with only its front trimmed, and so leaves the answer alone if no space trails the old header |
| `ClientAddress.ExtendedClient` | pkg/server/api/middleware/record_ip_address.go:38-67 | for a parser that takes no text ending in a space, it answers as the old header without its last element if a space trails it, and as the old header otherwise |
| `ClientAddress.AppendedTrustedIgnoredIff` | pkg/server/api/middleware/record_ip_address.go:38-76 | so the answer stays the same if and only if the header is unused, blank or has no trailing space, or its last element does not count or is what the answer would be without it |
| `ClientAddress.TrailingBlankMatters` | pkg/server/api/middleware/record_ip_address.go:38 | a family of headers with trailing space on which the answer changes |
| `ClientAddress.SplitJoined` | pkg/server/api/middleware/record_ip_address.go:19 | the split distributes over comma-joined headers |
| `ClientAddress.GapAfterComma` | pkg/server/api/middleware/record_ip_address.go:19 | spaces, tabs, line ends and form feeds after a comma make no difference |
| `ClientAddress.PiecesStartPlain` | pkg/server/api/middleware/record_ip_address.go:19 | no element contains a comma, and none after the first starts with a gap |
| `ClientAddress.HeaderReadsBack` | pkg/server/api/middleware/record_ip_address.go:38-42 | a list of elements written with commas and any gaps is read as those elements |
| `ClientAddress.TrimIsExact` | pkg/server/api/middleware/record_ip_address.go:38 | trimming removes exactly the Unicode white space at both ends |
| `ClientAddress.ClientOfList` | pkg/server/api/middleware/record_ip_address.go:36-76 | end to end: of a listed header the client is the last element that is an address outside every trusted network |
| `ClientAddress.BlockIsRange` | pkg/server/api/middleware/record_ip_address.go:57-62 | a CIDR block is the aligned range of its size around the network address |
| `ClientAddress.BlockIsPrefix` | pkg/server/api/middleware/record_ip_address.go:57-62 | an address is in a block exactly if it is of the same family and its leading prefix bits are those of the network address |
| `ClientAddress.BlockSizes` | pkg/server/api/middleware/record_ip_address.go:57-62 | host routes hold one address, and the /24 and /8 blocks of IPv4 hold 2^8 and 2^24 |
| `ClientAddress.RemoteHostExact` | pkg/server/api/middleware/record_ip_address.go:81-87 | host:port gives the host, a bare host is an error |
| `ClientAddress.RemoteHostIff` | pkg/server/api/middleware/record_ip_address.go:81-87 | a remote address has a host if and only if it has exactly one colon, and it is what stands before it; so a direct IPv6 peer is always an error |
| `Operations.Host.DestroyImage` | pkg/server/api/routes/images.go:149-213 | the upload user's destroy, its loop over the listed instances included, computes the specification `Destroyed` for the listing it got and the calls that failed |
| `Operations.DestroyedMeansGone` | pkg/server/api/routes/images.go:174-212 | 204 means that no instance row of the image is left, even if List failed, and no disk of an instance it had |
| `Operations.DestroyLosesOnlyItsOwn` | pkg/server/api/routes/images.go:177-189 | whatever fails, only rows and disks of that image's instances can go |
| `Operations.DestroySparesImages` | pkg/server/api/routes/images.go:193-208 | whatever fails, other images keep their row and snapshot |
| `Operations.DestroyProgresses` | pkg/server/api/routes/images.go:182-188 | with working store calls, an attempt not answered 204 has removed the image row or leaves strictly fewer instance rows |
| `Operations.DestroySucceeds` | pkg/server/api/routes/images.go:205-210 | with nothing failing and every instance on disk the answer is 204 |
| `Operations.Host.RetryDestroyImage` | pkg/server/api/routes/images.go:174-212 | retrying with working store calls and any disk until the image row is gone makes exactly as many attempts as it reports, each before the last leaving the row, and at most one more than the image had instances |
| `Operations.DestroyIsRun` | pkg/server/api/routes/images.go:149-213 | the destroy run alone is a run of the interleaved handler: the two models of it agree call by call |
| `Operations.Host.ListInstances` | pkg/store/instances.go:41-76 | the listing is ordered by id, complete, or a prefix when a scan fails |
| `Operations.ListingPrefixIsOrdered` | pkg/store/instances.go:41-76 | what a List may return is the rows in order of id up to some id |
| `Operations.ListingIsOrdered` | pkg/store/instances.go:41-76 | and without a scan error all of them |
| `Operations.IsRefreshTokenValid` | pkg/server/api/auth/auth.go:57-76 | exactly one of valid, undetermined or invalid with a reason; the reason is there exactly if the lookup failed with invalid_grant anywhere in its message |
| `Operations.SubstringOccurs` | pkg/server/api/auth/auth.go:70 | the search finds a text exactly if it stands somewhere in the message |
| `Operations.InvalidGrantDecides` | pkg/server/api/auth/auth.go:64-75 | all three results, for every lookup answer, with the message as the reason or the failure |
| `Operations.Host.Sweep` | pkg/server/cleaner.go:35-73 | one round of the cleaner computes the specification `SweepLoop` over the complete listing; the reason it dereferences is always present; a failed List changes nothing |
| `Operations.SweepRemovesExactly` | pkg/server/cleaner.go:43-71 | a sweep removes the rows, with their addresses, of exactly the listed instances with a token, an invalid_grant lookup and both deletions succeeding; lookups are answered per instance, even for a shared token, and failures neither stop the sweep nor touch other instances |
| `Operations.SweepIsRun` | pkg/server/cleaner.go:35-73 | the sweep run alone is a run of the interleaved cleaner thread |
| `Operations.Host.CleanInstance` | pkg/server/cleaner.go:75-81 | disk first, then the row, and the row only if the disk went |
| `MiddlewareChain.FoldOfAdded` | pkg/server/api/chain/chain.go:51-72 | folding with one middleware added is folding around the handler it has wrapped |
| `MiddlewareChain.New` | pkg/server/api/chain/chain.go:39-48 | a new chain wraps nothing and its slice is full |
| `MiddlewareChain.Add` | pkg/server/api/chain/chain.go:51-56 | the result is the receiver with one more; the receiver's view never changes; from a full slice the result is separate, else it shares the backing array |
| `MiddlewareChain.Resolve` | pkg/server/api/chain/chain.go:59-72 | resolving is the error handler around the right fold of the middlewares |
| `MiddlewareChain.AddThenResolve` | pkg/server/api/chain/chain.go:51-61 | adding then resolving equals resolving the receiver with the wrapped handler |
| `MiddlewareChain.Siblings` | pkg/server/api/chain/chain.go:51-56 | of two siblings the second replaces the first one's last middleware exactly when the parent had spare capacity |
| `MiddlewareChain.BranchPoint` | pkg/server/server.go:104-110 | the chain all routes branch from is full |
| `MiddlewareChain.OneFewer` | pkg/server/server.go:104-110 | with one middleware fewer the branch point would not be full, and a second branch would overwrite the first one's middleware |
| `MiddlewareChain.TwoBranches` | pkg/server/server.go:112-144 | branches of any length off a full parent leave each other and the parent alone |

## Left out

- HTTP, JSON:API, mux, Sentry and logging: plumbing over libraries; responses appear as status codes.
- Shell scripts, btrfs, Postgres and openssl: only the effect of each executor call on the subvolumes is modelled; image upload subvolumes are not, since no property depends on them.
- A child process that outlives a restart of the server: executor calls are atomic steps.
- A store call that commits and still reports an error: it would be a write without its trigger.
- The data race of unsynchronised Go map accesses: map operations are atomic steps.
- Normalisation of addresses by the inet column, and IPv6 rules: entries carry canonical IPv4 text, and anything else is an iptables error.
- net.ParseIP and net.IP.String: the address extraction is proved for every parser and printer.
- The capacity append chooses for slices of 256 elements or more.
- Token lookups, exchanges and revocations at Google: their answers are parameters.
- Time: intervals and timeouts are steps that may happen at any moment, so nothing is said about when.
- AuthenticateRequest, version checking, configuration and the CLI: only easy properties.
