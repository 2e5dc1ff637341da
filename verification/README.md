# A verified model of the chat system's protocols

This project models, in Dafny 4.11, the stateful protocols of a small distributed chat system written in
C++: the framed session I/O of ChatServer, its sharded message dispatcher, StatusServer's registry,
balancer and login tokens, the routing of messages between chat servers, and the tables, queries and
connection pools underneath. `dafny verify dfyconfig.toml` checks all of it.

Each protocol is a state with atomic steps; a run is any list of steps, one that is not enabled being
skipped, so a statement about all lists is a statement about all interleavings. Objects that the source
updates in place are classes whose methods are proved against those step functions, or against a history or
specification of the same module.

| file | what it holds |
|---|---|
| Framing.dfy | the 4-byte header in big-endian `short`s, the printer, and the reader on whole byte streams |
| Limits.dfy | the sizes shared by ChatServer's parts |
| WriteChain.dfy, CSession.dfy | the send queue and its one-write-at-a-time chain; the objects with the send queue and the two-state reader |
| Dispatcher.dfy, Progress.dfy, Shutdown.dfy, LogicSystem.dfy | posting, workers and condition variables; that nothing is forgotten; close() and draining; the locked regions as methods |
| Registry.dfy, Balancer.dfy, Tokens.dfy, TokenRace.dfy, StatusService.dfy | server table against history, selection of the least loaded, one-time tokens, serialised and not; the service object |
| LoginGate.dfy, Pipeline.dfy | handleMessage composed with the tokens; that gate composed with the dispatcher |
| Rendering.dfy, Routing.dfy, Handover.dfy, SessionMgr.dfy | the six notifications and their published records; n servers with sessions, channels and fan-out loops; the session map against its history |
| Friendship.dfy, FriendRace.dfy, Messages.dfy, LastMessages.dfy | friend tables, atomic and with overlapping calls; paged history; last message per contact |
| LeasePool.dfy, RedisPool.dfy, PoolWaiters.dfy | nested leases on the MySQL pool; conservation in the Redis pool, and who waits for it |
| Wrappers.dfy | an Option type |

## What turned out not to hold

The model follows the code, so the following properties, which one would expect, are proved exactly as far as
they are true.

- **Shutdown can hang.** `close()` sets the stop flag and notifies without holding the queue mutex. A worker
  that has just tested its wait predicate misses the notification and sleeps. Whether that happens is settled
  when the flag is raised: `HangsIffDeciding` says a worker can be left asleep for good iff it is then between
  its test and its sleep, and `ShutdownCompletesIff` that otherwise the program's own steps can always bring
  every worker to its exit. `ShutdownCanHang` shows the bad case reachable for any worker of any number,
  `HungStaysHung` that only a spurious wake-up or a later post to its shard ends it. What is handled is
  unaffected: `LosslessShutdown`. (The dispatcher's model lets handlers end; one that is caught in the
  createGroup deadlock below does not, and then its worker never exits either.)
- **Load is not balanced.** The selection rule balances (`GreedyBalance`) if the counts it reads include the
  increments. But the counts are written with `HINCRBY` and read with `GET`, which fails on a hash and counts
  as zero, so the first server of the walk is chosen every time: `ServiceBalancesOnlyTrivially`.
- **createGroup can deadlock the MySQL pool**, exactly when at least as many calls run at once as there are
  sessions (`DeadlockIff`); pool and worker threads are both sized to the hardware concurrency.
- **Private history can contain group messages.** `getChatHistory` does not look at `chat_type`, so two users'
  history shows one exactly when one of them has posted to a group whose id is the other's uid
  (`HistoryIsPrivateIff`), and the server accepts such a post even if there is no such group
  (`UncheckedHistoriesArePrivateIff`). If private messages go to users and group messages to groups only, all
  histories are clean iff no group has the id of a user (`HistoriesArePrivateIff`); users and groups are both
  numbered from 1.
- **The list of last messages is not one of all conversations.** `getLastMessages` does not look at `chat_type`
  either, so a group and a user of one id are one contact and hide each other. In runs whose messages go to
  users and groups as they should, the contacts a user has sent to or received from by id all keep their rows
  iff no group has the id of a user (`NoneHiddenIff`). Even then only private conversations are right
  (`PrivateLastIsShown`): a group's last message is shown to a user iff that user sent it
  (`GroupLastIsShownIff`), and a group is in the list at all iff the user has posted to it (`GroupHasRowIff`).
- **A token need not mean one login.** With serialised checks it never means more than one, but a token that no
  newer one replaces can be used up without any, exactly when StatusServer's answer to a valid check is lost
  (`FateOfToken`, `TokensAreAccountedFor`). Without serialisation two sessions can log in with one token, iff
  both have read it before the first delete, and while it was valid (`BothMatchIff`).
- **A caller can sleep beside an idle Redis connection**, iff not all connections of a pool of at least two
  could be opened at the start (`StrandedIff`): the top-up thread does not notify.
- **Two requests can be pending for one pair** when calls overlap (`InsertDuplicatesIff`,
  `DuplicatesReachableIff`); friendships are kept right by their unique key (`FriendshipsSurvive`).

The documentation differs from the code in two places where the code is followed: a server is evicted on the
sixth silent health check, not after five (README.md:102), and connection counts are not lowered on logout
(README.md:110), because `HDECRBY` is not a Redis command.

## Model

| member | source | states |
|---|---|---|
| Framing.ShortRoundTrip | ChatServer/CSession.cpp:51-55 | a signed 16-bit value survives being written in network order and read back, negative ones included |
| Framing.ShortIsBigEndian | ChatServer/CSession.cpp:177-183 | the first byte sent counts 256s, a negative value being written as its complement to 65536 |
| Framing.ShortCanonical | ChatServer/CSession.cpp:51-55 | every pair of bytes is the network form of the short it is read as |
| Framing.ParseCanonical | ChatServer/CSession.cpp:34-95 | on arbitrary bytes the dispatched frames re-encode to exactly the bytes consumed; what is left is an incomplete frame, or a header rejected iff its signed length is outside 0..8192 |
| Framing.ParseUnique | ChatServer/CSession.cpp:34-95 | that decomposition of a stream is unique, so the reader's outcome is the only one with this property |
| Framing.ParseOfPrint | ChatServer/CSession.cpp:177-183 | parsing printed frames gives the frames back, for every signed id and every body of 0..8192 bytes |
| Framing.ParseMonotone | ChatServer/CSession.cpp:34-95 | more bytes never change what was dispatched before, and nothing is dispatched after a rejection |
| Framing.ParseOfSent | ChatServer/CSession.cpp:57-61 | for bodies up to the sender's limit the reader dispatches exactly the frames before the first one longer than 8192 and rejects iff there is one |
| WriteChain.SendKeepsInv | ChatServer/CSession.cpp:167-191 | send keeps the write-chain invariant, dropping when more than 1000 are queued and starting a write only on an empty queue |
| WriteChain.TransmitKeepsInv | ChatServer/CSession.cpp:189-191 | a partial transmission keeps it: the wire holds the completed frames and part of the front one |
| WriteChain.CompleteKeepsInv | ChatServer/CSession.cpp:222-228 | completing a write keeps it: the frame moves from queued to written and the next write starts iff something is queued |
| WriteChain.Run | ChatServer/CSession.cpp:167-234 | in every run at most one write is outstanding, written ++ queued = accepted, the queue is non-empty iff a write is outstanding or has failed, and it never exceeds 1001 |
| WriteChain.SendIsAcceptedIff | ChatServer/CSession.cpp:172-191 | in every run a send is accepted, behind all others, iff at most 1000 accepted frames are unwritten, and leaves no trace otherwise; it starts a write iff none of them is left |
| WriteChain.WriteEnds | ChatServer/CSession.cpp:212-234 | in every run a failing write stops the chain, and a whole one counts its frame as written and starts the next iff there is one |
| WriteChain.AllGetsWritten | ChatServer/CSession.cpp:189-234 | in every run, unless a write has failed, the socket can bring everything accepted on the wire |
| WriteChain.FailureIsFinal | ChatServer/CSession.cpp:212-221 | after a failed write no later event starts another or puts a byte on the wire |
| WriteChain.EndToEnd | ChatServer/CSession.cpp:167-234 | the wire is a prefix of the accepted frames' encoding; any prefix of it decodes to a prefix of the accepted frames, including every completed one; the peer rejects only an over-long frame |
| CSession.MakeNode | ChatServer/CSession.cpp:177-183 | the buffer filled by send is the frame's encoding and its total length fits the 16-bit field |
| CSession.SendSide.Send | ChatServer/CSession.cpp:167-197 | as the write chain's send: with at most 1000 queued the frame is appended to queue and accepted frames and a write is started iff the queue was empty; above that nothing changes |
| CSession.SendSide.HandleAsyncWrite | ChatServer/CSession.cpp:212-234 | the completion handler pops and starts the next write iff one is queued, or on error closes and leaves the queue with no write outstanding |
| CSession.ReadSide.OnHead | ChatServer/CSession.cpp:39-72 | one header is consumed and nothing received is lost: it is dispatched with an empty body, kept for the body, or rejected |
| CSession.ReadSide.OnBody | ChatServer/CSession.cpp:81-94 | the body completes exactly the frame announced by the header |
| CSession.ReadSide.Arrive | ChatServer/CSession.cpp:34-95 | however the stream is cut into arrivals, what is dispatched is what one pass over all received bytes dispatches, and the session is closed iff that pass rejects |
| Dispatcher.ShardOf | ChatServer/LogicSystem.cpp:91-96 | every uid, non-positive ones included, has a shard among the workers |
| Dispatcher.ShardIsRemainder | ChatServer/LogicSystem.cpp:91-96 | a positive uid differs from its shard by a multiple of the worker count; all others have shard 0 |
| Dispatcher.PushedKeeps | ChatServer/LogicSystem.cpp:49-56 | a post keeps a shard's conservation law, its bound of 1001 and the promise of a pending notification |
| Dispatcher.WorkedKeeps | ChatServer/LogicSystem.cpp:62-89 | so does every step of the worker, and what it finishes is appended to the handled messages |
| Dispatcher.StepKeepsInv | ChatServer/LogicSystem.cpp:38-89 | every event of any thread keeps, for all shards at once, handled ++ in hand ++ queued = accepted, that a sleeping worker with work has a notification coming, and that each shard's logs are its share of the global ones |
| Dispatcher.RunKeepsInv | ChatServer/LogicSystem.cpp:38-106 | hence all of it holds in every run with any positive number of workers |
| Dispatcher.PerUserOrder | ChatServer/LogicSystem.cpp:38-96 | for every user the handled messages, then those in hand and queued, are the accepted ones: in order, none twice, none missing |
| Dispatcher.PostIsAcceptedIff | ChatServer/LogicSystem.cpp:38-60 | in every run, while the shard's lock is free, a post is accepted, behind all others, iff at most 1000 messages of the shard wait, and leaves no trace otherwise |
| Progress.EverythingCanBeHandled | ChatServer/LogicSystem.cpp:38-81 | from every state before stop, worker steps and the notifications of posts already made can bring everything accepted to be handled: no wake-up is lost |
| Shutdown.DrainPoint | ChatServer/LogicSystem.cpp:83-89 | a worker past its drain lock took it at one event, and its cut is what the shard had accepted by then |
| Shutdown.LosslessShutdown | ChatServer/LogicSystem.cpp:62-89 | an exited worker has handled exactly, in order, what its shard accepted before it took the drain lock; the rest is still queued |
| Shutdown.ShutdownDescends | ChatServer/LogicSystem.cpp:876-886 | after stop each worker step lowers a measure that no event, posts included, can raise, so shutdown takes boundedly many steps |
| Shutdown.StuckIffHung | ChatServer/LogicSystem.cpp:66-72 | after stop no event a worker is due moves it iff it has exited, or sleeps with its notifications spent and close()'s among them having come between its test and its sleep |
| Shutdown.HangsIffDeciding | ChatServer/LogicSystem.cpp:876-880 | some continuation after stop, without spurious wake-ups or posts to the shard, leaves a worker hung iff it is between test and sleep when stop is raised |
| Shutdown.ShutdownCompletesIff | ChatServer/LogicSystem.cpp:876-886 | from every state shutdown can get to, whatever is posted meanwhile, worker steps and due notifications can bring all workers to their exits, iff none was between test and sleep when stop was raised |
| Shutdown.WorkersExit | ChatServer/LogicSystem.cpp:62-89 | such a sequence of due events for any number of workers |
| Shutdown.HungStaysHung | ChatServer/LogicSystem.cpp:66-72 | such a worker sleeps on through every run without a spurious wake-up or a post to its shard |
| Shutdown.ShutdownCanHang | ChatServer/LogicSystem.cpp:876-880 | for any number of workers and any one of them there is a run that ends that way |
| LogicSystem.LogicSystem.constructor | ChatServer/LogicSystem.cpp:98-106 | one empty queue per hardware thread, four if their number is unknown; the model's initial state |
| LogicSystem.LogicSystem.GetQueueIndex | ChatServer/LogicSystem.cpp:91-96 | the queue chosen is the user's shard |
| LogicSystem.LogicSystem.PostMsgToQueue | ChatServer/LogicSystem.cpp:38-60 | posting is the model's post event: with at most 1000 queued on the user's shard the message is appended there and accepted, else nothing changes |
| LogicSystem.LogicSystem.Take | ChatServer/LogicSystem.cpp:65-77 | the locked region of the worker loop is its model step: the front message, taken from its queue, or none iff stopping or empty |
| LogicSystem.LogicSystem.DrainAndExit | ChatServer/LogicSystem.cpp:83-89 | the final loop handles everything queued once, in order, empties that queue and changes no other |
| Registry.RegistryIsHistory | StatusServer/StatusServiceImpl.cpp:91-199 | a name is in the table iff since some registration its renewals never left six ticks unrenewed; its counter is then the ticks since its last renewal, at most 5 |
| Registry.AddressIsLatest | StatusServer/StatusServiceImpl.cpp:91-109 | a listed server has the host and port of its latest registration, or of the configuration |
| Balancer.Select | StatusServer/StatusServiceImpl.cpp:131-149 | the running minimum yields the first server of the walk with the least count, or the remembered one iff no count is below INT_MAX |
| Balancer.ChoiceIsLeast | StatusServer/StatusServiceImpl.cpp:134-149 | while the integer limit is not exhausted the choice is a registered server of least count, in any walk order |
| Balancer.GreedyBalance | StatusServer/StatusServiceImpl.cpp:128-158 | if reads see the increments, after any n choices every count is c or c + 1 and n lies between c and c + 1 per server |
| Balancer.IncrementIsInvisible | StatusServer/StatusServiceImpl.cpp:139-152 | an increment adds one to the chosen server's count and to no other, and no read sees it |
| Balancer.ServiceAlwaysPicksFirst | StatusServer/StatusServiceImpl.cpp:134-152 | with GET on the key that HINCRBY writes, every choice is the first server of the walk |
| Balancer.ServiceBalancesOnlyTrivially | StatusServer/StatusServiceImpl.cpp:128-158 | so the counts stay within one of each other iff there is one server or at most one choice |
| Tokens.StoreIsHistory | StatusServer/StatusServiceImpl.cpp:201-221 | the stored entry is the user's latest unconsumed token, stamped with its time of issue plus 300 |
| Tokens.ClockShowsElapsed | StatusServer/StatusServiceImpl.cpp:201-204 | the clock by which tokens expire is the time passed |
| Tokens.TokenIsOneTime | StatusServer/StatusServiceImpl.cpp:52-89 | after any history a check succeeds iff the token is the latest issued to the user, younger than 300 s and not consumed |
| Tokens.SuccessesAreSeparated | StatusServer/StatusServiceImpl.cpp:74-89 | between two successes for a user a token was issued to that user |
| Tokens.SpentAtMostOnce | StatusServer/StatusServiceImpl.cpp:74-89 | a token after which the user is issued no other stays current until a check succeeds with it, and at most one does |
| Tokens.TokensAddUp | StatusServer/StatusServiceImpl.cpp:201-221 | every token issued to a user has been spent, has been replaced, or is in the store |
| TokenRace.MatchesIff | StatusServer/StatusServiceImpl.cpp:74-89 | when calls overlap, a call matches a token iff it is younger than 300 s and nothing of the user has been deleted since it was issued |
| TokenRace.BothMatchIff | StatusServer/StatusServiceImpl.cpp:74-89 | two calls succeed with one token iff both read before the first delete for its user, the later one while the token was valid |
| TokenRace.OneTokenTwice | StatusServer/StatusServiceImpl.cpp:74-89 | such a run, for every user and token |
| TokenRace.DeleteTakesLaterToken | StatusServer/StatusServiceImpl.cpp:218-221 | a delete takes whatever token the user has then, also one issued after its read |
| TokenRace.SerialisedIsCheck | StatusServer/StatusServiceImpl.cpp:74-89 | a call whose two steps are not interrupted is the serialised check |
| StatusService.FirstEntryWins | StatusServer/StatusServiceImpl.cpp:16-43 | a name is configured iff an entry has it, and its address is that of the first such entry |
| StatusService.StatusServiceImpl.constructor | StatusServer/StatusServiceImpl.cpp:16-43 | the table is the configuration, and the remembered server is the first of the table |
| StatusService.StatusServiceImpl.RegisterChatServer | StatusServer/StatusServiceImpl.cpp:91-109 | registration is the registry's register step |
| StatusService.StatusServiceImpl.Heartbeat | StatusServer/StatusServiceImpl.cpp:111-126 | a heartbeat is the renew step and is refused iff the name is not listed |
| StatusService.StatusServiceImpl.HealthCheck | StatusServer/StatusServiceImpl.cpp:167-199 | the loop that erases at its iterator or advances it visits the entries in their initial order, each exactly once; it leaves the registry's tick, deletes the counts of exactly the evicted servers, and what is left is a walk of the new table |
| StatusService.StatusServiceImpl.CheckEntry | StatusServer/StatusServiceImpl.cpp:174-197 | one entry: erased with its count and the iterator at the next one, or counted silent and the iterator advanced |
| StatusService.StatusServiceImpl.ChoseChatServer | StatusServer/StatusServiceImpl.cpp:128-158 | the loop returns the selected entry's address, increments its count and remembers it |
| StatusService.StatusServiceImpl.GetChatServer | StatusServer/StatusServiceImpl.cpp:52-72 | the reply names a registered server of least read count when there is one below INT_MAX, and the returned token is the one issued |
| StatusService.StatusServiceImpl.CheckToken | StatusServer/StatusServiceImpl.cpp:74-89 | the check answers and consumes as the token history says |
| LoginGate.SessionIsHistory | ChatServer/CSession.cpp:115-118 | a session is authenticated iff it was granted a login, and its uid is that of its latest one |
| LoginGate.LoginConsumesToken | ChatServer/CSession.cpp:115-140 | a granted login consumes a token issued to that user less than 300 s before, which is never current again |
| LoginGate.OnlyTokenHoldersPost | ChatServer/CSession.cpp:97-165 | in every run a posted node comes from a session whose latest login was granted for the node's uid against such a token, and its shard is that uid's |
| LoginGate.MessageIsPostedOrRefused | ChatServer/CSession.cpp:152-164 | in every run a message that is no ping and no login is posted unchanged under the uid of its session's latest granted login; if there has been none it is not, and the session is told that its token is invalid |
| LoginGate.LoginIsAnswered | ChatServer/CSession.cpp:108-149 | in every run a login is granted iff the answer arrives and the token is the user's current one, younger than 300 s; what is replied in each case, and that the token is consumed iff it was valid and the call got through |
| LoginGate.PingIsAnswered | ChatServer/CSession.cpp:100-106 | a ping is answered whatever the session's state and does nothing else |
| LoginGate.AuthenticationIsMonotone | ChatServer/CSession.cpp:117-118 | a session once authenticated stays so |
| LoginGate.FateOfToken | ChatServer/CSession.cpp:115-140 | in every run a token, no other being issued to the user after it, is current until it is used up by a granted login or by a valid one whose answer is lost, which happens at most once; it is gone without a login iff an answer was lost |
| LoginGate.TokensAreAccountedFor | ChatServer/CSession.cpp:115-140 | tokens issued to a user are as many as its granted logins, its lost answers, the replaced tokens and the stored one together |
| LoginGate.AskStatusServer | ChatServer/StatusGrpcClient.cpp:94-123 | anything but an answer is RPC_FAILED; the token is checked and consumed unless the call did not get through |
| LoginGate.Gate.HandleMessage | ChatServer/CSession.cpp:97-165 | the branches of handleMessage: reply ids and errors, effect on session, token store and session map, the channel subscribed to; a message that is no ping and no login is posted iff the session is authenticated, else refused |
| Pipeline.PushedIsAccepted | ChatServer/LogicSystem.cpp:38-60 | what sessions have got queued is what the dispatcher has accepted, in order |
| Pipeline.SessionIsInOrder | ChatServer/CSession.cpp:84-95 | of a session's posts the queued ones are those it sent, in order, without the dropped ones and the one it is still handing over |
| Pipeline.ArrivalIsHandled | ChatServer/CSession.cpp:84-95 | a session not handing anything over handles what arrives and goes on to hand over what that posts |
| Pipeline.ReturnedIsQueuedIff | ChatServer/LogicSystem.cpp:48-60 | in every run handing over ends as soon as the lock is free, the post being queued iff at most 1000 messages of its shard were waiting |
| Pipeline.OnlyFullShardsDrop | ChatServer/LogicSystem.cpp:48-60 | in every run what a session has sent is what has been queued for it, what came to a shard with more than 1000 waiting, and what it is handing over |
| Pipeline.HandledWasSentByTokenHolders | ChatServer/CSession.cpp:97-165 | end to end: what is handled for a user is, in order, a prefix of what was queued under it; all of that was posted by sessions that had logged in as that user with a token issued to it, each session's posts in the order sent |
| Rendering.DetourIsInvisible | ChatServer/LogicSystem.cpp:746-870 | for all six kinds the subscriber renders the published record to the same id and fields as the local branch, friend authorisation swap included, for the same addressee |
| Handover.RemoteAddresseeGetsCopy | ChatServer/LogicSystem.cpp:746-836 | an addressee with no session at the origin but one kept on a server subscribed to its channel is handed there, once the callback's loop is done, what the origin would have sent |
| Handover.CrossingIsHandedOver | ChatServer/LogicSystem.cpp:291-341 | such a run exists for every sender, addressee and content: two servers, the addressee on the other one |
| Routing.InvHolds | ChatServer/LogicSystem.cpp:291-341 | in every run every loop goes back to the event that read its addressees: its notice copies a row saved by then, and what is left to visit are addressees, for a group members, as they were then; every record on a channel copies a saved row |
| Routing.StartIsOneEvent | ChatServer/LogicSystem.cpp:537-545 | that event is one, and it is a handler's on the same server or its subscriber callback |
| Routing.RoutingSafety | ChatServer/LogicSystem.cpp:511-572 | each event hands over at most one notification, to the session then held for that uid, with id, sender, content, time and image as its notice says; a chat one copies a row saved when its loop started, a single one reaches the row's addressee, a group one somebody other than the sender who was a member when that loop read the members; a friend request reaches the user it is made to, the answer the user who made it |
| Routing.SendIsSaved | ChatServer/LogicSystem.cpp:291-315 | a message sent is one new row with its sender, addressee and content, and its handler goes on with exactly that message |
| Routing.GroupSendIsSaved | ChatServer/LogicSystem.cpp:511-528 | and so for a group |
| Routing.LoopIsStarted | ChatServer/LogicSystem.cpp:746-836 | every saved message, friend notice and record taken gets a loop over all its receivers, relaying unless it is the callback's |
| Routing.MembersAreLatest | ChatServer/LogicSystem.cpp:531 | the members of a group are those set last |
| SessionMgr.HeldIsLatest | ChatServer/SessionMgr.cpp:8-30 | the map holds a session for a uid iff it was the last added for it and nothing was removed under that uid since |
| SessionMgr.RoutesToLatest | ChatServer/CSession.cpp:120-123 | in every run of the servers each routes to the session a uid logged in with last there, unless the uid has been removed since |
| SessionMgr.ChannelIsLatest | ChatServer/CSession.cpp:122-123 | in every run a server is subscribed to a user's channel iff the user has logged in there since it was last unsubscribed |
| SessionMgr.SessionMgr.AddSession | ChatServer/SessionMgr.cpp:8-12 | afterwards the uid's session is this one and every other uid's is what it was |
| SessionMgr.SessionMgr.RemoveSession | ChatServer/SessionMgr.cpp:14-21 | afterwards the uid has no session, whoever added it, and every other uid's is what it was |
| SessionMgr.SessionMgr.GetSessionByUid | ChatServer/SessionMgr.cpp:23-30 | a session is returned iff by the history it is the one held |
| SessionMgr.FanOut | ChatServer/LogicSystem.cpp:545-565 | the member loop sends, in order, to every other member with a session and publishes for every other one without |
| SessionMgr.FanOutServesAll | ChatServer/LogicSystem.cpp:545-565 | the loop passes over nobody but the sender of a group message: who has a session is sent the notification, who has none is published for |
| SessionMgr.JobIsFanOut | ChatServer/LogicSystem.cpp:545-565 | a routing job that is not interrupted, a handler's or the callback's, does exactly what that loop does, down to each server's inbox |
| LeasePool.StepKeepsInv | ChatServer/MySQLMgr.cpp:49-104 | free and leased sessions always add up to the pool |
| LeasePool.EnoughSessions | ChatServer/MySQLMgr.cpp:861-902 | with more sessions than concurrent createGroup calls no reachable state is stuck, whatever else leases single sessions |
| LeasePool.DeadlockIff | ChatServer/MySQLMgr.cpp:861-902 | the bound is tight: a stuck state is reachable iff there are at least as many createGroup calls as sessions |
| LeasePool.RunsTerminate | ChatServer/MySQLMgr.cpp:861-902 | each step a caller can take lowers a measure |
| LeasePool.EverybodyFinishes | ChatServer/MySQLMgr.cpp:861-902 | above the bound every run can be completed with all callers done |
| LeasePool.HardwareSizedPoolCanDeadlock | ChatServer/MySQLMgr.cpp:483 | one createGroup per worker can deadlock a pool of the same size |
| LeasePool.MySQLConnectPool.GetSession | ChatServer/MySQLMgr.cpp:49-73 | the last session of the list as the caller's step of the lease model, or none once stopped |
| LeasePool.MySQLConnectPool.ReturnSession | ChatServer/MySQLMgr.cpp:80-104 | a healthy session goes back to the end of the list as the caller's step of the lease model; a broken one is lost; a null one asks for a reconnect |
| LeasePool.AddGroupMember | ChatServer/MySQLMgr.cpp:885-902 | leases and returns in the two steps of the model, on the path that returns and on the one that catches |
| LeasePool.CreateGroup | ChatServer/MySQLMgr.cpp:861-883 | with two sessions to lease it takes exactly the model's steps to the caller's end and leaves the pool as it was; a throwing INSERT gives 0, and the id does not depend on the nested insert |
| RedisPool.ConstructedInv | ChatServer/RedisMgr.cpp:412-478 | construction accounts for every place of the pool, idle or left to the top-up thread |
| RedisPool.StepKeepsInv | ChatServer/RedisMgr.cpp:480-512 | gets, returns, reconnects and top-ups keep every connection in one place and the places adding up to the size |
| RedisPool.PoolConservation | ChatServer/RedisMgr.cpp:412-567 | idle, lent, reconnecting and remaining top-ups never exceed the size, closed or not; once top-up is done they change only by what is dropped at or after close |
| RedisPool.NothingDroppedBeforeClose | ChatServer/RedisMgr.cpp:473-512 | before close nothing is dropped, although a pool without a connection starts stopped |
| RedisPool.LiveIsConstantBeforeClose | ChatServer/RedisMgr.cpp:412-567 | so before close idle, lent and reconnecting together are constant once top-up is done |
| RedisPool.RedisConnectPool.GetConnection | ChatServer/RedisMgr.cpp:480-497 | the oldest idle connection, lent to nobody else; none once stopped |
| RedisPool.RedisConnectPool.ReturnConnection | ChatServer/RedisMgr.cpp:499-512 | a healthy connection becomes idle again or, once stopped, is dropped; a broken one is replaced by a reconnect |
| RedisPool.RedisConnectPool.CloseAll | ChatServer/RedisMgr.cpp:519-528 | nothing idle is left, the pool is stopped, and what is lent stays lent |
| RedisPool.RedisConnectPool.TopUpAttempt | ChatServer/RedisMgr.cpp:443-465 | a top-up that connects adds one connection and lifts the initial stop |
| RedisPool.RedisConnectPool.FinishReconnect | ChatServer/RedisMgr.cpp:534-567 | a reconnect adds exactly one connection |
| RedisPool.AcceptedReplies | ChatServer/RedisMgr.cpp:21-318 | which reply each command takes for success |
| RedisPool.RedisConnectPool.Execute | ChatServer/RedisMgr.cpp:21-318 | every command, whatever its reply, leases once and returns that lease once, or neither once stopped; it succeeds iff the reply is one it takes, and a value read is the reply's string |
| PoolWaiters.StrandedIff | ChatServer/RedisMgr.cpp:427-497 | a caller can be left asleep beside an idle connection with nobody woken iff not every connection was opened at construction and the pool has more than one place |
| PoolWaiters.AlwaysServed | ChatServer/RedisMgr.cpp:480-512 | otherwise, in every run, every idle connection has a woken caller coming for it as long as anybody sleeps |
| PoolWaiters.CallersMove | ChatServer/RedisMgr.cpp:480-531 | a caller entering or resuming takes the front connection, sleeps, or leaves with nothing once stopped; a returned or reopened connection wakes one sleeper, close() all, a top-up none |
| PoolWaiters.SleepsOn | ChatServer/RedisMgr.cpp:460-465 | such a caller sleeps until a connection comes back, the pool is closed or it wakes by itself; neither other callers nor top-ups wake it |
| Friendship.TablesInvariant | ChatServer/MySQLMgr.cpp:594-685 | in every run the lower uid of a friendship comes first, no unordered pair occurs twice, no ordered pair has two pending requests |
| Friendship.FriendshipIsMutual | ChatServer/MySQLMgr.cpp:687-716 | two users are in each other's friend list equally often: once if the pair is stored, else never |
| Friendship.FriendsIffRelated | ChatServer/MySQLMgr.cpp:654-685 | in every run two users are friends iff they have been related, in either order |
| Friendship.RequestIsAnswered | ChatServer/MySQLMgr.cpp:594-652 | in every run a request that was made keeps its row, uids and number, and its status is the latest answer to it, or pending |
| Friendship.MatchesAtMostOnce | ChatServer/MySQLMgr.cpp:697-701 | the OR-join yields a friend once, from the one row of the pair |
| Friendship.FriendTables.AddFriendRequest | ChatServer/MySQLMgr.cpp:594-632 | inserts and succeeds iff not friends in either order, nothing pending and both users exist |
| Friendship.FriendTables.UpdateFriendRequestStatus | ChatServer/MySQLMgr.cpp:634-652 | the row with that id is accepted iff the answer is, else rejected, and every other row is as before; success is reported even if there is none |
| Friendship.FriendTables.AddFriendRelation | ChatServer/MySQLMgr.cpp:654-685 | stores the ordered pair once; succeeds iff it was stored or both are users |
| FriendRace.FriendshipsSurvive | ChatServer/MySQLMgr.cpp:654-685 | however the steps of calls interleave, the lower uid of a friendship comes first and no pair is stored twice |
| FriendRace.InsertDuplicatesIff | ChatServer/MySQLMgr.cpp:594-632 | in every run an INSERT leaves its pair with two pending requests iff one has been inserted for it since the call asked and is still unanswered |
| FriendRace.DuplicatesReachableIff | ChatServer/MySQLMgr.cpp:594-632 | some run leaves two pending requests from one uid to another iff both are users |
| FriendRace.UninterruptedRequest | ChatServer/MySQLMgr.cpp:594-632 | a call whose steps are not interrupted is the atomic request |
| FriendRace.UninterruptedRelation | ChatServer/MySQLMgr.cpp:654-685 | and so for a relation |
| Messages.ReverseRows | ChatServer/MySQLMgr.cpp:802 | the in-place reverse |
| Messages.GetHistory | ChatServer/MySQLMgr.cpp:771-807 | a page: oldest message first, exactly the conversation's messages with at least `offset` and fewer than `offset + count` newer ones; negative bounds give none |
| Messages.PageIsWindow | ChatServer/MySQLMgr.cpp:784 | the query's limited order, reversed, is that page |
| Messages.SavedIsInHistory | ChatServer/MySQLMgr.cpp:781-783 | a saved message is in the history of its two users, whichever asks, and of no others; a group message in that of its group |
| Messages.OrderIsDescending | ChatServer/MySQLMgr.cpp:784 | ORDER BY yields the same rows strictly newest first |
| Messages.PagesAreOnePage | ChatServer/MySQLMgr.cpp:771-807 | consecutive pages, oldest first, are together one page of their joint size |
| Messages.PagingPartitions | ChatServer/MySQLMgr.cpp:771-807 | enough pages of any size are the whole conversation, chronological, with no gap and no repeat; also for groups |
| Messages.HistoryIsSymmetric | ChatServer/MySQLMgr.cpp:781-787 | the history is the same whichever of the two users asks |
| Messages.RowsAreSaves | ChatServer/MySQLMgr.cpp:750-769 | the table's rows are the saves made by existing users, each one kept |
| Messages.HistoryIsPrivateIff | ChatServer/MySQLMgr.cpp:781-784 | after a run of saves no page of two users' history shows a group message iff neither of them has posted to a group whose id is the other's uid |
| Messages.HistoriesArePrivateIff | ChatServer/MySQLMgr.cpp:781-784 | in all runs whose private messages go to users and whose group messages go to groups, all users' histories are free of group messages iff no group has the id of a user |
| Messages.UncheckedHistoriesArePrivateIff | ChatServer/MySQLMgr.cpp:1067-1085 | in all runs, the saves being unchecked, they are so only if there are no users |
| Messages.OnePostLeaks | ChatServer/MySQLMgr.cpp:1067-1085 | for any two users one post shows in their history, whether or not such a group exists |
| LastMessages.LatestIsMaximum | ChatServer/MySQLMgr.cpp:822-830 | the grouped subquery holds, for exactly the user's contacts, the greatest id of a message with them |
| LastMessages.QueryIsLastPerContact | ChatServer/MySQLMgr.cpp:819-831 | joining it back returns exactly the messages that are last with their contact, each once |
| LastMessages.OneRowPerContact | ChatServer/MySQLMgr.cpp:819-850 | one row for every contact, and the SQL and the recomputed contact agree on it, self-messages included |
| LastMessages.GetLastMessages | ChatServer/MySQLMgr.cpp:837-853 | newest first, the messages that are last with their contacts and have fewer than `count` newer such ones, each paired with its contact |
| LastMessages.LimitKeepsNewest | ChatServer/MySQLMgr.cpp:832-833 | no conversation left out by the limit is more recent than one kept |
| LastMessages.NoneHiddenIff | ChatServer/MySQLMgr.cpp:819-831 | in all runs whose private messages go to users and whose group messages go to groups, each private message sent or received and each own group post has a row of its contact and kind iff no group has the id of a user |
| LastMessages.PrivateLastIsShown | ChatServer/MySQLMgr.cpp:819-831 | in such a run, ids being disjoint, the last message of every private conversation is shown to both users |
| LastMessages.GroupLastIsShownIff | ChatServer/MySQLMgr.cpp:829 | in such a run, ids being disjoint, a group's last message is shown to a user iff that user sent it |
| LastMessages.GroupHasRowIff | ChatServer/MySQLMgr.cpp:829 | and a group has a row for a user iff the user has posted to it, the row being one of the user's own |

## Left out

- Sockets, asio scheduling, gRPC, the MySQL and Redis wire protocols: reads and writes are steps that deliver
  bytes or fail, the stores are maps and tables, and calls to StatusServer may fail as a whole.
- JSON text: messages are records; a login body is what the parser finds in it; in Rendering an absent key and
  a null one are the same.
- CSession.MakeNode: requires a total length of 0..32763, for the reason given for Send.
- CSession.SendSide.Send: requires a total length of 0..32763; beyond it the 16-bit total length wraps and the
  send has no meaning.
- CSession.ReadSide.Arrive: read errors are not modelled; their effect on the session map is Routing's
  RemoveSession event.
- Dispatcher.RunKeepsInv: a message's handler is one step between taking it and finishing it, and handlers do not post;
  exceptions inside handlers count as finishing, and a handler that never ends is not modelled.
- Registry.RegistryIsHistory: `lastHeartbeatTime` and `lastRedisUpdateTime`, which only feed a log line, are not
  modelled.
- Balancer.GreedyBalance: counts are never lowered during a run; chat servers write other keys than the ones
  read here, and their decrement command does not exist in Redis.
- Balancer.ServiceAlwaysPicksFirst: the walk order is fixed, as that of an unchanged hash table is.
- Tokens.TokenIsOneTime: RPCs are serialised and the store works, so the read, comparison and deletion of a
  check are one step; TokenRace has them apart.
- StatusService.StatusServiceImpl.GetChatServer: the null-request check is not modelled, and the count strings
  read are numbers.
- LoginGate.Gate.HandleMessage: the initial data sent after a login and the `online_users` and connection
  counters.
- Pipeline.HandledWasSentByTokenHolders: a session reads its next frame only after postMsgToQueue returns;
  sessions that are closed meanwhile are not modelled.
- Routing.RoutingSafety: groups may be handed several copies, since every server that receives one record
  serves all its local members; exactly-once is not claimed, nor that a uid in the map has a live session.
- SessionMgr.FanOut: the response to the sender is not modelled; a failed save sends nothing and is no event.
- LeasePool.CreateGroup: the method covers a call that finds a second session free; one that has to wait for it
  is a caller in phase InnerWait of the lease model.
- LeasePool.EnoughSessions: sessions are healthy; what `reconnect` adds by counting idle sessions only is not
  modelled.
- RedisPool.RedisConnectPool.Execute: one method stands for the sixteen command methods, which have the same
  paths and differ in the replies they take.
- RedisPool.PoolConservation: the constructor finishes before its background thread starts; connections
  leaked on a failed authentication are outside the pool.
- Friendship.TablesInvariant: each operation is one step, as it is not when calls overlap (FriendRace); message
  texts and timestamps are not modelled.
- Messages.GetHistory: rows are returned as records, not as maps of strings; message type and status columns
  are not modelled, and ties in send_time follow one fixed order.
- Group administration beyond createGroup, user search, GateServer, VerifyServer, the Qt client, configuration
  and cryptography: plumbing, or simpler repeats of what is modelled.
