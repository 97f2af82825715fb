# Verified model of the Pokemon room and battle server

The server keeps three stores that are locked separately: the rooms (`RoomManager::rooms_`), the battle
sessions (`BattleEngine::sessions_`) and room data in Redis. Its RPC handlers run several locked operations
each and hold no lock in between. An activity thread, a heartbeat thread, a metrics thread and the graceful
shutdown run beside them. This project states what that arrangement does guarantee, and proves it for every
schedule, every input and any number of threads.

| file | content |
|---|---|
| `Prelude.dfy` | options, lookups, strings cut at a NUL, a few facts about sets, maps and sequences |
| `Activity.dfy` | the simulated player counter and its closed form |
| `RoomIds.dfy` | generated room ids |
| `Rooms.dfy` | the room table: each locked method as one atomic operation; what histories of them keep |
| `RoomManager.dfy` | the room manager class, each method against its atomic operation |
| `RoomLocks.dfy` | the room manager in small steps under its readers-writer lock; refinement to `Rooms` |
| `RoomCount.dfy` | the lock-free room counter at every instant |
| `Drain.dfy`, `Progress.dfy` | the shutdown drain: what it achieves, and that it can always be completed |
| `Battles.dfy` | the battle engine over an uninterpreted simulator |
| `Keys.dfy` | the Redis key layout of rooms |
| `Handlers.dfy` | each handler run alone |
| `Server.dfy` | the server as an interleaved step machine, one step per locked method or Redis command |
| `Agreement.dfy` | rooms and sessions agree, and exactly which steps spoil it |
| `Replay.dfy`, `Overlap.dfy` | serial replay of schedules |
| `Turns.dfy` | turn serialisation and isolation of sessions |
| `Mirror.dfy` | where the values in Redis come from, and when they agree with the battle |
| `Redis.dfy` | a store with expiry, and the Redis client's node and room commands |
| `Lease.dfy` | the node lease over time |
| `Departure.dfy` | the lease during shutdown |
| `Pages.dfy` | the replies a SCAN loop gets |
| `Sweeps.dfy` | the SCAN loop that deletes a server's rooms |
| `Scans.dfy` | the SCAN loop that collects rooms, and the metrics count |
| `Service.dfy` | the service class with its handlers and the graceful shutdown; its link to the step machine |
| `Witnesses.dfy` | concrete schedules and stores in which the exceptions below occur |

A schedule is a sequence of actions with the states between them (`IsRun`). An action that is not enabled
leaves the state alone, so a statement about every `IsRun` is one about every interleaving. `RoomLocks`
shows that each locked method of the room manager acts as one atomic operation of `Rooms`; `Server` therefore
takes it as one step. In `Server` the shutdown may raise the flag and close rooms at any moment and in any
order, which covers what `GracefulShutdown` does. Documents and battles are abstract types, and the simulator
is a record of arbitrary functions (`Rules`), so every theorem holds for any simulator.

Some results differ from what one might expect of the server. Each comes with the exact condition, and with a
schedule or a store in which it happens:

- Rooms and sessions do not always agree. A DestroyRoom can close a room between the two halves of its
  CreateRoom. `Agreement.StepAgrees` shows that, before shutdown closes rooms, this is the only step that can
  spoil the agreement. If the destroy then finishes before the session is opened, the create ends with a session
  and no room exactly if its document makes a battle (`Service.OvertakenAlone`), after which no CreateRoom of
  that id that runs alone succeeds (`Witnesses.OvertakenCreateLeavesOrphan`).
- A command can play a turn in a session whose room is already closed (`Witnesses.LateCommandHappens`). The
  serial replay gives a call the reply it gave exactly when it is not such a command (`Replay.SerialReplay`).
- Overlapping commands of one id can leave the older response in Redis (`Witnesses.OlderResponseStays`). What is
  stored is the last store's document, and it is the newest one exactly if no newer turn had been accepted when
  that store was made (`Mirror.RedisFollowsSession`).
- The room counter exceeds the table size by one for every create that stored a room under a drawn id already
  taken, and by nothing else (`RoomCount.CountExactly`, `RoomCount.RepeatedDrawDrifts`).
- A node can be listed again after it has deregistered (`Departure.ListedAfterDeregistration`), exactly while
  one of its own later touches is less than five minutes old (`Departure.RelistedExactly`); it is gone for good
  five minutes after `Stop` has ended (`Departure.GoneForGood`).
- Room data is written under the whole id, but read and deleted through `%s`, which stops at the first NUL. A
  protobuf string may hold one. Destroying room `a\0b` deletes the data of a live room `a` and leaves its own
  (`Keys.NulMisdirectsErase`), a server's rooms can survive their deletion or be deleted without their companions
  (`Witnesses.HiddenRoomStays`, `Witnesses.CompanionStays`), and the global count can be too high or too low
  (`Witnesses.HiddenRoomMiscounted`). `Keys.EraseFrame`, `Mirror.EraseKeepsMirror`, `Sweeps.SweepExactIff` and
  `Scans.GlobalCount` say exactly which ids and keys are affected.

The documentation calls the room value in Redis a room snapshot and the node set the list of nodes; the code
stores battle documents and lists the heartbeat keys. The model follows the code.

## Model

| member | source | states |
|---|---|---|
| Activity.PlayersInRange | src/server/room_manager.cpp:165-183 | occupancy stays between zero and the capacity at every age, and at zero for a capacity that is not positive |
| Activity.RisingBlock | src/server/room_manager.cpp:171-181 | within one block of fifteen ticks below saturation, the exact occupancy after each tick |
| Activity.FullBlock | src/server/room_manager.cpp:171-181 | a block that starts at most two below capacity joins the periodic table by its tenth tick and ends one below capacity |
| Activity.ClosedForm | src/server/room_manager.cpp:165-183 | after 15k ticks a room holds 3k players for k up to a third of the capacity, and one less than the capacity from the next k on |
| Activity.EventualPeriod | src/server/room_manager.cpp:165-183 | from there on the occupancy has period fifteen for every capacity, with the full table of residues |
| RoomIds.GenerateRoomId | src/server/room_manager.cpp:13-32 | the stream loop writes the 8-4-4-4-12 layout of section 4 of RFC 9562 for every sequence of 32 nibbles |
| RoomIds.LayoutShape | src/server/room_manager.cpp:20-29 | 36 characters, dashes at 8, 13, 18 and 23 and nowhere else, hexadecimal digits elsewhere |
| RoomIds.LayoutDigit | src/server/room_manager.cpp:20-29 | digit i of the draw, past the dashes before it, is the lower-case hexadecimal digit of its value |
| RoomIds.StripRecovers | src/server/room_manager.cpp:20-29 | stripping the dashes recovers the drawn digits |
| RoomIds.DistinctDraws | src/server/room_manager.cpp:13-32 | two draws give the same id only if they are the same draw |
| Rooms.EveryRoomEqualsItsAge | src/server/room_manager.cpp:95-106 | after any mix of operations a stored room is the one its last insertion made, aged by the recurrence once per activity pass since, and nothing else about it has changed |
| Rooms.NeverOverfull | src/server/room_manager.cpp:81-86 | no history of operations outgrows the room limit, which is the given one unless that is negative |
| Rooms.AdmitsUpToLimit | src/server/room_manager.cpp:81-106 | with the flag lowered the room manager admits a free id exactly while there are fewer rooms than the given limit, an unsigned comparison, and says so before; the room it then stores, field by field |
| Rooms.AdmitsNothingInMaintenance | src/server/room_manager.cpp:74-79 | with the flag up no operation adds a room |
| Rooms.OthersTell | src/server/room_manager.cpp:112-146 | what lookup, listing, closing and the activity pass report and leave |
| Rooms.StepSize | src/server/room_manager.cpp:63-64 | the counter update of an operation matches the change of table size if and only if it did not overwrite a room under a repeated drawn id |
| RoomManagers.RoomManager.CreateRoom | src/server/room_manager.cpp:34-68 | new contents and counter after a create with a generated id, refusals included |
| RoomManagers.RoomManager.CreateRoomWithId | src/server/room_manager.cpp:70-110 | new contents and counter after a create with a given id; a refusal is the empty string |
| RoomManagers.RoomManager.GetRoomStatus | src/server/room_manager.cpp:112-124 | the stored room, or nothing when there is none |
| RoomManagers.RoomManager.CloseRoom | src/server/room_manager.cpp:126-140 | exactly that room goes and the counter drops, or nothing changes |
| RoomManagers.RoomManager.UpdateRoomActivity | src/server/room_manager.cpp:165-183 | the in-place loop over the map amounts to one pointwise tick of every room |
| RoomManagers.RoomManager.SetMaintenanceMode | src/server/room_manager.h:57-60 | only the flag changes |
| RoomLocks.LockRun | src/server/room_manager.cpp:72-72 | in every schedule there is one writer or many readers, and the lock knows exactly who is inside |
| RoomLocks.StepRefines | src/server/room_manager.cpp:70-110 | every small step either performs one whole atomic operation, and settles its result, or changes nothing as the atomic view sees it, although flag, map and counter are accessed at different times |
| RoomLocks.PromiseKept | src/server/room_manager.cpp:70-110 | no step of any thread changes a result once it is settled |
| RoomLocks.RunRefines | src/server/room_manager.cpp:34-183 | every schedule of small steps is a history of whole operations in the order in which they took effect, with the table of the history at every moment |
| RoomLocks.ResultsRefine | src/server/room_manager.cpp:34-183 | in every schedule the result a call is bound to, from the moment it is settled to its return, is the result of its own operation at its place in that history, and that place lies between the call and its return |
| RoomLocks.RoomsKeepTheirAge | src/server/room_manager.cpp:165-183 | under every schedule a room seen while nobody writes is as old as the activity passes since its insertion |
| RoomCount.CountExactly | src/server/room_manager.cpp:53-64 | in every schedule and for every limit, counter plus the update under way is the table size plus the number of creates so far that overwrote a room under a drawn id; so with no writer it is right if and only if there was none |
| RoomCount.CountAlwaysSafe | src/server/room_manager.cpp:148-151 | as long as there was none, at every instant, inside critical sections too, the counter is between zero and the capacity, at most one away from the table size, and equal to it when nobody writes |
| RoomCount.RepeatedDrawDrifts | src/server/room_manager.cpp:53-64 | a schedule in which a repeated draw leaves the counter one too high |
| Drain.DrainedForGood | src/server/game_server.cpp:442-463 | under every schedule the table is empty when the closing loop of shutdown has ended, and in every later state |
| Drain.DrainedCount | src/server/game_server.cpp:442-463 | and then the counter, whenever nobody writes, is the number of creates that overwrote a room: zero if and only if there was none |
| Progress.ShutdownCanEnd | src/server/game_server.cpp:438-463 | from every reachable state, whoever is inside the lock and however far shutdown has come, some continuation of the schedule completes the closing loop |
| Battles.BattleEngine.CreateSession | src/server/battle_engine.cpp:12-51 | the session map after the call; only a free, non-empty id with a valid document gets a session |
| Battles.BattleEngine.ProcessTurn | src/server/battle_engine.cpp:53-98 | the session map after the call; the result is true if and only if there was a session and its response to the turn says `ok` |
| Battles.BattleEngine.GetState | src/server/battle_engine.cpp:100-136 | the document of the session, or nothing |
| Battles.BattleEngine.DestroySession | src/server/battle_engine.cpp:138-142 | exactly that session goes |
| Battles.Play | src/server/battle_engine.cpp:53-98 | a turn is accepted if and only if the response says `ok`, the response is the simulator's either way, and the battle moves on either way |
| Handlers.CreateAllOrNothing | src/server/game_server.cpp:44-132 | when exactly a CreateRoom that runs alone succeeds, up to the given limit, and that every other outcome leaves all three stores as they were |
| Handlers.CreateReplyTells | src/server/game_server.cpp:51-114 | for each status and code of a CreateRoom the exact cause |
| Handlers.CreateStores | src/server/game_server.cpp:93-126 | the room, the session and the Redis value that a successful create leaves |
| Handlers.CommandReplyTells | src/server/game_server.cpp:140-205 | for each status and code of a SendCommand the exact cause; a rejected turn changes the battle and stores nothing, an accepted one stores its response |
| Handlers.DestroyReplyTells | src/server/game_server.cpp:245-272 | a DestroyRoom finds exactly the stored rooms, and what it then takes out of each store |
| Handlers.DestroyUndoesCreate | src/server/game_server.cpp:245-272 | a DestroyRoom restores the rooms and sessions from before the CreateRoom; the stored state goes too, unless the id holds a NUL, and then it stays |
| Handlers.DestroyedIsGone | src/server/game_server.cpp:140-147 | after a DestroyRoom, commands and further destroys on the id are not found and change nothing |
| Service.GameService.CreateRoom | src/server/game_server.cpp:44-132 | the handler over the three objects does what its sequential description says, status and code included |
| Service.GameService.SendCommand | src/server/game_server.cpp:134-243 | likewise for commands |
| Service.GameService.DestroyRoom | src/server/game_server.cpp:245-272 | likewise for destroys |
| Service.GameService.GetHeartbeat | src/server/game_server.cpp:274-292 | reports counter and capacity, and extends the lease of this node |
| Service.GameService.GracefulShutdown | src/server/game_server.cpp:438-472 | run alone, it closes every room, keeps sessions and room data, and deregisters the node |
| Service.InsertAlone | src/server/game_server.cpp:93-114 | inserting the room, opening the session and, if that fails, taking the room out again by a separate locked call amount to the create that runs alone, so a failed create ends with the table it found |
| Service.AloneServes | src/server/game_server.cpp:44-272 | the steps of a handler that nobody interrupts amount to its sequential description, for every request and every state |
| Server.OtherIds | src/server/game_server.cpp:44-272 | a handler's step leaves room and session of every other id as they were |
| Server.BesideEffects | src/server/game_server.cpp:438-463 | the activity pass, an expiring key and shutdown's flag and closes reach one store each |
| Server.MaintenanceAddsNothing | src/server/game_server.cpp:442-442 | in every schedule no room is added after shutdown has raised the flag, not even by a create under way |
| Agreement.StepAgrees | src/server/game_server.cpp:93-114 | a step keeps an id in one of its five phases if and only if it is neither a DestroyRoom that closes a room with a pending creator nor a close by shutdown |
| Agreement.RunAgrees | src/server/game_server.cpp:93-114 | in every disciplined schedule each id is in one of the five phases, with at most one pending creator and one pending destroyer |
| Agreement.QuiescentAgreement | src/server/game_server.cpp:251-262 | with none of its handlers in flight an id has a room if and only if it has a session |
| Witnesses.OvertakenCreateLeavesOrphan | src/server/game_server.cpp:93-114 | the discipline is needed: two successful calls leave a session without a room, which blocks the id |
| Service.OvertakenAlone | src/server/game_server.cpp:102-114 | an overtaken create whose session is gone too ends with a session and no room if and only if its document makes a battle |
| Replay.ReplayRun | src/server/game_server.cpp:44-272 | at every moment of a disciplined schedule the serial world holds exactly the live rooms with their sessions |
| Replay.SerialReplay | src/server/game_server.cpp:44-272 | with nothing in flight, rooms and sessions are those of running the effective calls one at a time; replies agree exactly for the calls that are not late |
| Witnesses.LateCommandHappens | src/server/game_server.cpp:140-177 | a disciplined schedule in which a command plays its turn after its room was closed, so that the replay does not give its reply |
| Replay.LogRun | src/server/game_server.cpp:44-272 | every logged handler is bound to its logged reply, every success is logged, no handler is logged twice |
| Replay.LogRequests | src/server/game_server.cpp:44-272 | every log entry holds the request its handler was called with |
| Replay.RealTimeOrder | src/server/game_server.cpp:44-272 | a call that had finished before another began comes before it in the replay |
| Overlap.NonOverlappingReplay | src/server/game_server.cpp:44-272 | if no CreateRoom or DestroyRoom overlaps another handler on its id, every replayed call gets the very reply it gave, within the room limit |
| Turns.TurnSerialisation | src/server/battle_engine.cpp:53-98 | in every schedule a session is the battle made from its init document, taken through its turn requests since then in lock order |
| Turns.SessionPresent | src/server/battle_engine.cpp:39-50 | an opened session stays until it is dropped |
| Turns.Isolation | src/server/battle_engine.cpp:100-136 | an action without an event for an id, reading its state included, leaves its session alone |
| Mirror.StoredValuesAreGenuine | src/server/game_server.cpp:116-126 | under every interleaving each room value in Redis was read from a session of the id in its key, or is the response of such a session to a turn, and says `ok` |
| Mirror.LastStoreHolds | src/server/game_server.cpp:116-205 | under every interleaving, with failing commands and expiring keys, the key of an id holds the document of the last store, until an erasure that reaches it or its expiry |
| Mirror.RedisFollowsSession | src/server/game_server.cpp:170-205 | however the commands of an id overlap (its creates and destroys apart), and whichever rooms shutdown closes, between its handlers the key is there if and only if the session is, and holds the newest document if and only if no newer turn had been accepted when the last store was made |
| Mirror.RedisAgrees | src/server/game_server.cpp:461-462 | with the handlers of an id serialised and data erasures reaching its key exactly when they are its own, between them the key is there if and only if the session is, also after shutdown has closed the room, and if and only if the room is as long as it has not; it holds the last accepted response or the initial state |
| Witnesses.OlderResponseStays | src/server/game_server.cpp:170-205 | a schedule of two overlapping commands that leaves the older response in Redis |
| Mirror.EraseKeepsMirror | src/server/redis_client.cpp:296-301 | the erasure of an id's own data keeps that agreement if and only if the id holds no NUL or nothing was stored; another id's erasure, with no handler of this id in flight, if and only if it does not reach the key of an id with a session |
| Keys.RoomKeyInjective | src/server/redis_client.cpp:255-255 | distinct ids have distinct data keys |
| Keys.KeysAre | src/server/redis_client.cpp:200-224 | the scan pattern matches exactly `pokemon:room:` followed by anything, and the loops skip exactly the keys that end in `:command` |
| Keys.OverlookedRooms | src/server/redis_client.cpp:221-224 | the scans overlook a room exactly when its id is `command` or ends in `:command` |
| Keys.SetFrame | src/server/redis_client.cpp:255-263 | storing the data of a room changes no other room's data |
| Keys.EraseFrame | src/server/redis_client.cpp:296-301 | erasing the data of room r reaches, for r without a NUL, exactly r and r + `:command`, and otherwise exactly the room whose id is r cut at its first NUL |
| Keys.OwnDataErased | src/server/redis_client.cpp:296-301 | the data of a room goes with its own erasure if and only if its id holds no NUL |
| Keys.NulMisdirectsErase | src/server/redis_client.cpp:296-301 | two rooms for which it shows: destroying the second deletes the data of the first and keeps its own |
| Redis.RedisClient.TouchNodeHeartbeat | src/server/redis_client.cpp:80-105 | the store after the call; leases under 300 seconds become 300, and the node id is cut at a NUL |
| Redis.RedisClient.RegisterNode | src/server/redis_client.cpp:52-78 | the store after the call, when either of its two commands fails too |
| Redis.RedisClient.UnregisterNode | src/server/redis_client.cpp:107-133 | the store after the call |
| Redis.RedisClient.SetRoomData | src/server/redis_client.cpp:247-284 | the store after the call, with its expiry, and the live strings it leaves |
| Redis.RedisClient.DeleteRoomData | src/server/redis_client.cpp:288-319 | the store after the call: the two names as they arrive, cut at a NUL, are gone |
| Redis.WaitExpires | src/server/redis_client.cpp:260-260 | the passing of time removes exactly the strings whose deadline it reaches and changes no other, which is what the expiry of single keys in `Server` stands for |
| Redis.RoomDataLasts | src/server/redis_client.cpp:260-260 | stored room data can be read for exactly 3600 seconds |
| Redis.RedisClient.GetAllNodes | src/server/redis_client.cpp:135-177 | exactly the non-empty ids with a live heartbeat key, each once |
| Redis.UnregisterFrame | src/server/redis_client.cpp:107-133 | deregistering takes the node of that name, cut at a NUL, and no other node off the list, although the node set goes |
| Lease.ListedExactly | src/server/redis_client.cpp:80-133 | in every timed run a node is listed if and only if its last heartbeat or deregistration was a heartbeat whose lease has not run out |
| Lease.LeaseSafety | src/server/game_server.cpp:394-405 | a node never without a heartbeat for 300 seconds is listed from registration until it deregisters |
| Lease.SilentNodeGone | src/server/redis_client.cpp:80-105 | a node that stops touching is gone within 300 seconds |
| Lease.TouchNeverShortens | src/server/redis_client.cpp:88-92 | with the times to live the server uses no touch shortens a lease |
| Lease.LeaseFrame | src/server/redis_client.cpp:10-11 | no command but a node's own heartbeat and deregistration reaches its lease |
| Departure.GoneForGood | src/server/game_server.cpp:410-423 | in every run the node is off the list for good 300 seconds after `Stop` has ended, even if the deregistration failed |
| Departure.ServingStaysListed | src/server/game_server.cpp:394-405 | a serving node is listed whenever its heartbeat thread lags by less than four minutes, where lag is all time since its last answered touch except its sleeps, plus a minute for each unanswered touch |
| Departure.AtMostOneLateBeat | src/server/game_server.cpp:396-405 | after its flag is cleared the heartbeat thread touches at most once more |
| Departure.BeatsApart | src/server/game_server.cpp:396-405 | in every run two touches of the heartbeat thread are at least a minute apart |
| Departure.TouchesExtend | src/server/game_server.cpp:396-405 | an answered touch of the heartbeat thread, a scrape or a call makes the lease end 300 seconds later |
| Departure.RelistedExactly | src/server/game_server.cpp:465-469 | in every run after an answered deregistration the node is listed if and only if its own heartbeat thread, a scrape or a call touched with an answer since then and less than 300 seconds ago |
| Departure.ListedAfterDeregistration | src/server/game_server.cpp:465-469 | a run in which the heartbeat thread's last touch puts the node back on the list |
| Pages.PageInPlace | src/server/redis_client.cpp:189-242 | every page that a SCAN loop reaches, all replies before it being pages with cursors other than zero, is handed to the loop body whole and right behind those before it |
| Pages.NothingElse | src/server/redis_client.cpp:189-242 | and nothing else is: the loop ends after cursor zero, on a failed reply or when there is no more |
| Pages.ScannedMembers | src/server/redis_client.cpp:334-399 | a key is handed to the loop body if and only if some reached reply returned it |
| Sweeps.SweepIsExact | src/server/redis_client.cpp:334-399 | whatever keys SCAN returns, in any order and however often, and whichever GET and DEL commands fail: exactly which entries are deleted and when a deletion is reported |
| Sweeps.SweepExactIff | src/server/redis_client.cpp:322-402 | given SCAN's guarantee and answers to all commands, in every order exactly the server's rooms and their companions go from what Redis shows, everything else stays and the result tells whether there was such a room, if and only if no live room key with a NUL is one of three kinds that lead the sweep astray |
| Sweeps.SweepRemovesTheServersRooms | src/server/redis_client.cpp:361-387 | without such a key every scan that keeps SCAN's guarantee is exact in that sense |
| Sweeps.StraySpoils | src/server/redis_client.cpp:361-387 | with such a key the scan that returns it first is not |
| Witnesses.HiddenRoomStays | src/server/redis_client.cpp:361-387 | stores in which a room of the server survives its sweep: any two room keys of which the second, cut at its NUL, is the first |
| Witnesses.CompanionStays | src/server/redis_client.cpp:361-387 | such stores in which a room of the server goes without its companion |
| Witnesses.ShadowsExist | src/server/redis_client.cpp:366-366 | the keys of rooms `a` and `a\0b` are two such keys |
| Sweeps.SweepExactWithoutNul | src/server/redis_client.cpp:322-402 | in particular, when no live room key holds a NUL, exactly the non-`:command` room keys whose text has this very `server_id` go with their companions, every other live entry stays, and the result is true if and only if there was such a key |
| Sweeps.ForeignEntryStays | src/server/redis_client.cpp:377-380 | whatever is scanned and fails, an entry whose text does not carry this server's id stays as it is, unless it is the companion of a scanned key whose text does |
| Sweeps.OwnRoomGoes | src/server/redis_client.cpp:366-387 | a scanned room with this server's id whose commands are answered is gone, and the result is true |
| Sweeps.DeleteRoomsForServer | src/server/redis_client.cpp:322-402 | the cursor loop performs that sweep over all keys up to cursor zero or a failed reply |
| Scans.GetAllRoomSnapshots | src/server/redis_client.cpp:179-245 | the cursor loop keeps exactly the hits that are not companions and had a string |
| Scans.KeptConcat | src/server/redis_client.cpp:221-235 | what is kept of one stretch of hits after another is what is kept of each, in order |
| Scans.KeptOne | src/server/redis_client.cpp:221-235 | of a single hit the key and the string are kept, if there was a string and the key does not end in `:command` |
| Scans.CollectMetricsSnapshot | src/server/game_server.cpp:485-541 | local numbers, global count and capacity over exactly the listed nodes, after the pod's own lease is extended |
| Scans.GlobalCount | src/server/game_server.cpp:509-527 | the global count of a scan of an unchanging store is exactly the number of active rooms, plus repetitions of counted keys, plus and minus the rooms with a NUL in their key for which the document of the cut key says otherwise than their own |
| Scans.KeptNext | src/server/game_server.cpp:512-525 | a hit of status 1 under a key that is no companion adds one to the global count, and any other hit nothing |
| Scans.GlobalCountWithoutNul | src/server/game_server.cpp:509-527 | with no NUL in a room key the count is never below the number of live non-`:command` room keys whose text has integer `status` 1, and equal to it if and only if no counted key is repeated |
| Witnesses.HiddenRoomMiscounted | src/server/redis_client.cpp:226-235 | such stores in which a scan without repetitions counts two rooms or none where one is active |
| Scans.NeverUndercounts | src/server/game_server.cpp:512-527 | with concurrent writers too, rooms the scan meets active each time are all counted |

## Left out

- gRPC transport, sockets, the HTTP metrics server, logging, connection handling, `Start` and `main`: input and output, or plain sequences of operations modelled here.
- Response messages: only status and code of a reply are modelled.
- The battle simulator: `BattleSession` and `BattleToJson` are not part of this model; any simulator is allowed.
- JSON parsing and dumping: a payload either parses or not, and a few questions are asked of a document; exceptions that a malformed simulator response could raise in the handlers are not modelled.
- The C++ memory model: the maintenance flag is a sequentially consistent cell, the relaxed counter too, and each Redis command is one atomic step.
- 32-bit overflow of `counter` and `player_count`: they are mathematical integers.
- Floating-point utilisation values and the text of the metrics body.
- Clock and randomness: creation times and drawn nibbles are inputs.
- The in-memory expiry of room data in `Server`: any key may expire at any time, without its 3600 seconds; `Redis.dfy` has the deadlines.
- Service.GameService.CreateRoom: and the other methods of the classes run in one thread; interleaving is modelled by the step machines on values, which share the operations the methods are proved against.
- A Redis command whose reply is lost after it was executed: a command is either executed and answered, or neither.
- Replies of refused calls are not part of the serial replay: a call that fails leaves no trace in rooms and sessions, but may fail because of a room that was in flight.
- Kubernetes, Docker and shell files, and the signal handler.
