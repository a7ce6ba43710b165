# LANssenger: the chat server and its text protocol

LANssenger is a LAN messenger: a C++ server that holds connections, nicknames and chat rooms, and a
Qt client that talks to it in lines of text. This project models the server as a state machine, the
client's side of the protocol, and the framing between the two, and proves what they guarantee.

## What is modelled

- **Server.** `Machine` describes every handler of `src/server/server.cpp` as a function on a state:
  the client map (an id may be mapped to a null socket, because `clients_[id]` inserts one), the active
  users, the rooms, the log of everything written, and whether an exception has ended the process.
  What sockets and hash tables do is the choice of an environment: every write may fail or not, and
  every traversal of an unordered container may take any order that lists each element once.
  `ServerProcess.Server` is the same server as an object whose handlers update fields in place, loop
  over clients and members and append to strings; each method is proved to do what `Machine` says.
  `ActiveUsers` and `ChatRooms` hold the two stores as objects, `Commands` the command parser with its
  loops.
- **Cascade.** A write that fails drops its client, and dropping a client broadcasts a shorter user
  list from inside the loop that noticed. `Cascade` gives the exact account: who is dropped, and which
  lines each survivor gets in which order. It asks the failing sockets to fail, and the others not to,
  only while the handler runs; what they did before and do later is open. `Views` says which list a
  survivor is left with.
- **Runs.** What each kind of event and line does (`Steps`), invariants and safety over every sequence of
  accepts, lines and read errors (`Runs`), which events the process survives (`Survival`), and which
  event wrote which line of a log (`Origins`).
- **Wire.** Both ends read up to a newline with a fresh buffer each time and lose what the last chunk
  brought behind it (`Framing`). The client builds commands with `QString::arg` (`ClientCommands`), the
  server takes them apart with two different tokenisers (`CommandLines`), the server prints listings
  and messages, and the client sorts them into lists and windows (`ClientWindow`, `Listings`).
- **End to end.** `EndToEnd` composes these: room messages from the input field to the receiving
  window, create then join with a password, a join line and what its answer does to the client, and
  whole connections from chunks to server state and from the server's log to the client's view.

Most conditions are exact (if and only if). Where the code does not do what it seems meant to do, the
code is kept, the exact condition is proved, and `Witnesses` gives an input or a run on which it fails:

- After a broadcast in which a write fails, a survivor whose id is greater than some failing id is left
  with an outdated user list that still names the dropped clients (`Views.UpToDateViewIff`,
  `Witnesses.StaleListInRun`); after a chat line it takes two such failing ids (`Views.ChatViewIff`).
- Bytes behind a newline in the same chunk are lost; complete lines can vanish
  (`Framing.FramingIsExactIff`, `Witnesses.SecondLineLost`).
- A room whose name contains `--password` can be created but never has a member
  (`CommandLines.JoinNeverNamesKeyword`, `Runs.KeywordRoomStaysEmpty`, `Witnesses.KeywordInName`).
- A room name with a place marker up to `%2` garbles the commands built from it
  (`ClientCommands.ChainedArgIff`, `Witnesses.MarkerAsName`).
- A room message whose line contains `] 참여 완료` and not `채팅방 참여 실패` is taken for a join
  confirmation and lost; one that contains `채팅방 참여 실패` also warns of a refused join
  (`EndToEnd.RoomLineShownIff`, `Witnesses.ConfirmationPhraseLost`, `Witnesses.RefusalPhraseWarns`).
- A chat line under the nickname `ROOM_MSG`, or one that begins with `ROOM_MSG:`, reaches every client
  in the form of a room message, of any room, even one the sender is not in or that does not exist
  (`Origins.RoomLineOriginIff`, `Origins.ForgedRoomMessage`, `Witnesses.ForgeryInRun`).
- `/room_msg` without a text ends the server process (`Survival.TextlessLineIff`,
  `Witnesses.TextlessLineEndsRun`). So does an answer to a create, join, leave or room-users line that
  cannot be written, and a room message that a live member's socket refuses (`Survival.StepSurvivesIff`,
  `Witnesses.RoomMessageEndsRun`).
- The create dialog asks for a public room when the private box is ticked but no password is given
  (`EndToEnd.CreateArrivesIff`, `Witnesses.PrivateWithoutPassword`).
- A confirmed join of a room whose name holds `]` opens a window with a shorter title
  (`EndToEnd.ConfirmationOpensWindow`).

The repository's README promises more than the code has: a message format with a header, six-digit
room numbers, four-digit passwords, renaming of rooms, invitations and blocking. None of this exists in
the code, so none is modelled; the model follows the code.

## Layout

| file | content |
|---|---|
| `Text.dfy`, `Keys.dfy`, `Lists.dfy` | strings, traversal orders, comma-separated listings |
| `ActiveUsers.dfy`, `ChatRooms.dfy` | the two stores |
| `Commands.dfy`, `CommandLines.dfy` | the command parser and when a line means what it was meant to |
| `Machine.dfy`, `Server.dfy` | the server as a state machine and as an object |
| `Cascade.dfy`, `Runs.dfy` | the cascade's account; properties of whole runs |
| `Steps.dfy` | every kind of event and line, said about the step it makes, with the texts written out |
| `Views.dfy`, `Survival.dfy`, `Origins.dfy` | what survivors of a cascade see last; what the process survives; who wrote which line |
| `Framing.dfy` | read-until-newline over chunks |
| `ClientCommands.dfy`, `ClientWindow.dfy` | what the client sends and shows |
| `Listings.dfy`, `EndToEnd.dfy` | round trips and end-to-end theorems |
| `Witnesses.dfy` | inputs and runs on which the exact conditions fail |

A good order to read: `Machine.dfy`, the theorems of `Cascade.dfy`, `Views.dfy`, `Runs.dfy`, `Steps.dfy`, `Survival.dfy`, `Origins.dfy`, `EndToEnd.dfy`.

## Model

| member | source | states |
|---|---|---|
| Cascade.BroadcastTheorem | src/server/server.cpp:398-433 | If, while the broadcast runs, writes fail exactly on the sockets of a set F of clients, it drops exactly F from both maps; every survivor gets exactly one list per successive user set, one more than F has members, in the order given by how many failing ids are below it; no other socket gets anything |
| Cascade.ChatTheorem | src/server/server.cpp:374-395 | A chat line reaches every survivor exactly once, with exactly one user list per member of F, because the first failure's cascade drops every other failing client |
| Views.UpToDateViewIff | src/server/server.cpp:398-433 | The last list a survivor sees names the current users if and only if no failing id is below its own; otherwise it is the list of before |
| Views.ChatViewIff | src/server/server.cpp:374-395 | After a chat line that drops somebody, the last user list a survivor got is up to date if and only if there are no two failing ids below its own; otherwise it is the list without the first of them |
| Views.NicknameViewIff | src/server/server.cpp:201-210 | The same question after a nickname: up to date if and only if no failing id is below |
| Views.DisconnectViewIff | src/server/server.cpp:172-185 | After a disconnection, likewise, the dropped id itself not counted |
| Views.AcceptViewIff | src/server/server.cpp:106-128 | After a connection, the newcomer included |
| Runs.BroadcastTells | src/server/server.cpp:398-433 | In every environment, writes failing and recovering as they like: whoever is still connected was sent one text, and one more for every client dropped on the way |
| Keys.LessIff | include/server/server.hpp:34 | The order in which the client map is visited: a comes before b exactly if, at the first difference, a ends or has the smaller character, whatever the lengths |
| Keys.LessByFirstDifference | include/server/server.hpp:34 | After a common beginning the first different characters decide, and a text comes before its continuations |
| Runs.ChatTells | src/server/server.cpp:374-395 | The same for a chat line |
| Runs.DisconnectTells | src/server/server.cpp:172-185 | The same for a disconnection: one text for every client that went |
| Cascade.AccountFrom | src/server/server.cpp:415-432 | The loop from any position with all failing ids still ahead: the exact share of lines of every survivor, nested broadcasts included |
| Views.ArrangeClosedForm | src/server/server.cpp:415-432 | With j failing ids below, a survivor sees the lists from the j-th on, then the first j backwards |
| Views.ArrangeKeepsEachLine | src/server/server.cpp:415-432 | Each list arrives exactly once |
| Views.ListsOneSetOnly | src/server/server.cpp:400-411 | A printed list of some of the users is never also a list of all of them |
| Runs.AcceptTheorem | src/server/server.cpp:106-128 | A newcomer is live on a fresh socket as "User" and the number of map entries plus one, or dropped again if its own socket fails; everybody gets the new list, through the whole cascade |
| Runs.NicknameTheorem | src/server/server.cpp:201-210 | Only a known id is renamed, nobody else is, and everybody gets the renamed list |
| Runs.DisconnectTheorem | src/server/server.cpp:172-185 | A known id leaves both maps and everybody left hears of it; a late read error changes nothing |
| Steps.AcceptStep | src/server/server.cpp:106-128 | The accept event: from the state with the newcomer in both maps, on a fresh socket, under "User" and the numeral of the map entries plus one, everybody is told |
| Steps.DecimalIsNumeral | src/server/server.cpp:115 | The numeral is read back as the number and has no leading zero |
| Steps.ReadErrorStep | src/server/server.cpp:164-185 | The read error event: the id is in neither map afterwards; if it was known everybody left is told from the state without it on; a late one changes nothing |
| Steps.ReadErrorInRun | src/server/server.cpp:164-185 | In every run and environment: the id is gone, the rooms and the process stay, and who is left heard once of each client that went |
| Steps.UsersStep | src/server/server.cpp:198-200 | The line /users: everybody is told, through the whole cascade |
| Steps.NicknameStep | src/server/server.cpp:201-210 | A nickname line: everybody is told from the state with the known id renamed on |
| Steps.ChatStep | src/server/server.cpp:374-395 | Any line that is no command: every survivor gets it once behind the sender's nickname, with the lists of the cascade |
| Steps.BlankStep | src/server/server.cpp:194-196 | A blank line does nothing |
| Steps.CreateStep | src/server/server.cpp:211-234 | A create line: the literal answer, to the asker alone, is the confirmation exactly if the name was free; then the room stands, empty, on the asked terms, otherwise no room has changed |
| Steps.JoinStep | src/server/server.cpp:326-356 | A join line: the literal answer, who is let in, and the rooms afterwards |
| Steps.LeaveStep | src/server/server.cpp:357-373 | A leave line: the literal answer is the confirmation exactly if the asker was a member; it is none afterwards, and nothing else about the rooms changes |
| Steps.RoomUsersStep | src/server/server.cpp:294-325 | A question about a room: one answer to the asker, or none at all if there is no such room |
| Steps.RoomMsgStep | src/server/server.cpp:279-292 | A room message changes nothing but the log and null entries of members; from a non-member it changes nothing at all |
| Runs.RunInvariant | src/server/server.cpp:106-128 | In every reachable state the active users are exactly the ids with a non-null socket, no two share one, and every room is stored under its own one-word name |
| Runs.StepKeeps | src/server/server.cpp:187-396 | Each handler keeps that invariant, only adds to the log, and changes no existing room's name, privacy or password |
| Runs.RunGrows | src/server/server.cpp:211-224 | Over any run a room once created stays on its terms, and the log only grows |
| Runs.StepRooms | src/server/server.cpp:187-396 | Only create, join and leave lines change the rooms; connects, disconnects, broadcasts, nicknames and messages never do |
| Runs.RoomsAreHistory | src/server/server.cpp:187-396 | The rooms of a run are the fold of the create, join and leave lines that were handled |
| Runs.MembershipIsHistory | src/common/chat_room.cpp:35-82 | A room exists exactly if a handled create line was for its name, on the terms of the first such line; k is a member if and only if some admitted join line of k comes after every leave line of k |
| Runs.PrivateRoomSafety | src/common/chat_room.cpp:48-65 | Every member of a private room once sent a join line with exactly the password given at creation |
| Runs.KeywordRoomStaysEmpty | src/server/server.cpp:331-346 | In every run, a room whose name contains --password never has a member |
| Runs.RoomMsgTheorem | src/server/server.cpp:279-292 | A non-member's message does nothing; a member's goes once to each live member's socket and nowhere else |
| Survival.RoomMsgSurvivesIff | src/server/server.cpp:286-291 | A member's room message leaves the process up if and only if each live member's socket takes its write at the moment the loop gets to it |
| Survival.StepSurvivesIff | src/server/server.cpp:187-396 | For every event and environment, the exact condition under which the process survives it |
| Survival.RunSurvivesIff | src/server/server.cpp:187-396 | A run is still up if and only if it withstood each of its events in the state it met |
| Survival.TextlessLineIff | src/server/server.cpp:271-277 | A line makes substr throw if and only if it starts with "/room_msg " and the rest is blank or one word with nothing or a newline directly behind it |
| Survival.TextlessLineEndsProcess | src/server/server.cpp:271-277 | "/room_msg x" from anybody, in any state, ends the process |
| Origins.RoomMessagesStayInTheRoom | src/server/server.cpp:279-292 | Every entry a room message ever put into a log was put there while its sender and the socket's owner were both members |
| Origins.RoomLineOriginIff | src/server/server.cpp:279-292 | A logged line has the form of a room message if and only if it was written by a room message while its sender and its receiver were both members, or by a chat line whose owner is nicknamed ROOM_MSG or ROOM_MSG: and more |
| Origins.EveryRoomLineHasAnOrigin | src/server/server.cpp:279-292 | So for every line of every log of every run |
| Origins.ForgedRoomMessage | src/server/server.cpp:374-395 | Two lines from any client put an exact copy of any room message into every log, whatever the rooms |
| Origins.StepWrote | src/server/server.cpp:187-396 | Each event adds to the log only its own text and user lists |
| Origins.EveryEntryEndsLine | src/server/server.cpp:226-378 | Whatever the server ever writes ends with a newline |
| Origins.EveryEntryHasItsEvent | src/server/server.cpp:142-170 | Every log entry was written while some event of the run was handled |
| Runs.NicknamesAreOneLine | src/server/server.cpp:201-207 | In every run of framed lines no nickname holds a newline |
| Runs.ReplyOrDropKeeps | src/server/server.cpp:258-268 | The room list write, with its error code, keeps the invariant and the process up |
| ServerProcess.Server.constructor | src/server/server.cpp:13-16 | The server starts empty |
| ServerProcess.Server.Dispatch | src/server/server.cpp:97-170 | One turn of the IO thread is one step of the state machine |
| ServerProcess.Server.HandleClientData | src/server/server.cpp:187-396 | The dispatcher drops one newline and takes the branch the parser says |
| ServerProcess.Server.HandleNewConnection | src/server/server.cpp:106-128 | The accept handler refines the machine's accept |
| ServerProcess.Server.HandleClientDisconnection | src/server/server.cpp:172-185 | Refines the machine's disconnect; the client map shrinks, which ends the mutual recursion |
| ServerProcess.Server.BroadcastActiveUsers | src/server/server.cpp:398-433 | The loop over the map, resumed after every nested disconnection at the next greater key, refines the machine's broadcast |
| ServerProcess.Server.BuildUserList | src/server/server.cpp:400-411 | Appending and dropping a last comma yields the joined list, the no-user and empty-nickname cases included |
| ServerProcess.Server.HandleChat | src/server/server.cpp:374-395 | The chat loop refines the machine's |
| ServerProcess.Server.HandleCreateRoom | src/server/server.cpp:211-234 | The create branch, read word by word, refines parser and machine |
| ServerProcess.Server.GatherRoomList | src/server/server.cpp:238-256 | The reply built from two traversals is the joined list of tagged names |
| ServerProcess.Server.HandleListRooms | src/server/server.cpp:235-269 | The list branch, disconnecting on a failed write |
| ServerProcess.Server.HandleRoomMsg | src/server/server.cpp:270-293 | The message branch, the throwing substr included |
| ServerProcess.Server.SendToEach | src/server/server.cpp:286-291 | The delivery loop, stopped by the first failed write |
| ServerProcess.Server.HandleRoomUsers | src/server/server.cpp:294-325 | The user list of a room, filtered by the active users |
| ServerProcess.Server.HandleJoinRoom | src/server/server.cpp:326-356 | The join branch with its substr, find and trim parser |
| ServerProcess.Server.HandleLeaveRoom | src/server/server.cpp:357-373 | The leave branch |
| ServerProcess.Server.HandleNickname | src/server/server.cpp:201-210 | The nickname branch |
| ActiveUsers.ActiveUsersManager.AddUser | src/common/active_users.cpp:12-25 | The id is entered or overwritten, nothing else changes |
| ActiveUsers.ActiveUsersManager.RemoveUser | src/common/active_users.cpp:27-30 | Exactly this id goes |
| ActiveUsers.ActiveUsersManager.UpdateNickname | src/common/active_users.cpp:42-47 | Renames an active user, never adds one |
| ActiveUsers.ActiveUsersManager.GetNickname | src/common/active_users.cpp:49-56 | The nickname, or the id itself for an unknown user |
| ActiveUsers.ActiveUsersManager.GetAllActiveUsers | src/common/active_users.cpp:32-35 | A copy of the whole map |
| ChatRooms.ChatRoomManager.CreateRoom | src/common/chat_room.cpp:12-28 | Succeeds exactly on a free name, with no members yet; an existing room is untouched |
| ChatRooms.ChatRoomManager.DeleteRoom | src/common/chat_room.cpp:30-33 | Removes exactly this room and says whether it was there |
| ChatRooms.ChatRoomManager.JoinRoom | src/common/chat_room.cpp:35-65 | Admits exactly a non-member of an existing room that is public or whose password is given |
| ChatRooms.ChatRoomManager.LeaveRoom | src/common/chat_room.cpp:67-82 | Removes exactly a member, and says so |
| ChatRooms.ChatRoomManager.GetRoomInfo | src/common/chat_room.cpp:84-93 | The room, or nothing |
| ChatRooms.ChatRoomManager.GetUserRooms | src/common/chat_room.cpp:95-106 | Exactly the rooms the user is a member of, each once |
| ChatRooms.ChatRoomManager.GetAllRooms | src/common/chat_room.cpp:108-115 | Every room once |
| ChatRooms.ChatRoomManager.GetPublicRooms | src/common/chat_room.cpp:117-126 | The public rooms in traversal order |
| ChatRooms.ChatRoomManager.GetPrivateRooms | src/common/chat_room.cpp:128-137 | The private rooms in traversal order |
| ChatRooms.StoreIsHistory | src/common/chat_room.cpp:12-82 | After any sequence of creates, deletes, joins and leaves: a room exists exactly if some create stands, on the terms of the first create after the last delete; a user is a member exactly if an admitted join comes after every later leave and delete |
| ChatRooms.UserRoomsInvertMembership | src/common/chat_room.cpp:95-106 | After any history, r is listed for u exactly once if and only if u's last admitted join of r was not undone; each room's name is its key |
| ChatRooms.PublicAndPrivatePartition | src/common/chat_room.cpp:117-137 | The two listings partition the rooms without duplicates, whatever orders the two traversals take |
| ChatRooms.SelectIsExact | src/common/chat_room.cpp:95-137 | A query lists exactly the matching rooms, each once |
| Commands.ReadCreateArguments | src/server/server.cpp:212-222 | The reading loop meets the option grammar, and the name is one word |
| Commands.ReadOptionWords | src/server/server.cpp:219-222 | The loop over words equals the option reader on the token sequence |
| Commands.OptionGrammar | src/server/server.cpp:219-222 | For every token sequence: private if and only if --private is in a flag position; the password is the argument of the last --password that has one, else empty |
| CommandLines.ListUsersIff | src/server/server.cpp:194-198 | A line is /users exactly if it is that text, and blank exactly if it is empty |
| CommandLines.NicknameIff | src/server/server.cpp:201-202 | A line sets a nickname exactly if it starts with "/nickname ", and then everything behind it |
| CommandLines.CreateIff | src/server/server.cpp:211 | A line creates a room exactly if it starts with "/create_room " |
| CommandLines.CreateGrammar | src/server/server.cpp:212-224 | What any create line asks for: the second word, or no name; private by the option grammar; the last password argument, private or not |
| CommandLines.ListRoomsIff | src/server/server.cpp:235 | A line asks for the room list exactly if it starts with "/list_rooms" |
| CommandLines.RoomMsgIff | src/server/server.cpp:270 | A line is a room message, with or without text, exactly if it starts with "/room_msg " |
| CommandLines.RoomUsersIff | src/server/server.cpp:294-296 | A line asks for the users of a room exactly if it starts with "/room_users ", the room being the trimmed rest |
| CommandLines.JoinIff | src/server/server.cpp:326 | A line is a join exactly if it starts with "/join_room " |
| CommandLines.JoinParts | src/server/server.cpp:327-342 | Any join line asks for the trimmed text before the first --password, with the trimmed text behind it |
| CommandLines.LeaveIff | src/server/server.cpp:357-359 | A line is a leave exactly if it starts with "/leave_room ", the room being the trimmed rest |
| CommandLines.ChatIff | src/server/server.cpp:374-378 | A line is chat, with all of its text, exactly if it is not empty, not /users and starts with no command word |
| CommandLines.RoomMsgSpaced | src/server/server.cpp:271-277 | However a room message is spaced: the room is the first word, the text what follows one separator, up to a newline |
| CommandLines.CreatePublicLine | src/server/server.cpp:212-224 | A create line makes a public room of exactly the typed name if and only if that is one word |
| CommandLines.CreatePrivateLine | src/server/server.cpp:212-224 | A private create line arrives intact if and only if name and password are single words and the name is not empty |
| CommandLines.CreatedNameIsWord | src/server/server.cpp:217-224 | Whatever /create_room stores has no white space in name and password |
| CommandLines.RoomMsgLine | src/server/server.cpp:271-277 | Room and text arrive intact if and only if the room is one word and the text one line |
| CommandLines.LeaveAndUsersLine | src/server/server.cpp:357-359 | /leave_room and /room_users recover the name if and only if it is trimmed |
| CommandLines.JoinLine | src/server/server.cpp:326-342 | /join_room without password recovers the name if and only if it is trimmed and free of --password |
| CommandLines.JoinPasswordLine | src/server/server.cpp:326-342 | With a password, both arrive intact if and only if both are trimmed and the name is free of --password |
| CommandLines.KeywordPosition | src/server/server.cpp:331-335 | The leftmost keyword is the one behind the separating space: it cannot straddle that space |
| CommandLines.KeywordInsideName | src/server/server.cpp:331-341 | With --password inside the name, a line that begins with the name is parsed to a shorter room |
| CommandLines.JoinNeverNamesKeyword | src/server/server.cpp:331-341 | No join line whatsoever names a room that contains --password |
| CommandLines.TokenisersAgree | src/server/server.cpp:271-273 | Every name /create_room can store is recovered by all other commands, exactly up to the empty name in /room_msg and --password in /join_room |
| Text.TrimPadded | src/server/server.cpp:5-9 | trim returns the solid core of a text padded with blanks |
| Text.TrimmedPadded | src/client/gui/groupchatwindow.cpp:88-90 | trimmed returns the solid core of a text padded with Qt white space |
| Text.MidIsPiece | src/client/gui/mainwindow.cpp:125-127 | mid returns the piece that starts there, up to the count, or all the rest for a negative count |
| Text.IndexOfIsLeftmost | src/server/server.cpp:331-333 | find returns an occurrence, and the leftmost one |
| Lists.SplitUndoesJoin | src/client/gui/mainwindow.cpp:168-192 | Splitting at commas gives back the non-empty items of the joined list if and only if no item holds a comma |
| Lists.DropLastComma | src/server/server.cpp:253-255 | Dropping the last comma of a non-empty listing leaves the join |
| Framing.HandledLinesEmbed | src/server/server.cpp:142-164 | Over every chunking the handled lines are, in order, suffixes of distinct complete lines of the stream |
| Framing.FramingIsExactIff | src/server/server.cpp:142-164 | They are exactly the complete lines if and only if nothing that matters follows a newline inside its chunk |
| Framing.NothingDiscarded | src/server/server.cpp:142-164 | In particular when no chunk has bytes after its first newline |
| Framing.NonBlankExactIff | src/server/server.cpp:189-196 | The non-empty handled lines are exactly the non-empty lines sent if and only if what is lost is blank and never grows into a line |
| Framing.FramesTotal | src/server/server.cpp:142-164 | Framing never hands over more text than was sent |
| Framing.OneLineArrives | src/client/chat_client.cpp:48-73 | A line sent with one or more newlines is handed over exactly once, however it is cut |
| Framing.HandedAcrossFault | src/client/chat_client.cpp:48-67 | Each stretch between read errors is framed on its own; without errors this is plain framing |
| Framing.ChatClient.ReadUntilNewline | src/client/chat_client.cpp:48-53 | One read: the next line, an error that loses the buffer, or the end, and where the stream goes on |
| Framing.ChatClient.ReceiveOne | src/client/chat_client.cpp:48-84 | One turn of the loop passes on one non-empty line, or tries again after an error |
| Framing.ChatClient.Receive | src/client/chat_client.cpp:45-90 | The callback gets exactly the non-empty lines framed between errors, in order |
| ClientCommands.ChainedArgIff | src/client/gui/groupchatwindow.cpp:101 | Two chained arg calls insert plainly, for every second argument, if and only if the first argument holds no marker up to %2 |
| ClientCommands.LowMarkerIff | src/client/gui/groupchatwindow.cpp:101 | A name has a low marker exactly if %n or %Ln with n up to 2 stands in it |
| ClientCommands.MarkedArgDiffers | src/client/gui/groupchatwindow.cpp:101 | With such a marker, every longer second argument that does not end in 2 is inserted wrongly |
| ClientCommands.RoomMsgCommandText | src/client/gui/groupchatwindow.cpp:101 | The exact text of the message command |
| ClientCommands.JoinPrivateCommandText | src/client/gui/mainwindow.cpp:298 | The exact text of the private join command |
| ClientCommands.CreateCommandText | src/client/gui/mainwindow.cpp:247-250 | The exact text of the create command, for every name |
| ClientCommands.JoinCommandText | src/client/gui/mainwindow.cpp:267 | The exact text of the public join command, for every name |
| ClientCommands.RoomUsersCommandText | src/client/gui/mainwindow.cpp:310-314 | The exact text of the user list request, for every name |
| ClientCommands.LeaveCommandText | src/client/gui/groupchatwindow.cpp:134-139 | The exact text of the leave command, for every name |
| ClientWindow.GroupChatWindow.AppendMessage | src/client/gui/groupchatwindow.cpp:77-86 | Shows the text behind the first "] " |
| ClientWindow.GroupChatWindow.OnSendButtonClicked | src/client/gui/groupchatwindow.cpp:98-105 | Sends the trimmed input as one command unless it is empty |
| ClientWindow.GroupChatWindow.UpdateUserList | src/client/gui/groupchatwindow.cpp:123-132 | Replaces the list of users, nothing else |
| ClientWindow.MainWindow.OnMessage | src/client/gui/mainwindow.cpp:119-148 | The callback: a refused join warns, a confirmed one raises or opens its window, everything else is appended |
| ClientWindow.MainWindow.AppendMessage | src/client/gui/mainwindow.cpp:165-218 | A line goes to the lists, to one window or to the chat, by its tag |
| ClientWindow.MainWindow.FillRoomLists | src/client/gui/mainwindow.cpp:167-180 | The parts of a room list are sorted into the two lists by their tags |
| ClientWindow.MainWindow.ShowRoomUsers | src/client/gui/mainwindow.cpp:181-190 | The list goes to the first window of the current room only |
| ClientWindow.RoomUsersGoToCurrent | src/client/gui/mainwindow.cpp:181-190 | Exactly the first window titled like the current room gets the list |
| ClientWindow.ChatKindIff | src/client/gui/mainwindow.cpp:166-216 | A line is chat exactly if it carries none of the four tags, and then it is shown as it is |
| ClientWindow.MainWindow.ShowRoomMsg | src/client/gui/mainwindow.cpp:200-213 | The message goes to the first window of the room between the first brackets only |
| ClientWindow.MainWindow.CreateNewRoom | src/client/gui/mainwindow.cpp:235-253 | An empty name warns and sends nothing; otherwise exactly the create line for the trimmed inputs is sent, and one more refresh of the room list is due |
| ClientWindow.MainWindow.OnRefreshTimer | src/client/gui/mainwindow.cpp:255-258 | A due refresh asks for the room lists once |
| ClientWindow.MainWindow.JoinSelectedRoom | src/client/gui/mainwindow.cpp:262-286 | One join line is sent, the room is the current one and has a window |
| ClientWindow.MainWindow.JoinSelectedPrivateRoom | src/client/gui/mainwindow.cpp:288-302 | One private join command is sent unless the password is empty; no window is opened |
| ClientWindow.MainWindow.RequestRoomUserList | src/client/gui/mainwindow.cpp:310-314 | One request is sent |
| ClientWindow.MainWindow.SendMessage | src/client/chat_client.cpp:107-115 | The message goes out with one newline added |
| Listings.RoomListRoundTrip | src/client/gui/mainwindow.cpp:167-180 | In every reachable state, for every line that starts with "/list_rooms" and over every chunking, the asker alone is answered with one line, from which its client ends up with the public and private names in the order printed if and only if no room name holds a comma; the two lists partition the rooms |
| Listings.RoomListRefused | src/server/server.cpp:258-266 | If the asker's socket refuses the list, the asker is dropped and everybody left is told; the process stays up |
| Listings.RoomListParse | src/server/server.cpp:241-256 | Reading back a printed room list gives both lists if and only if no name holds a comma |
| Listings.UserListRoundTrip | src/server/server.cpp:400-411 | Reading back a user list line gives the non-empty nicknames with multiplicity if and only if no nickname holds a comma |
| Listings.RoomUsersRoundTrip | src/server/server.cpp:300-314 | In every reachable state a room's list names each member with a live connection once, and is read back if and only if none of them holds a comma |
| Listings.RoomUsersAnswered | src/server/server.cpp:294-325 | The answer to a line about the users of a room is that one line, to the asking client; for no room there is none |
| Listings.UserListsShown | src/client/gui/mainwindow.cpp:181-199 | The two user lists are shown as read back and nothing else changes, except as stated when a nickname makes the line pass for an answer to a join: a warning, a window opened first, or the list lost |
| EndToEnd.RoomMessageEndToEnd | src/server/server.cpp:270-292 | In every reachable state of every environment and over every chunking: one line is handled; the server stays up exactly if each member's write succeeds at its moment; then the receiving member's view changes by exactly "nickname: message" in that room's window if and only if the line holds neither phrase of an answer to a join |
| EndToEnd.RoomMessageSent | src/server/server.cpp:270-292 | From the sender's input to the logs: every live member's socket once, no other |
| EndToEnd.RoomMessageReceived | src/client/gui/mainwindow.cpp:200-213 | From the receiver's socket to its whole view |
| EndToEnd.RoomNameRecoveredIff | src/client/gui/mainwindow.cpp:203-206 | A message is addressed to the room it was sent to if and only if the name is not empty and holds no "]" |
| EndToEnd.UnaddressedLine | src/client/gui/mainwindow.cpp:203-205 | A message that is addressed to no room changes nothing |
| EndToEnd.RoomLineShownIff | src/client/gui/mainwindow.cpp:119-147 | The whole view after the line: the message is shown and nothing else happens if and only if the line holds neither the refusal nor the confirmation phrase; with the refusal phrase there is a warning besides, with only the confirmation phrase the message is lost |
| EndToEnd.StrippedBody | src/client/gui/groupchatwindow.cpp:77-86 | Stripping leaves exactly "nickname: message" |
| EndToEnd.CreateThenJoin | src/client/gui/mainwindow.cpp:288-302 | From dialog to dialog: through the lines the two dialogs sent, with any events in between, a non-member enters a private room if and only if the trimmed entry is the trimmed creation password |
| EndToEnd.CreateDialogSends | src/client/gui/mainwindow.cpp:235-259 | The create dialog, from the raw inputs: a warning without a name; otherwise one line goes out, read by the server as the room asked for exactly if name and, if private, password are single words |
| EndToEnd.RoomClickSends | src/client/gui/mainwindow.cpp:262-286 | A click on a public room: one line goes out, read as a join of that room exactly if its name is trimmed and free of --password; the room has a window |
| EndToEnd.JoinDialogSends | src/client/gui/mainwindow.cpp:288-302 | The password dialog: nothing on an empty entry; otherwise one line goes out, read as a join with the trimmed entry |
| EndToEnd.CreateEndToEnd | src/server/server.cpp:224-233 | From the create line to the view: one literal answer, the room or no change, and the line shown in the chat and nowhere else |
| EndToEnd.LeaveEndToEnd | src/server/server.cpp:363-372 | From the leave line to the view, likewise |
| EndToEnd.CreateArrivesIff | src/client/gui/mainwindow.cpp:235-253 | The create command for a name is read as the room asked for if and only if name and password are single words; without a password the room is public |
| EndToEnd.JoinEndToEnd | src/server/server.cpp:346-355 | From the line to the view: a join is answered with one line; admitted: member, and the view changes by the confirmation only; refused: no room changed, one warning and the line in the chat |
| EndToEnd.ConfirmationOpensWindow | src/client/gui/mainwindow.cpp:124-147 | The whole view after a confirmation, for every one-word name; the room itself has a window afterwards if and only if it had one or its name holds no "]" |
| EndToEnd.ConfirmationIsNoRefusal | src/client/gui/mainwindow.cpp:122 | A confirmation for a one-word name never contains the refusal phrase |
| EndToEnd.HarmlessChunksServeTheStream | src/server/server.cpp:142-196 | Over a harmless chunking the server ends in the state the sent lines lead to |
| EndToEnd.HarmlessChunksShowTheLog | src/client/chat_client.cpp:48-84 | Over a harmless chunking of everything ever written to its socket, the client ends up with what the lines of that log make of its view |
| Witnesses.StaleListInRun | src/server/server.cpp:398-433 | A run of two clients with ids of unequal length in which the socket of the first breaks and the other is left with a list that still names it |
| Witnesses.LossInRun | src/server/server.cpp:164-185 | A run in which a client is lost and the other one is left with the list without it |
| Witnesses.RoomMessageEndsRun | src/server/server.cpp:286-291 | A run that a room message ends, because its member's socket has broken since it joined |
| Witnesses.TextlessLineEndsRun | src/server/server.cpp:271-277 | A run that "/room_msg x" ends |
| Witnesses.ForgeryInRun | src/server/server.cpp:374-395 | Runs without any room whose log ends with a room message |
| Witnesses.SecondLineLost | src/server/server.cpp:142-164 | Two lines in one chunk: the second is never handled |
| Witnesses.KeywordInName | src/server/server.cpp:331-341 | "a--password" is created under its name, and its join line asks for "a" |
| Witnesses.MarkerAsName | src/client/gui/groupchatwindow.cpp:101 | For the room "%1" the message command names the message as the room |
| Witnesses.ConfirmationPhraseLost | src/client/gui/mainwindow.cpp:124-137 | The message "] 참여 완료" leaves the client's view as it was |
| Witnesses.RefusalPhraseWarns | src/client/gui/mainwindow.cpp:122-123 | The message "채팅방 참여 실패" is shown and warns besides |
| Witnesses.PrivateWithoutPassword | src/client/gui/mainwindow.cpp:247-250 | A private room without a password is created public |

## Left out

- Boost sockets, DNS, threads, mutexes and the IO context: a socket is an output log and an environment that may fail any write; handlers run one at a time, as they do on the single IO thread.
- Partial writes: a write either delivers its whole text or fails.
- Iteration over `clients_` while it is erased from (server.cpp:379-394, 415-432), and the reference to the erased key: undefined in C++; the model takes the intended meaning, the id by value and the next greater key still present.
- `start` and `stop`: runs are followed up to `stop`, which clears the clients but not the active users and dereferences null entries.
- Widgets, dialogs, window placement, settings and message history files: only lists, windows and texts are kept. A timer is a refresh that is due; when it goes off is open.
- The queued calls of the Qt event loop: a line is appended in the callback that received it, so the order of callbacks and appends of different lines is not modelled; closing a window and its removal from the list are not either.
- The nickname sent on connecting and `nickname_manager.cpp`: a shell command and regular expressions.
- `MainWindow::sendMessage`, `requestUserList`, `showGroupChat`: they send a text as it is.
- `chat_manager.cpp`, `chat_message.cpp`: history and timestamps, built into no target.
- `ChatRoomManager::sendMessageToRoom`: a stub. `DeleteRoom` is modelled although no command calls it.
- `isUserActive` and the IP suffix of a user: stored or asked for, but nothing depends on them.
- UTF-8 and UTF-16: one character type on both sides.
- Cascade.BroadcastTheorem: while the handler runs, a client's socket fails always or never; for a socket that fails at one write of the handler and recovers at another `Runs.BroadcastTells` counts the texts but does not say which list each of them is.
