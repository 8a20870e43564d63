# Shared state of the BBS server, modelled and proved

The server is a set of processes that map the same files and coordinate through short locked sections,
lock-free readers, logs written in a circle and small state machines. This project models the parts of
it whose correctness depends on what other processes, other connections or earlier rounds do, and proves
what they promise.

| part | files | what is proved |
|---|---|---|
| user index | `UserIndex`, `UserWriters`, `UserRaces` | after every single write of an addition or a deletion the published side is a valid index of the old or of the new listing; a lookup without a lock is right for the index published when it read `which`, unless a deletion clears an entry that its search comes to and that is not below the one it is after, and then it can be wrong |
| online table | `OnlineTable`, `OnlineWalk`, `OnlineRepeats`, `OnlineWriters` | every single write of logins and removals keeps the table in order; an unlocked walk misses nobody who is online throughout, and after which writes it can show somebody twice; an unlocked search finds whoever stays, and a process that logs out takes its own session off |
| X messages | `CircularLog`, `XMessages`, `XDatabase` | every message is in two users' two-way lists at once; walks, deliveries and readings, and which messages are refused as scrolled over |
| X conversion | `XRecords`, `XRelocation`, `XConversion` | relocating the message graph commutes with walking it; what the lists of a database in the old file become |
| telnet negotiation | `TelnetOptions`, `TelnetHandshake`, `TelnetServer`, `TelnetLine`, `TelnetInput` | counters, fences, the echo rule of RFC 857, bounded buffers, in-place decoding of the variables of RFC 1408 |
| session input | `SessionDecoder` | the decoder of a session returns what the client meant, and when a doubled IAC spoils it |
| login queue | `LoginLine`, `LoginQueue` | order, occupancy, rate, places told, who is started and who is left waiting, and that nobody else gets lost |
| message base | `MessageLog`, `MessageRetention`, `RoomWindows`, `RoomBase`, `MessageBoard` | the wrapping message file and how long a message stays in it, the windows of rooms and mailboxes, the private copy kept in step, and that every number in a window leads to its own message |
| line editor | `LineEditor`, `LineWords` | no key loses, doubles or moves ink, and when a line break cuts a word |

How the source's concurrency is expressed: shared memory is a sequence of moments, one after every
individual write. Writers append to it; a reader reads each word at some moment and never goes back in
time, so that every interleaving is covered. A lock is the fact that only one writer appends. A crash
leaves behind some moment.

Sends, clocks, signals and other processes enter as parameters or as arbitrary choices.

## What is not so

Some promises the code does not keep in every case. Each is stated with the condition that decides it,
and with an input or a run for which it fails.

- A deletion clears the name and the number of a link after it has flipped `which`, and `gen` does not
  move. A reader still on the old side can then miss somebody else who was listed all the time
  (`UserRaces.ClearingMisleadsReader`). It misses an entry exactly when its search comes to a cleared one
  at the same place or above (`UserRaces.FoundExactly`, `UserRaces.MissedExactly`); additions never clear
  (`UserWriters.Serve`).
- The walk compares an entry's number and then reads it again to keep it. If the slot was given a new
  number in between, a session can be shown twice (`OnlineWalk.TornEntryRepeats`). A session that is
  online throughout can be, exactly when a slot of lower number that was listed below it is renumbered
  above it while the session moves down below that slot's place (`OnlineRepeats.TwiceExactly`); nobody is
  if no slot is given a number during the walk (`OnlineWalk.UnwrittenFalls`).
- `remove_loggedin` searches without the lock. The place it found can lie beyond the index by the time
  the lock is had; `OnlineWriters.StalePlace` says exactly when the table survives and who is dropped
  otherwise, and `OnlineWriters.Mishap` is a run that comes to such a table.
- `checkx` does not get past a message that is taken for scrolled over while the cursor stands still;
  `XDatabase.DrainEnds` says exactly when its loop ends, and `XDatabase.Overlooked` is a run after which a
  message that is still whole is taken for scrolled over. Only another process's sends can move the cursor.
- The same test does not notice that a message has been written over: a place below the cursor is taken for
  one of the present lap, and is refused only when the cursor is nearly a lap beyond it
  (`XDatabase.WrittenOver`). `XDatabase.Mistaken` is a run after which whoever goes to see a message that
  has been written over is shown another one.
- The sixteen bytes of `netobuf` need not hold all that `qinit` sends to a peer that agreed to a fence
  unasked (`TelnetServer.EarlyFenceCrowds`); `TelnetServer.QinitFits` says exactly when they do.
- A doubled IAC leaves the session decoder expecting a command: a stream with one in it is decoded to
  what was meant exactly when nothing follows (`SessionDecoder.DoubledIac`).
- The height of a client's window is read as a signed byte, so that it is kept exactly if it is less than
  128 (`TelnetLine.WindowArrives`).
- The editor notices no blank that a tab stands for. A line can be broken in the middle of a word although
  its last blank is in its right half (`LineWords.TabUnnoticed`); without tabs it is exactly if that blank
  is in column 40 or before, or missing (`LineWords.AllNoticed`, `LineWords.RunWords`).
- The editor of somebody who is not uploading never ends once 50000 bytes have been stored;
  `LineEditor.MenuReachable` says exactly when it still can, and `LineEditor.NoWayOut` that one can always
  type on until it cannot.
- A message written as sysop or forum moderator in the room for such messages is posted there twice under
  one number, and only then does a new message put a window out of strict order
  (`MessageBoard.EnteredOrderly`, `MessageBoard.TwiceUnordered`). Even so no window ever falls
  (`MessageBoard.EnteredTidy`), and everything else stands.
- `fr_delete` looks only for the magic byte where the message was. If another message begins there by now,
  that one is marked as deleted (`MessageBoard.PlaceReused`); it is the right one exactly when the place
  would still pass the checks for its number (`MessageBoard.OwnMessage`). The place can also have come to
  lie inside another message, on a byte that happens to have that value, such as the low byte of a number;
  then the source writes into the middle of that message.

Where comments in the source disagree with its code, the code is modelled. The comment before `adduser`
says that raising `gen` catches every reader that could be misled, which holds for additions only.

## Model

| member | source | states |
|---|---|---|
| UserIndex.SignedDiffOrders | users.c:40-41 | numbers below 2^31 are ordered by the sign of their wrapped 32-bit difference |
| UserIndex.CompareCarries | users.c:36-49 | a key on one side of an entry is on the same side of everything beyond it, by name and by number |
| UserIndex.EveryMomentValid | users.c:79-228 | over every run the side named by `which` is a valid index after every single write; that a flip publishes a valid side is part of what a step is, and what the methods of `UserWriters` prove of theirs |
| UserIndex.SideStable | users.c:25-51 | while `gen` is stable and nothing is cleared on the stale side, no write touches the side that was published |
| UserIndex.SideAges | users.c:149-220 | while `gen` is stable, whatever is cleared, the side that was published keeps its entries, and its links at most lose their names and numbers |
| UserIndex.MatchPlace | users.c:36-49 | in a valid column at most one entry has the key, and every other tells on which side of it that one lies |
| UserIndex.ReadDecides | users.c:37-48 | a slot and a link read at two different moments still decide, for the whole old column, where the key lies |
| UserIndex.Probe | users.c:37-41 | reading one entry and its link tells which part of the column is left if the reader was not disturbed, and otherwise whether the entry was cleared |
| UserIndex.AheadNarrows | users.c:36-50 | one comparison keeps the key's entry within what is left to search, or has come to a cleared entry that is not below it |
| UserIndex.Search | users.c:35-54 | while `gen` is stable the binary search answers for the index published at the start, in full if nothing was cleared, and otherwise but for an endangered entry |
| UserIndex.FindUser | users.c:15-59 | a search accepted by its generation check answers with the key's slot in the index published when `which` was read, or with none if there is none or its entry is endangered by a clearing; with its place too if nothing was cleared |
| UserIndex.InsertionPoint | users.c:53 | `saveindex` of a failed search is where the new entry belongs |
| UserIndex.InsertKeepsSorted | users.c:125-130 | an insertion where the entry belongs keeps the column strictly sorted |
| UserIndex.RemoveKeepsSorted | users.c:196-201 | a removal keeps the column strictly sorted |
| UserIndex.AddedSide | users.c:91-149 | the side an addition has built publishes the old listing and the new user, its free list intact |
| UserIndex.RemovedSide | users.c:177-217 | the side a deletion has built publishes the old listing without the user, the slot at the head of the free list |
| UserWriters.UserData.constructor | inc/users.h:20-33 | an index without users is valid and lists nobody |
| UserWriters.UserData.CopyRange | users.c:125-130 | `memcpy` between the sides, one entry at a time, leaving the published side alone at every entry |
| UserWriters.UserData.Begin | users.c:80-91 | raises `gen` and changes nothing else |
| UserWriters.UserData.Publish | users.c:149 | the flip publishes the listing that was built |
| UserWriters.UserData.ClearLink | users.c:219-220 | clearing a link nobody is listed under keeps what is published |
| UserWriters.UserData.Find | users.c:112 | under the lock a search is right for the present index |
| UserWriters.UserData.BuildWithout | users.c:193-213 | what a deletion writes between its first search and the flip, and that its second search succeeds |
| UserWriters.UserData.Retire | users.c:217-221 | the flip and the clearing publish the new listing at every moment |
| UserWriters.UserData.DeleteUser | users.c:167-228 | removes exactly the user of that name, or nobody if there is none; every moment publishes the listing before or after |
| UserWriters.UserData.BuildWith | users.c:125-145 | builds the side that lists the new user, or reports the number in use, exactly when it is |
| UserWriters.UserData.Enter | users.c:103-149 | one round with a slot in hand: the user is added, refused, or found under an abandoned entry, each exactly when it should be |
| UserWriters.UserData.TryAdd | users.c:79-153 | one round of an addition, every moment of which publishes the listing before or after, and none of which disturbs a reader |
| UserWriters.UserData.AddUser | users.c:72-160 | the new user is listed under a free slot, name and number, or the listing is unchanged and there was a reason; an abandoned entry of that name is deleted first |
| UserWriters.Serve | users.c:61-71 | a lookup beside any number of additions and deletions searches one of the listings they go through and is right for it but for endangered entries; beside additions that find no abandoned entry it is right without condition |
| UserRaces.FoundExactly | users.c:35-59 | for all valid sides, keys, places and links cleared since, the search finds the entry exactly if it comes to no cleared one at the same place or above |
| UserRaces.MissedExactly | users.c:23-51 | while `gen` is stable, some order of reads misses a listed key exactly if its entry is endangered |
| UserRaces.ClearingMisleadsReader | users.c:217-220 | a run in which a lookup that `gen` accepts misses a user who was listed at every moment |
| OnlineTable.Room | user.c:279-284 | while a slot is free the index has room for it |
| OnlineTable.SoundStep | user.c:174-294 | every single write of a login or a removal keeps the index a list, without repeats and in order of arrival, of exactly the slots with a pid |
| OnlineTable.NumbersRise | user.c:186-188 | no slot's number ever falls, and a listed session keeps its own |
| OnlineTable.BehindStep | user.c:182-188 | a write moves a lasting session at most down the index, and leaves only higher numbers above it |
| OnlineWalk.SoundAt | user.c:174-294 | the table is sound after every write of any run |
| OnlineWalk.StaysAhead | who.c:87-99 | while a session lasts no run of writes carries it past the walk |
| OnlineWalk.Visit | who.c:89-99 | visiting a place shows the session, or leaves it ahead with the threshold above it |
| OnlineWalk.Walk | who.c:77-100 | the unlocked walk shows what its reads, at whatever rising moments, make it show; that is every session online throughout, and in falling order of number if no slot is renumbered meanwhile |
| OnlineWalk.RepeatsExactly | who.c:87-99 | for every history and schedule somebody is shown twice if and only if a session already shown is met again lower down while the number last kept is above its own |
| OnlineRepeats.TwiceInShown | who.c:87-99 | to be shown at two visits is to occur twice in what is shown |
| OnlineRepeats.RaiserOvertakes | who.c:87-99 | a visit that raises the threshold above a lasting session, which is met again, was to a slot that overtakes it |
| OnlineRepeats.TwiceExactly | who.c:77-100 | for every history, some walk shows a session that is online throughout twice if and only if a slot of lower number, listed below it at the beginning, is renumbered above it while the session moves down below that slot's place |
| OnlineWalk.RepeatIsTorn | who.c:89-99 | for that, a visit must have kept a higher number than it compared |
| OnlineWalk.TornIsWritten | who.c:89-99 | and for that, its slot must have been renumbered between the two reads |
| OnlineWalk.UnwrittenFalls | who.c:87-99 | nobody is shown twice if no slot is renumbered during the walk |
| OnlineWalk.TornEntryRepeats | user.c:318-323 | a run in which a session is shown twice |
| OnlineWriters.BigBtmp.constructor | user.c:284-285 | an empty table is sound |
| OnlineWriters.Search | user.c:178-179 | the search without the lock finds a process that stays online with its pid, whatever is written meanwhile |
| OnlineWriters.BigBtmp.CloseGap | user.c:182-185 | the loop moves the entries above the place down by one, each write keeping the table sound |
| OnlineWriters.BigBtmp.Leave | user.c:186-188 | the entry is dropped, the pid cleared and the slot numbered anew, each write keeping the table sound |
| OnlineWriters.BigBtmp.RemoveStale | user.c:182-188 | from a place beyond the index nothing is moved, and the last entry goes |
| OnlineWriters.BigBtmp.Meanwhile | user.c:174-294 | other processes' logins and removals keep the table sound |
| OnlineWriters.BigBtmp.TryRemove | user.c:174-192 | search, lock, second look and removal, with others in between: what is removed, and exactly when the table stays sound |
| OnlineWriters.BigBtmp.ChooseSlot | user.c:270-277 | the slot chosen without the lock is free if any is, and the one given up longest ago |
| OnlineWriters.BigBtmp.TryReserve | user.c:278-294 | the slot is taken only if it is still free under the lock, and then holds the pid of the process, is listed last and numbered above all others; every other slot and place is as it was |
| OnlineWriters.BigBtmp.ReserveSlot | user.c:237-294 | a full list is refused; otherwise the slot given up longest ago is chosen, and if it is still free when the lock is had it holds the pid of the process and is listed last, and nothing else has changed |
| OnlineWriters.RemovalIsSound | user.c:182-188 | a removal takes exactly one session off the list, keeps the order of the others, frees its slot and leaves every other slot alone |
| OnlineWriters.OwnStays | user.c:174-294 | whatever others write, as long as none of it begins to remove the session or brings its pid once more, the process stays online in that session, and in no other |
| OnlineWriters.SearchFindsOwn | user.c:178-179 | beside such writes the search for the pid finds a place that named the session's slot |
| OnlineWriters.LogInAndOut | user.c:174-294 | a process that logs in and later out: beside such writes its search succeeds, the removal goes on exactly if the place found still names its slot, and within the index takes exactly its session off the list |
| OnlineWriters.StalePlace | user.c:178-188 | a removal from a place found earlier leaves a sound table exactly when the place is within the index or names the same slot as the last entry; otherwise the session of the last entry is dropped and the other stays listed without a pid |
| OnlineWriters.Mishap | user.c:178-188 | a run whose history contains the moment such a place was found, and from whose end the removal drops a session with another pid |
| CircularLog.Apart | xmsg.c:505-517 | records still in the log share no byte |
| CircularLog.Appended | xmsg.c:508-517 | an appended record spares exactly the records of the previous lap beyond its end, and the cursor is aligned again |
| CircularLog.Returned | xmsg.c:505-507 | returning to the start keeps what lies behind the cursor and gives up what lay beyond it |
| XMessages.StoredAppend | xmsg.c:508-517 | messages not overwritten by a new one can still be read |
| XMessages.DeliveryLinks | xmsg.c:523-548 | whatever the two relinkings do together, also to oneself, each user sees at most one new link |
| XMessages.DeliveryFits | xmsg.c:505-563 | a delivery puts the message last into the lists of its sender and its receiver, and leaves every other user's list alone |
| XDatabase.ForwardTrail | xmsg.c:75-81 | following `next` meets exactly the later messages of that user, in order |
| XDatabase.BackwardTrail | xmsg.c:83-88 | following `prev` meets exactly the earlier ones, newest first |
| XDatabase.Walks | xmsg.c:505-563 | from `xminpos` and from `xmaxpos` the two walks show exactly what the user sent and received, each the reversal of the other |
| XDatabase.DrainEnds | xmsg.c:158-171 | the loop of `checkx` ends if and only if no pending message is taken for scrolled over |
| XDatabase.PresentShown | xmsg.c:26-31 | a message of the present lap is refused exactly when the cursor is more than the size less a sixty-fourth of it beyond its place |
| XDatabase.BeforeRefused | xmsg.c:26-31 | a whole message of the lap before is refused exactly when its place is less than a sixty-fourth of the size ahead of the cursor |
| XDatabase.WrittenOver | xmsg.c:26-31 | a message some byte of which one of the present lap has written over is refused exactly when the cursor is more than the size less a sixty-fourth beyond its place |
| XDatabase.Mistaken | xmsg.c:26-31 | a run after which the place of a message that has been written over is shown, with the message that has done so |
| XDatabase.Overlooked | xmsg.c:26-30 | a run to a valid database in which a whole pending message is taken for scrolled over, so that its reader never gets past it |
| XDatabase.NothingLostOrRepeated | xmsg.c:149-171 | what was shown and what is pending make up exactly what was received since login, in order |
| XDatabase.Database.Append | xmsg.c:505-517 | the message is written at the cursor, or at the start when the end is near, with its text up to the first empty line |
| XDatabase.Database.LinkBoth | xmsg.c:523-548 | the new message links back to the newest of both users, and these link forward to it, also when the two are one |
| XDatabase.Database.Advance | xmsg.c:550-562 | the places of both users, and whether the receiver must be told |
| XDatabase.Database.SendX | xmsg.c:505-563 | the whole delivery: both users' places, the record of what is unseen, the signal, and every user's list still in order |
| XDatabase.Database.SendBroadcast | xmsg.c:505-521 | a broadcast enters nobody's list |
| XDatabase.Database.DisplayX | xmsg.c:26-91 | what `displayx` returns and which links it hands out, in each case; `PresentShown`, `BeforeRefused` and `WrittenOver` say which messages it refuses as scrolled over |
| XDatabase.Database.CheckOnce | xmsg.c:158-170 | one pass of the loop, for a message that is shown, one's own, scrolled over or somebody else's |
| XDatabase.Database.CheckX | xmsg.c:149-171 | everything received since the last drain is shown once, in the order sent, and nothing of one's own |
| XDatabase.Database.Express | xmsg.c:158-171 | after `sendx` with a sixty-fourth of the database to spare the receiver is shown the message, and `checkx` shows it last, behind what was pending and can still be shown |
| XDatabase.Database.Xinit | xmsg.c:971-979 | nothing is pending after login, and a new account starts an empty list |
| XDatabase.Database.Xyell | xmsg.c:898-968 | the conversation with one other user, newest first, back to the first message that is scrolled over or out of time |
| XRecords.HeaderRoundTrip | convert_x86_x64/rebuild_xmsgs.c:96-111 | a header written by the first pass is the header read by the second |
| XConversion.OldRoundTrip | convert_x86_x64/rebuild_xmsgs.c:101-111 | the 32 bytes of a header of the old layout, written field by field in the order of its structure, are read as that header, for all numbers below 2^32 |
| XConversion.TextScanned | xmsg.c:513-515 | a text of `sendx`, each line with its NUL and one more behind the last, ends where the scan of the conversion finds its end |
| XConversion.HeldIsMessage | convert_x86_x64/rebuild_xmsgs.c:96-150 | such a text behind the bytes of a header the conversion accepts is a message of the old file |
| XRecords.ScanKeeps | convert_x86_x64/rebuild_xmsgs.c:207-242 | the first pass keeps only acceptable messages, no two overlapping, laid end to end |
| XRecords.ScanMissesNone | convert_x86_x64/rebuild_xmsgs.c:207-230 | it misses no message but those that start inside one it has kept |
| XConversion.KeptExactly | convert_x86_x64/rebuild_xmsgs.c:207-230 | a message of the old file is kept if and only if it does not begin inside one that was |
| XRecords.FindsBack | convert_x86_x64/rebuild_xmsgs.c:95-150 | where a message's bytes are, the second pass finds that message |
| XRelocation.NewPlaceOf | convert_x86_x64/rebuild_xmsgs.c:33-45 | every kept message has the new place it was given |
| XRelocation.Converter.ValidUser | convert_x86_x64/rebuild_xmsgs.c:16-31 | true exactly for the numbers of users |
| XRelocation.Converter.LookupXmsgLoc | convert_x86_x64/rebuild_xmsgs.c:33-45 | the new place of an old one, 0 if nothing there was kept |
| XRelocation.Converter.StoreXmsgMap | convert_x86_x64/rebuild_xmsgs.c:72-81 | one pair more, the others unchanged |
| XRelocation.Converter.UpdateUsersPos | convert_x86_x64/rebuild_xmsgs.c:47-70 | both ends of every user's list become their new places |
| XRelocation.Converter.GetXmsgs | convert_x86_x64/rebuild_xmsgs.c:88-151 | the header in either layout, as `XConversion.OldRoundTrip` and `XRecords.HeaderRoundTrip` tell what that is, and the text up to its first two NULs if the header is acceptable and the text short enough |
| XRelocation.Converter.FirstPass | convert_x86_x64/rebuild_xmsgs.c:207-245 | writes exactly the messages of the scan, one behind the other, and maps each |
| XRelocation.Converter.SecondPass | convert_x86_x64/rebuild_xmsgs.c:262-291 | parses exactly the records the first pass wrote, although their headers change under it, and replaces every link |
| XRelocation.Converter.RebuildXmsgs | convert_x86_x64/rebuild_xmsgs.c:153-295 | the new file is the kept messages end to end with every link relocated, the cursor its length, and both ends of every user's list relocated; what that does to the lists of a valid database is `XConversion.ListsSurvive` |
| XRelocation.NewFileReads | convert_x86_x64/rebuild_xmsgs.c:262-291 | at the new place of a message the new file holds its text and its header with relocated links |
| XRelocation.LinksCommute | convert_x86_x64/rebuild_xmsgs.c:280-283 | the link of a relocated message is the relocated link |
| XRelocation.WalksCommute | convert_x86_x64/rebuild_xmsgs.c:153-295 | any walk in the new file is the relocation of the same walk in the old one, and ends where that came to a message not kept |
| XConversion.ListsSurvive | convert_x86_x64/rebuild_xmsgs.c:153-295 | if the old file holds a database whose users' lists are linked as `sendx` links them, walks of any length in the new file from both ends of what was kept of a user's list show exactly those messages in the order sent, and the reversal of that |
| TelnetOptions.PutIs | inc/qtelnet.h:97-105 | setting or clearing one bit of an option leaves the other three alone |
| TelnetOptions.IsChanging | inc/qtelnet.h:107-116 | the two sums tell whether state and wanted state differ |
| TelnetOptions.AskingSettles | qstate.c:206-218 | a request keeps the counters in 0..2, and is sent exactly when it has not been made yet |
| TelnetOptions.HeardSettles | qstate.c:220-354 | no command for any option makes a counter leave 0..2, or leaves one at zero while state and wanted state differ; at most two commands are sent |
| TelnetHandshake.QinitSettles | qstate.c:419-477 | whatever the peer has said, no stage of `qinit`, the first included, makes a counter leave 0..2, or leaves one at zero while state and wanted state differ |
| TelnetHandshake.StepKeeps | qstate.c:419-484 | the invariant of server, peer and both streams survives every step |
| TelnetHandshake.RunInvariant | qstate.c:419-484 | the invariant of server, peer and both streams holds at every point of every run |
| TelnetHandshake.FencesSettle | qstate.c:429-469 | past NULL1 everything asked earlier has settled; past NULL2 the peer does not echo and nothing on its way can change that |
| TelnetHandshake.NeverBothEcho | qstate.c:459-462 | from the moment WILL ECHO is sent the peer's own echo is off for good (RFC 857, section 5) |
| TelnetHandshake.FencesUnused | qstate.c:429-463 | no fence is agreed to before it is raised |
| TelnetServer.Options.Set | inc/qtelnet.h:97-105 | a setter changes one bit of one option of the table |
| TelnetServer.Options.Flushed | inc/defs.h:132 | everything pending is sent |
| TelnetServer.Options.SendDo | qstate.c:206-218 | state, counter and bytes of a DO |
| TelnetServer.Options.SendDont | qstate.c:247-259 | state, counter and bytes of a DONT |
| TelnetServer.Options.SendWill | qstate.c:280-292 | state, counter and bytes of a WILL |
| TelnetServer.Options.WillOption | qstate.c:220-245 | state, counter and answer to WILL, in all cases |
| TelnetServer.Options.WontOption | qstate.c:261-278 | state, counter and answer to WONT |
| TelnetServer.Options.DoOption | qstate.c:294-315 | state, counter and answer to DO |
| TelnetServer.Options.DontOption | qstate.c:331-354 | state, counter and answers to DONT, with the two loop counters |
| TelnetServer.Options.Qinit | qstate.c:419-484 | every stage and the stages it falls through to: options, bytes, next stage, and that the bytes fit the buffer, if the table leaves room for them |
| TelnetServer.QinitFits | qstate.c:419-477 | for every settled table and stage, all that `qinit` sends fits sixteen bytes exactly if the requests still due, counted from the table, do |
| TelnetServer.EarlyFenceCrowds | inc/bbs.h:336 | a peer's commands after which 21 bytes are due at once |
| TelnetServer.FairPeerLeavesRoom | qstate.c:419-477 | in every run with a peer that agrees to nothing unasked there is room |
| TelnetLine.Split | qstate.c:14-204 | how the input is split across reads does not matter |
| TelnetLine.PayloadArrives | qstate.c:147-178 | any payload with its IACs doubled reaches `suboption` as its first 62 bytes |
| TelnetLine.DecodesVariables | qstate.c:378-411 | decoding undoes the encoding of RFC 1408, section 2 |
| TelnetLine.VariablesArrive | qstate.c:356-412 | what is kept of a client's variables is the last USER, cut to 15 characters |
| TelnetLine.WindowArrives | qstate.c:359-364 | the height of a client's window is what is kept if and only if it is less than 128 |
| TelnetInput.Connection.DecodeOne | qstate.c:381-407 | one step of the in-place decoder overwrites no byte it has not read |
| TelnetInput.Connection.DecodeVariables | qstate.c:378-411 | the in-place decoder computes what a decoder with memory of its own does |
| TelnetInput.Connection.SkipToVar | qstate.c:372-376 | skips to behind the first ENV_VAR, or finds nothing |
| TelnetInput.Connection.SubOption | qstate.c:356-417 | the rows and the user name a payload leaves, for any payload |
| TelnetInput.Connection.SbAccum | inc/qtelnet.h:45 | the buffer takes a byte while there is room |
| TelnetInput.Connection.EndPayload | qstate.c:155-177 | the end mark never counts as payload, even when the buffer is full |
| TelnetInput.Connection.Negotiate | qstate.c:180-198 | the four option commands reach their handlers and leave at most 15 bytes pending |
| TelnetInput.Connection.Interpret | qstate.c:80-145 | the state each byte after IAC leads to; AO alone is answered, with IAC DM, and only CLIENT or a failing answer to AYT ends the connection |
| TelnetInput.Connection.TelByte | qstate.c:24-202 | one byte moves the decoder as `TelnetLine.Step` says, is answered as the option table demands, and ends the connection exactly when it is an interrupt, an old client or could not be answered |
| TelnetInput.Connection.QTelrcv | qstate.c:14-204 | for any input at most 15 of the 16 bytes are ever pending, what is sent and what is pending are the answers to the input in order, and every payload has had its effect |
| SessionDecoder.DecodesUnit | state.c:47-204 | one complete unit is decoded to what it means |
| SessionDecoder.DecodesAll | state.c:10-204 | repeated calls return exactly the characters and line ends meant, whatever commands come between |
| SessionDecoder.DoubledIac | state.c:133-134 | a stream of complete units with one doubled IAC in it is decoded to what was meant exactly if nothing follows the IAC; otherwise one unit is garbled and the rest is right |
| SessionDecoder.Session.EndOption | state.c:155-187 | a window height of 5 to 100 is kept as it is and any other becomes 24; the rows are within that range also when the option is short and the buffer still holds an earlier one |
| SessionDecoder.Session.Interpret | state.c:66-145 | the state each byte after IAC leads to; only a doubled IAC returns anything |
| SessionDecoder.Session.Telrcv | state.c:7-205 | one call returns the next byte the reference decoder yields and leaves the rest |
| SessionDecoder.Session.ReadAll | state.c:10-204 | call after call yields the whole of the reference decoding |
| LoginQueue.HasRoom | qrunbbs.c:33-48 | a queue of different living connections has room for one more |
| LoginLine.FlowsOn | qrunbbs.c:79-316 | one thing happening to the queue after another: the order of those who wait, the two ways to leave, and where those started came from carry over |
| LoginLine.FlowsFailed | qrunbbs.c:147-152 | a connection that a message does not get through to leaves, and nobody else |
| LoginLine.FlowsStarted | qrunbbs.c:187-200 | a connection that is started leaves, and nobody else |
| LoginQueue.EntersRanked | qrunbbs.c:30-52 | an arrival keeps clients before plain users, and plain users in order of arrival |
| LoginQueue.LeavesRanked | qmisc.c:365-371 | a departure keeps the ranks |
| LoginQueue.RisenRanked | qrunbbs.c:65-77 | a sysop's promotion keeps the ranks and everybody else's order |
| LoginQueue.Queue.Enter | qrunbbs.c:26-52 | one entry more, at the place of its class, the others in their order; a plain user is told the place it would have with the client |
| LoginQueue.Queue.Leave | qmisc.c:365-371 | exactly that entry goes, the others keep their order |
| LoginQueue.Queue.Drop | qmisc.c:352-372 | the connection is dead and in the queue no more; everybody else keeps place and order |
| LoginQueue.Queue.MoveUp | qrunbbs.c:68-75 | the downward loop moves one entry up and shifts exactly those between |
| LoginQueue.Queue.Promote | qrunbbs.c:65-77 | the sysop moves up behind those promoted before |
| LoginQueue.Queue.Tell | qrunbbs.c:106-125 | the place told is never above one told before |
| LoginQueue.Queue.ShowOne | qrunbbs.c:98-127 | who is told, what, and who is passed over |
| LoginQueue.Queue.Report | qrunbbs.c:98-127 | everybody due is told once, although connections may be lost on the way |
| LoginQueue.Queue.FindReady | qrunbbs.c:137-165 | the first connection that can be started, and that nobody before it can be |
| LoginQueue.Queue.StartOne | qrunbbs.c:171-199 | exactly the first entry that can be started leaves, and who it was is kept with the queue it was started from |
| LoginQueue.Queue.Greet | qrunbbs.c:87-95 | a newcomer that finds no room is greeted once |
| LoginQueue.Queue.ServeQueue | qrunbbs.c:79-316 | the loop ends: nobody waits, or there is no room for anybody but the privileged and none of these is in front, or nobody waiting can be started now |
| LoginQueue.Queue.RunBbs | qrunbbs.c:4-317 | over every call: a new living connection is at the place of its class and a sysop behind those promoted before; of that queue what waits afterwards is a subsequence, whoever does not was started or could not be reached, and whoever was started comes from it and was then the first that could be; places told never rise, at most sixty without privilege are started between two rings, and nobody startable is left behind |
| LoginQueue.Queue.DoRing | qmisc.c:38-85 | exactly the idle leave, and sixty may start again |
| MessageLog.WholeAppended | doc_msgs.c:270-275 | a new message ends exactly those it overlaps |
| MessageLog.WhoSurvives | doc_msgs.c:270-275 | of this round and the one before, exactly the messages of this round and those from its end on stay |
| MessageRetention.RunPacked | doc_msgs.c:270-271 | after any messages entered and marked those of the present round, and those of the round before, lie without a gap from the start of the file, and that round ended where the next message did not fit |
| MessageRetention.StaysUntilFull | doc_msgs.c:267-275 | a message is whole as long as it and all newer ones together leave room in the file for the longest of the newer ones |
| MessageLog.AppendKeeps | doc_msgs.c:267-275 | every message nothing has been written over, the new one included, is whole, aligned and in the file |
| MessageLog.CheckFindsMessage | doc_msgs.c:347-363 | a message nothing has been written over passes the checks exactly for the number it bears now |
| MessageLog.MessageFile.Append | doc_msgs.c:270-275 | a message goes to the cursor, or to the start if it does not fit before the end; gone is exactly what it overlaps, which of this round and the one before is what lies before its end |
| MessageLog.MessageFile.EnterMessage | doc_msgs.c:245-275 | the message stored is the one made, padded to words, under the next number |
| MessageLog.MessageFile.MarkDeleted | doc_routines.c:386-399 | a message marked deleted keeps its place and bytes but for its number, its old number, its type, the mark, and who deleted it, where and when |
| MessageLog.MarkedSound | doc_routines.c:386-399 | it bears the new number, the one it had until then where the old one belongs, the deleter and the room, is still a sound message, and no other byte has changed |
| MessageLog.MessageFile.CheckMessage | doc_msgs.c:341-363 | a place passes exactly if it is aligned, has the magic byte and a known type and, when a number is asked for, bears it; a bad type is told apart |
| RoomWindows.PushedOrdered | doc_routines.c:475-482 | a window stays ordered when a newer message is posted |
| RoomWindows.PushedRising | doc_routines.c:475-482 | a window does not fall when a message no older is posted |
| RoomWindows.DroppedOrdered | doc_routines.c:412-419 | a window stays ordered, or does not fall, with one more empty place in front, when a message is deleted |
| RoomWindows.Push | doc_routines.c:475-482 | the loop over a room or the private copy drops the oldest and adds the newest |
| RoomWindows.PushMail | doc_routines.c:449-461 | the loop over the mailboxes of sender and receiver, which may be one: the sender's copy has a negative position, unless it is the receiver's too |
| RoomWindows.PushOwn | doc_routines.c:463-472 | the loop over the sender's own mailbox adds the message with a negative position |
| RoomWindows.Drop | doc_routines.c:410-419 | the search and the shift over a room or the private copy lose exactly the newest message of that number, if there is one |
| RoomWindows.DropMail | doc_routines.c:375-383 | the search and the shift over a mailbox lose exactly the newest message of that number, if there is one |
| RoomWindows.ResetPos | doc_rooms.c:831-837 | refinds the saved message or the next newer one, in any window that does not fall |
| RoomBase.MessageBase.LoadRoom | doc_rooms.c:176-204 | the private copy of a room, or of the mailbox with positions made positive |
| RoomBase.PostedInStep | doc_routines.c:443-495 | whatever is posted wherever, the private copy stays what `loadroom` would load |
| RoomBase.PostedOrderly | doc_routines.c:443-495 | the windows stay in order when a message newer than what they hold is posted |
| RoomBase.PostedTidy | doc_routines.c:443-495 | no window falls when a message no older than what they hold is posted, however often |
| RoomBase.MessageBase.FrPost | doc_routines.c:443-495 | who gets the message, with which place and number, and who does not, in memory |
| RoomBase.DeletedInStep | doc_routines.c:369-432 | the window or mailbox and the private copy lose the same place |
| RoomBase.DeletedGone | doc_routines.c:369-432 | the number is gone afterwards if and only if the window did not hold it twice |
| RoomBase.MessageBase.Delete | doc_routines.c:369-432 | the searches and shifts of a deletion take the newest message of that number, if there is one, out of the window and of the copy |
| MessageBoard.Board.constructor | setupbbs.c:31 | an empty file and empty windows fit together |
| MessageBoard.Board.EnterMessage | doc_msgs.c:263-291 | the message is stored under the next number and posted to its room or mailboxes, from a yell to the sender's mailbox as well, and what a sysop or moderator writes to their room; over any run every number in every window still leads to its message and no window falls; strict order is lost exactly when both postings go to one room |
| MessageBoard.Board.LoadRoom | doc_rooms.c:176-204 | entering a room keeps the invariant |
| MessageBoard.Board.ReadSlot | doc_rooms.c:396-397 | a message of the current room that is still whole passes the checks exactly if it has not been deleted since it got that number |
| MessageBoard.Board.FrDelete | doc_routines.c:358-432 | with the byte at the place deciding, the message there is marked and posted among the deleted ones, and one message of the number leaves the window and the copy; over any run every number in every window still leads to its message and no window falls |
| MessageBoard.NumberLeadsHome | doc_msgs.c:341-363 | whatever room or mailbox gives a number and a place, a whole message is found there exactly if it has not been deleted since it got that number |
| MessageBoard.EnteredOrderly | doc_msgs.c:277-290 | a new message keeps every window in strict order if and only if it is not written as sysop or moderator in the room its second posting goes to |
| MessageBoard.TwiceUnordered | doc_msgs.c:284-287 | a window that gets one number twice is not in strict order |
| MessageBoard.EnteredTidy | doc_msgs.c:277-290 | no window falls when a message is entered, whichever windows it goes to |
| MessageBoard.EnteredNumbered | doc_msgs.c:268-275 | every message bears the last number it was given, after a new message |
| MessageBoard.MarkedNumbered | doc_routines.c:387-388 | and after a deletion |
| MessageBoard.OwnMessage | doc_msgs.c:341-363 | a whole message found at a place is the one of a number, undeleted, exactly if it passes the checks for that number |
| MessageBoard.PlaceReused | doc_msgs.c:270-275 | a file in which a message begins where an older one, still known to a window, did |
| LineEditor.AfterInk | doc_msgs.c:702-814 | one key adds to the ink, or takes from it, exactly its own characters |
| LineEditor.RunInk | doc_msgs.c:659-814 | over any keys the ink is what was typed net of what each erasing key took from the line, and stored ink never shrinks |
| LineEditor.BackspaceRubsOne | doc_msgs.c:711-721 | a backspace takes one character at most |
| LineEditor.NetTyped | doc_msgs.c:659-814 | as long as nothing is erased the ink is what was typed, but for keys that are ignored beyond the limit |
| LineEditor.MenuReachable | doc_msgs.c:659-814 | some keys reach the menu if and only if the text is within the limit or is being uploaded |
| LineEditor.NoWayOut | doc_msgs.c:659-814 | from any state somebody who is not uploading can type keys, none of which leaves the editor, after which none ever does |
| LineWords.WordsInk | doc_msgs.c:659-814 | the words of a text are its ink, cut up |
| LineWords.LetteredWords | doc_msgs.c:771-798 | a full line is broken at its noticed blank if that is in its right half, and no word is cut; otherwise at the margin, and the character begins a word of its own; a shorter line is not broken |
| LineWords.ErasedWords | doc_msgs.c:711-742 | a backspace takes the last character of the line, CTRL_X all of it, and CTRL_W exactly its last word, from where that begins |
| LineWords.AfterWords | doc_msgs.c:702-814 | what any key does to the words of the message |
| LineWords.RunWords | doc_msgs.c:659-814 | over any keys the words of the message are those the keys spell, where only a visible key in a full line without a noticed blank in its right half cuts a word |
| LineWords.BreaksWord | doc_msgs.c:771-794 | wherever that happens the line ends in the middle of a word |
| LineWords.MeantWords | doc_msgs.c:659-814 | as long as nothing is erased the message has the words typed and one more for each line broken at the margin: they are the words typed if and only if none is |
| LineWords.AllNoticed | doc_msgs.c:767-794 | over any keys but tabs the blank noticed is the last one of the line |
| LineWords.LetteredNoticed | doc_msgs.c:772-786 | of a line broken at its last blank only the word being typed moves to the next |
| LineWords.TabUnnoticed | doc_msgs.c:747-755 | nine tabs and seven letters fill a line that breaks at the margin although its last blank is in column 72 |
| LineWords.BlanksAtMargin | doc_msgs.c:756-770 | of the blanks behind a full line the first ends it, the second is swallowed and the third begins the next |
| LineEditor.Editor.StoreLine | doc_msgs.c:778-791 | the first characters of the line become a stored line of their own |
| LineEditor.Editor.Backspace | doc_msgs.c:711-721 | one character less, and `lastspace` still marks a space |
| LineEditor.Editor.EraseWord | doc_msgs.c:730-742 | the blanks and the word at the end go |
| LineEditor.Editor.Redisplay | doc_msgs.c:743-746 | the NUL behind the line is in bounds and no part of it |
| LineEditor.Editor.TabBlanks | doc_msgs.c:747-755 | blanks up to the next eighth column |
| LineEditor.Editor.EndLine | doc_msgs.c:800-809 | the line is stored without the blanks at its end |
| LineEditor.Editor.WriteBlank | doc_msgs.c:767-770 | a blank at the margin ends the line and swallows the next one |
| LineEditor.Editor.WrapWord | doc_msgs.c:772-786 | what is behind the noticed blank moves to a new line |
| LineEditor.Editor.WrapHard | doc_msgs.c:787-794 | a line without a blank in its right half is broken at the margin |
| LineEditor.Editor.Key | doc_msgs.c:702-814 | any key: bounds, lines of at most 79 characters, and the exact text, line, marks and outcome it leaves, of which `LineWords.AfterWords` and `LineEditor.AfterInk` say what they are |
| LineEditor.Editor.Edit | doc_msgs.c:659-814 | any number of keys: the exact text, line and marks after them, of which `LineWords.RunWords` and `LineEditor.RunInk` say what they are, and that the editor ends at the first key that reaches the menu |

## Left out

User index

- UserIndex.FindUser: assumes user numbers from 1 to 2^31 - 1 and a `gen` that does not wrap; the retry counter and `msync` are not modelled.
- UserIndex.Search: the place a failed search leaves for an insertion is claimed only if nothing was cleared; only writers, who hold the lock, use it.
- UserWriters.UserData.AddUser: names longer than 19 characters, which `strncpy` would cut, are excluded; another process between the two rounds is not modelled; of a user's page only the number and the time off are.
- Names that only a crash in the middle of copying a link's bytes could leave: a name is one write.

Online table

- OnlineWalk.Walk: `eternal` stays below 999999999, as the walk itself assumes; the reverse order of `f_revwho` can skip entries and is left out, and so is the filter on guests.
- OnlineWriters.BigBtmp.ReserveSlot: the copy of a slot is one write; the cleaning of ghost logins, the highest number of users and the loop that chooses again are left out.
- OnlineWriters.BigBtmp.TryRemove: one search and one locked part; the source starts over while the process is found but gone when the lock is had.
- The address block list, sound in neither its regular expressions nor its indexing.

X messages

- XDatabase.Database.SendX: requires that the newest messages of both users are still in the log, because the source follows `xmaxpos` without a check; a message longer than the reserve of 512 bytes at the end of the file, questions of who may send to whom, and the signal to the receiver are left out.
- XDatabase.Database.CheckX: requires that nothing pending is taken for scrolled over, which `XDatabase.DrainEnds` shows to be the exact condition for its loop to end.
- XDatabase.Database.DisplayX: the check of the time sequence, which only its other callers ask for, and what is printed.
- XDatabase.Database.Express: requires that what was pending is whole and not taken for scrolled over once the message has been sent.
- XDatabase.Database.Xyell: a missing check bit, and the text it formats.

X conversion

- XConversion.HeldIsMessage: behind the header of a message without lines nothing is written, so that what the scan reads there is left over from before; such messages are excluded.
- XRelocation.Converter.RebuildXmsgs: at most 65534 messages and an old file of at most 5000000 bytes; beyond the end of the old file bytes read as zeros, where the source keeps what its buffer held; the one byte its text buffer is too short for is not modelled.

Telnet

- TelnetServer.Options.Qinit: requires that what it sends fits its buffer, by the exact condition of `TelnetServer.QinitFits`; what lies behind the buffer is not modelled.
- TelnetHandshake.NeverBothEcho: the peer answers every DO once, DONT with WONT, and never speaks first; the request for its variables is no option command and not part of the two streams.
- TelnetServer.Options.DontOption: `sgaloop` and `echoloop` are eight bits wide and wrap, so that over unbounded runs they bound nothing.
- TelnetServer.Options.SendDont: a partial or failing send ends the connection; only complete ones leave a state to speak of.
- TelnetInput.Connection.QTelrcv: the count of characters typed before login, the login dialogue itself and the hand-over of a client to the queue are an arbitrary choice of whether the connection survives.
- SessionDecoder.Session.Telrcv: the answers to AYT and AO, and the flags of the client's block protocol.

Login queue

- LoginQueue.Queue.ServeQueue: forks succeed; a fork that fails for want of processes is tried again without end.
- LoginQueue.Queue.RunBbs: a connection enters once; a repeated CLIENT2, which would enter it again, and the `qindex` entry a promotion reads when the queue is empty, are excluded by its requirements.
- LoginQueue.Queue.ShowOne: the wording of the messages, and the statistics kept for other programs.

Message base

- MessageBoard.Board.ReadSlot: that mail between others is not shown, one's own new messages are skipped, and what is printed.
- MessageBoard.Board.FrDelete: requires that a magic byte at the place is the first of a whole message; a byte of that value inside another one is excluded. Posts of other processes between two calls are left out.

Line editor

- LineEditor.Editor.Edit: the BBS client's own path, the menu behind the text, and the saving of an X conversation.

Elsewhere

- The other converters, the setup programs, voting (a second copy of the editor), user profiles, rooms' descriptions, help, password checks, SSL, host names and System V semaphores.
