# Boar BBS: the verified core

Boar is a bulletin board system: callers reach it over Telnet, write mail and chat,
and it exchanges FidoNet packets with other systems. This project models the parts of
it where a mistake would lose, leak or garble something, and proves in Dafny that they
do not. Five cores are here, each in its own modules.

**FidoNet wire format** (`Charsets`, `Addresses`, `Packets`, `PacketIO`, `Nets`,
`PacketHeaders`, `Messages`, `MessageIO`, `Scanning`, `RoundTrips`, `Echomail`,
`ForeignMessages`, `Routing`). Type 2 and 2+ packets (FTS-0001 with the
FSC-0039/FSC-0048 header), packed messages, control lines, the SEEN-BY/PATH shorthand,
4D addresses and character sets, byte by byte and with the real CP437, CP866 and UTF-8
tables. The main results are the round trips through all layers at once.

**Outbound queue and tosser** (`OutboundPaths`, `Outbounds`, `FtnStore`,
`FtnContents`, `Tossing`, `TossAnswers`, `TossCrashes`, `TossRepeats`, `TossRooms`,
`TossLoop`). Queueing under a busy flag and tossing with a content ledger are machines
whose steps can be interleaved and cut short anywhere; conservation and crash safety
are proved for every schedule.

**Limits** (`Limits`, `Backoff`). The pruned in-memory rate limiter with its saved
copy, and the login backoff with its numeric bound.

**Private mail** (`Letters`, `CleanText`, `Mail`, `Mailboxes`, `MailRules`,
`MailStore`). Rows with two deletion flags, threads, blocks, account removal, and row
ids that are handed out again.

**Terminal text** (`Pipes`, `Screens`, `ScreenLaws`, `Terminals`, `Previews`,
`Widths`, `Telnets`, `TelnetConn`, `Keyboards`, `KeyLaws`, `LineEditor`, `LineKeys`,
`Chats`, `ChatHubs`). The pipe-code renderer as a compiler and the ANSI preview as its
interpreter, exact widths, the Telnet byte machine, the session's keys, the wrapping
line editor, and the chat hub.

`Text` holds the parts of Go's string packages the rest leans on. Code the program runs
as loops and objects is written as methods and classes, each proved equal to a function;
the lemmas are about those functions. `dafny verify dfyconfig.toml` checks everything.

Places where the code does less than one might claim, each with its exact condition:

- A list with a net of 0 does not survive the shorthand: reading skips such entries
  (`Nets.FormatNetsRoundTrip` says if and only if).
- Message text over 1 MiB is written, and the reader then stops at it
  (`Packets.ReadOfWritten`).
- A panel row is two columns too wide when its text fills it and ends in a pipe that
  belongs to no code, and a cut text is too wide when it has a `|CL` before the cut
  (`Widths.BoxRowExact`, `Widths.TruncateExact`, with `Widths.StrayPipeWidens` and
  `Widths.ClearWidens` as examples).
- A tosser that is killed and started again can store a message twice and end with other
  messages, when the file's own import pushes the message out of a full area. A rerun
  stores nothing twice if and only if no import does that
  (`TossRepeats.StoredAgainExactly`, with `TossRepeats.CrashShows` as the example).
- CR LF is reduced by the connection and again by the session. An Enter is lost if and
  only if a CR outside an escape sequence is followed by LF or NUL and then, but for
  escape sequences, by LF (`Keyboards.ReducedTwice`, with `Keyboards.CrLfLf` and
  `Keyboards.CursorKeyBetween` as examples).
- The login backoff lets 21 failed checks end within 15 minutes, and no bound below that
  is true (`Backoff.GuessBound`, `Backoff.GuessBoundReached`).

## Model

| member | source | states |
|---|---|---|
| Charsets.DecodeOfEncode | internal/ftn/charset.go:87-187 | Decode gives back what Encode was given if and only if Fits says so, for every text in ASCII, CP437, CP866, Latin-1 and UTF-8 |
| Charsets.LookupIsInverse | internal/ftn/charset.go:153-158 | looking a character up in a code page inverts the page, and a character that is not on it becomes a question mark |
| Charsets.FirstRuneOfUtf8 | internal/ftn/charset.go:87-128 | any character's UTF-8 bytes, whatever follows them, decode to that character and its length |
| Charsets.RuneIsUtf8 | internal/ftn/charset.go:87-128 | and bytes are taken for a character only if they are its UTF-8 form: no overlong form, surrogate or value past U+10FFFF is |
| Charsets.DamageIsLocal | internal/ftn/charset.go:87-128 | a run of bytes that cannot stand in UTF-8 reads as one U+FFFD, and the text before and after it as it is |
| Charsets.ParseOfCHRS | internal/ftn/charset.go:34-54 | the CHRS value written for a charset names that charset to a reader |
| Charsets.NamesKnown | internal/ftn/charset.go:24-39 | each charset is known by exactly its names, the old IBMPC, +7_FIDO, +7 and ISO-8859-1 among them, in any case and with or without a level |
| Charsets.EncodeText | internal/ftn/charset.go:131-151 | the encoding loop computes Encode |
| Charsets.DecodeText | internal/ftn/charset.go:87-128 | the decoding loops compute Decode, runs of invalid UTF-8 included |
| Charsets.FitsText | internal/ftn/charset.go:161-187 | the loop answers yes exactly when the text survives encoding and decoding |
| Addresses.ParseOfString | internal/ftn/addr.go:29-79 | every 4D address in 16-bit fields survives printing and parsing, without its domain |
| Addresses.ParseWithDomain | internal/ftn/addr.go:29-60 | a domain after the address is kept in small letters |
| Addresses.OnlyAddresses | internal/ftn/addr.go:29-60 | only four numbers of at most 16 bits at their places, with a zone other than 0, are an address; a point not written is 0 |
| Addresses.StringLength | internal/ftn/addr.go:73-79 | the longest a printed address can be |
| Addresses.Parse | internal/ftn/addr.go:29-60 | cutting the text and filling four numbers in a loop computes ParseAddr, errors included |
| Packets.ReadOfWritten | internal/ftn/packet.go:93-260 | a written packet reads back, header and password included, with every message up to the first over the bound as the wire keeps it; the error is TooLong exactly when there is such a message |
| Packets.WireIdempotent | internal/ftn/packet.go:131-161 | what the wire keeps of a message (clipped names, 19-byte date, no NUL) it keeps for good |
| Packets.ReadOfTruncated | internal/ftn/packet.go:164-260 | a packet cut anywhere after its header reads as its whole messages up to the first with a text over the bound, with no error exactly when there is no such message among them and the cut is at a message boundary, one byte past it, or at the full length |
| Packets.CutPlace | internal/ftn/packet.go:131-153 | Kept and Left divide the bytes of the messages at any cut: so many whole messages as the wire keeps them, then less than the next one |
| Packets.ReadZWhole | internal/ftn/packet.go:245-260 | a terminated field is read whole up to its limit, and one byte more is an error |
| PacketIO.WriteTo | internal/ftn/packet.go:93-129 | filling the header array and appending the messages writes the packet's bytes |
| PacketIO.EncodeMessage | internal/ftn/packet.go:131-153 | filling the fixed part and appending the fields writes the message's bytes |
| PacketIO.Reader.ReadZField | internal/ftn/packet.go:245-260 | reading byte by byte from the stream finds the field or the error that ReadZ defines, and leaves the rest |
| PacketIO.Reader.Decode | internal/ftn/packet.go:219-242 | reads one message off the stream, or fails where the bytes end or a field is too long |
| PacketIO.ReadFile | internal/ftn/packet.go:164-217 | the reader's loop computes ReadPacket for every byte string |
| PacketHeaders.HeaderIsRead | internal/ftn/packet.go:164-193 | from any 29 words of another program: the version decides if it is a packet; zones, nets, nodes and points of plain Type 2, Type 2+ (with its fallback for a zone of 0) and FSC-0048 point headers, the creation time and the password come from their own words |
| PacketHeaders.AnyHeader | internal/ftn/packet.go:164-173 | any 58 bytes are such words |
| Nets.FormatNetsRoundTrip | internal/ftn/message.go:166-208 | each line restates its net first, none is over 79 bytes, and reading the lines one by one gives the entries whose net is not 0: the list itself if and only if there is no other |
| Nets.SortNetsSorts | internal/ftn/message.go:211-220 | SortNets keeps exactly the entries, strictly increasing |
| Nets.SortedUnique | internal/ftn/message.go:211-220 | there is only one such list |
| Nets.NamedAll | internal/ftn/message.go:166-184 | the entries with a net are the whole list if and only if no net is 0 |
| Nets.AppendNets | internal/ftn/message.go:166-184 | the loop over the fields appends what ReadNets reads, errors skipped |
| Nets.Format | internal/ftn/message.go:188-208 | the loop that breaks lines builds FormatNets |
| MessageIO.Parse | internal/ftn/message.go:45-112 | ParseMessage as it runs computes the function the round trips are about |
| MessageIO.ReadLines | internal/ftn/message.go:60-94 | the loop over the lines sorts control lines, SEEN-BY and text |
| MessageIO.Close | internal/ftn/message.go:95-111 | what follows the loop: blank last lines dropped, charset known, origin settled |
| MessageIO.PackMessage | internal/ftn/message.go:224-272 | building the text line by line computes Pack |
| ForeignMessages.EveryField | internal/ftn/message.go:60-94 | for any lines in any order: MSGID, REPLY, TZUTC and charset are those of the last control line for them, an unknown charset changing nothing; unknown control lines, SEEN-BY and PATH are kept in order, and the text is the other lines |
| ForeignMessages.EveryPoint | internal/ftn/message.go:60-100 | the points are the numbers of the last FMPT and TOPT lines, or 0 |
| ForeignMessages.NetmailWithoutIntl | internal/ftn/message.go:45-112 | netmail that names no zone has the zones of the packet and the nets and nodes of its header |
| ForeignMessages.EchomailWithoutOrigin | internal/ftn/message.go:101-112 | echomail without an origin line comes from the address in its MSGID, and without one from where the packet says |
| RoundTrips.NetmailParsed | internal/ftn/message.go:45-135 | ParseMessage undoes Pack for every sendable netmail: addresses, names, subject, body, MSGID, REPLY, charset, TZUTC and other control lines in order |
| RoundTrips.NetmailRoundTrip | internal/ftn/packet.go:93-260 | the same through a written and read packet, with the date and attributes, for any message before the first oversized one |
| Echomail.OriginLineWidth | internal/ftn/message.go:288-295 | the origin line is never over 79 columns |
| Echomail.FooterOrigin | internal/ftn/message.go:139-154 | OriginAddr finds the address EchoFooter wrote after any text, whatever the tear text and any origin text on one line, shortened or not |
| Echomail.EchoParsed | internal/ftn/message.go:45-112 | ParseMessage undoes Pack for echomail, the origin taken from the body |
| Echomail.EchomailRoundTrip | internal/ftn/message.go:224-295 | echomail through every layer: the body whole, PATH in order, SEEN-BY sorted, the origin the footer's address |
| Routing.AddViaKeeps | internal/ftn/route.go:69-79 | for every text that does not end in NUL a reader sees the same message and one more VIA line, last |
| Routing.ViaReads | internal/ftn/route.go:69-79 | the VIA line names the system, the time and the program, in that order |
| Routing.RouteKeeps | internal/ftn/route.go:69-79 | any number of hops changes nothing else and is recorded in order |
| Routing.Route | internal/ftn/route.go:69-79 | rewriting the text as the program does computes AddVia |
| OutboundPaths.PathsDisjoint | internal/ftn/bso.go:46-65 | two packet files are the same if and only if address and flavour are, two busy flags if and only if the address is, and no packet is a flag |
| OutboundPaths.BaseRead | internal/ftn/bso.go:46-56 | zone, net, node and point can be read back from the path of any file of a node |
| OutboundPaths.PathSpelled | internal/ftn/bso.go:15-65 | the whole path of any packet: root, zone extension of three or four digits outside the default zone, net and node in four digits, a point in its directory, and out, cut, hut or dut by flavour |
| OutboundPaths.Suffixes | internal/ftn/bso.go:21-65 | the suffix of each flavour and of the busy flag |
| Outbounds.StepKeeps | internal/ftn/bso.go:70-122 | every step of every process, the mailer and a death at any point keep the queue's invariant |
| Outbounds.Conservation | internal/ftn/bso.go:70-122 | over every interleaving, what was sent and what waits are exactly the messages of the calls that reached their rename, once each and in that order |
| Outbounds.NeverPartial | internal/ftn/bso.go:91-121 | a packet file that is there always reads whole, its messages the ones that wait, unless one is over the reader's bound |
| Outbounds.OneAtATime | internal/ftn/bso.go:79-91 | two live processes are never inside Queue together, nor one beside the mailer |
| Outbounds.WholeCallFiles | internal/ftn/bso.go:70-122 | the six steps of an undisturbed call change the files as one Queue call does |
| Outbounds.Directory.Queue | internal/ftn/bso.go:70-122 | Queue as it runs: busy and unreadable are errors that change nothing, otherwise the packet is what waited and the new messages, and flag and temporary file are gone |
| FtnStore.EchoKeepsNewest | internal/store/echo.go:165-244 | an import files the message under its area, keeps exactly the newest 2000 there, and changes no other area |
| FtnContents.EchoContents | internal/store/echo.go:165-221 | after an import the newest row holds the message: the cleaned names and subject each in its own field or its default, the address, the date, its area by the tag in capitals, and of the text the longest start of 65536 bytes |
| FtnContents.PlainEchoIsKept | internal/store/echo.go:165-221 | echomail with nothing to clean is stored with its own names, subject, address, date and whole text |
| FtnContents.EchoAnswer | internal/store/echo.go:165-221 | echomail is stored if and only if its tag is usable and no stored message counts as the same; otherwise nothing changes |
| FtnContents.SameKey | internal/store/echo.go:246-252 | messages count as the same if and only if they have one MSGID, or neither has one and they agree in all that is hashed |
| CleanText.FitBytesLongest | internal/store/echo.go:254-263 | a text is cut to its longest start whose UTF-8 form has at most n bytes |
| CleanText.WholeTextFits | internal/store/echo.go:254-263 | so a text that fits is kept whole |
| FtnStore.EchoInv | internal/store/echo.go:165-244 | importing echomail keeps MSGIDs and area tags unique, ids increasing and every area within its limit |
| FtnStore.NetmailInv | internal/store/netmail.go:65-149 | importing netmail keeps MSGIDs unique, ids increasing and the box within 1000 |
| FtnContents.NetmailContents | internal/store/netmail.go:65-149 | the box after an import is the newest 999 of what it was and a row that holds the message, each field its own, both addresses and what it replies to |
| FtnContents.PlainNetmailIsKept | internal/store/netmail.go:65-94 | netmail with nothing to clean is stored with its own names, subject, addresses, date and whole text |
| FtnContents.NetmailAnswer | internal/store/netmail.go:65-149 | netmail is stored if and only if no stored netmail counts as the same; otherwise nothing changes |
| FtnStore.DropOldestTakes | internal/store/echo.go:232-244 | pruning takes exactly the oldest rows of one area and none of another |
| Tossing.NoFileIsLost | internal/ftntoss/toss.go:50-136 | whatever crashes, database errors and arrivals interrupt it, every file is in exactly one of inbound, tossed and bad, and each message of a file the run marked was handled: there is a step of the run, at that message of that file, whose database the import turned into the next with the recorded result |
| Tossing.ResultMeans | internal/store/echo.go:165-221 | a result says where the message is: skipped exactly when it is not for this node, a duplicate exactly when it was there, stored when it was not and now is, pruning included |
| TossAnswers.HandledAs | internal/ftntoss/toss.go:81-124 | netmail is stored if and only if it is for one of the node's addresses and new; echomail if and only if it came over the protected inbound, has a usable tag and is new; neither touches the other's table |
| TossAnswers.TossedAs | internal/ftntoss/toss.go:69-129 | a file tossed before is put away and stores nothing, one with no readable part is set aside unmarked, any other is imported, marked and put away |
| Tossing.RunRecords | internal/ftntoss/toss.go:81-129 | the same for the messages of a file in progress: every result so far belongs to a step that imported that message |
| Tossing.StepSafe | internal/ftntoss/toss.go:69-129 | each step keeps every file in exactly one place, and only an arrival adds one |
| Tossing.RunKeepsDb | internal/ftntoss/toss.go:69-129 | over every schedule MSGIDs and tags stay unique, ids increasing, every row in an area, and no area or box over its limit |
| TossCrashes.SettledMeans | internal/store/echo.go:186-221 | a message is settled exactly when it is not for this node or is still in its area or box |
| TossCrashes.RoomIsEnough | internal/store/echo.go:186-221 | where no area and no netmail box is full, importing a file prunes none of its own messages |
| TossRooms.CountIsEnough | internal/store/echo.go:165-244 | the same from numbers known beforehand: the rows of each area and the file's messages for it are together at most 2000, those of the box at most 1000 |
| TossCrashes.RunTracks | internal/ftntoss/toss.go:69-129 | after any crashes and restarts the state is that of an undisturbed run some way into one file, when no file's import prunes a message of that file |
| TossCrashes.CrashesDoNotShow | internal/ftntoss/toss.go:69-129 | under that condition, once inbound is empty, database, ledger and directories are exactly those of one undisturbed run, order included; areas may be full |
| TossCrashes.RestartFinishes | internal/ftntoss/toss.go:69-129 | and one more start, left alone, empties inbound and gets there |
| TossRepeats.StoredAgainExactly | internal/ftntoss/toss.go:81-124 | some schedule of crashes and restarts stores a message a second time if and only if some file's import prunes a message of that file |
| TossRepeats.CrashStoresAgain | internal/ftntoss/toss.go:81-124 | the schedule: a crash after the message is pruned, and a rerun |
| TossRepeats.NoneStoredAgain | internal/ftntoss/toss.go:81-124 | otherwise no run stores a message it went over before |
| TossRepeats.CrowdedOut | internal/store/echo.go:186-244 | in a full area, a duplicate of the oldest message and then a new one: importing both again stores the first and leaves other rows |
| TossRepeats.ComesAgain | internal/store/echo.go:186-244 | where the pruned message comes once more in the file, the rerun stores it early and ends with the same rows |
| TossRepeats.CrashShows | internal/ftntoss/toss.go:69-129 | a full area of 2000 and a bundle of two with which a killed and restarted run ends with other messages than an undisturbed one |
| TossLoop.CountersAddUp | internal/ftntoss/toss.go:69-129 | every file is counted in tossed or bad, every newly marked file once in the ledger, every message of it once as stored, duplicate or skipped |
| TossAnswers.CountersTell | internal/ftntoss/toss.go:81-124 | each counter is the number of messages with that answer, and netmail the number of stored ones that are netmail |
| TossAnswers.PartsInOrder | internal/ftn/inbound.go:30-117 | a file's messages are those of its readable parts, in order |
| TossLoop.Node.EachMessage | internal/ftn/inbound.go:30-117 | packets that cannot be read are passed over, and a file fails exactly when it has some and no other |
| TossLoop.Node.Toss | internal/ftntoss/toss.go:50-136 | the loop empties inbound and leaves what the undisturbed run is defined to leave, counters included |
| Limits.RestartTransparent | internal/bbs/limiter.go:40-124 | for a window of at most 48 hours and a clock that never goes back, the pruned, swept and reloaded limiter answers blocked and stats as one that keeps every hit since the last reset |
| Limits.AnswersCount | internal/bbs/limiter.go:53-93 | after any run a key is blocked if and only if at least limit of its hits since its last reset are inside the window, and the statistics are their number and the last one's time |
| Limits.StepKeeps | internal/bbs/limiter.go:53-124 | hits, resets, looks, restarts and other limiters' rows keep the limiter and its saved copy in agreement with the history |
| Limits.LoadedHits | internal/store/throttle.go:27-43 | what is loaded for a key is exactly its saved hits since then, in time order, whatever the order of the rows |
| Limits.ThrottleTable.Record | internal/store/throttle.go:12-18 | a hit is saved and rows past 48 hours go |
| Limits.ThrottleTable.Load | internal/store/throttle.go:27-43 | the loop over the sorted rows fills the map LoadHits defines |
| Limits.SavedOfSort | internal/store/throttle.go:27-43 | sorting the rows sorts the times of each key |
| Limits.RateLimiter.Recent | internal/bbs/limiter.go:110-124 | drops the hits outside the window, and the key with its last hit |
| Limits.RateLimiter.AddOne | internal/bbs/limiter.go:59-70 | a hit is swept for, added and saved |
| Limits.RateLimiter.GetStats | internal/bbs/limiter.go:85-93 | count and last time of the hits inside the window |
| Backoff.Delays | internal/bbs/backoff.go:32-38 | the waits 0, 0, 2, 4, 8, 16, 32, 60, 60, ... seconds |
| Backoff.DelayGrows | internal/bbs/backoff.go:32-38 | more failures never mean a shorter wait |
| Backoff.GuessBound | internal/bbs/backoff.go:14-75 | at most 21 failed checks of one handle end inside any 15 minutes with no successful login between them, restarts of the program included |
| Backoff.GuessBoundReached | internal/bbs/backoff.go:14-75 | a run in which 21 do |
| Backoff.TotalWaitIs | internal/bbs/backoff.go:32-38 | the sum of the first waits, from which the bound comes |
| Backoff.LoginBackoff.TryBegin | internal/bbs/backoff.go:43-55 | a check begins exactly when none is running and the wait since the last failure is over, and otherwise the rest of the wait is returned |
| Backoff.LoginBackoff.End | internal/bbs/backoff.go:66-75 | the reservation goes, and the failure is recorded or the history reset |
| Mailboxes.SendDelivers | internal/store/messages.go:45-101 | a delivered letter is the newest of its reader's inbox and its writer's outbox, as cleaned, and no other box changes |
| Mailboxes.DeleteIsPrivate | internal/store/messages.go:215-230 | deleting takes exactly that letter out of one's own boxes and leaves every other user's inbox, outbox and threads as they were |
| Mailboxes.DeleteUserKeeps | internal/store/users.go:269-293 | removing an account leaves every other inbox and takes from other outboxes exactly what was addressed to it |
| Mailboxes.ThreadsAreTrue | internal/store/messages.go:72-114 | in every reachable state two letters share a thread if and only if they are of one conversation, although ids are used again; a thread's number is at most its letter's id; a reply that still names a row names the letter it answered |
| Mailboxes.MailboxesAreSafe | internal/store/messages.go:72-98 | in every reachable state no row has both flags set, no inbox is over its limit, and deleting is private |
| Mailboxes.NewAccountIsEmpty | internal/store/users.go:66-107 | an account created under a number that was used before starts with empty boxes and nobody's blocks |
| MailRules.DeliveredExactly | internal/store/messages.go:45-135 | a letter is delivered if and only if subject and body are of a proper size, both accounts exist, the writer is validated or the reader a sysop, the reader has not blocked the writer unless that is a sysop, and fewer than 500 letters wait; otherwise nothing changes |
| MailRules.RefusedBecause | internal/store/messages.go:55-79 | and which refusal is given, in order of precedence |
| MailRules.BlockHolds | internal/store/messages.go:63-70 | over every run, from a block until it is lifted no letter of the blocked user reaches the one who blocked, unless as a sysop |
| MailRules.JoinsWhatItSees | internal/store/messages.go:80-114 | a reply joins the thread of the letter it names if its writer has a copy of that, and begins its own otherwise |
| MailRules.ThreadShowsCopies | internal/store/messages.go:159-175 | a thread shows exactly the letters of the conversation its reader has a copy of, and nothing to one who has none of the letter asked for |
| MailRules.ReadMarksOne | internal/store/messages.go:193-212 | reading marks the reader's own copy of one letter, once |
| MailRules.AccountBegins | internal/store/users.go:66-107 | what a new account is: the first a sysop's, the others not and validated unless approval is asked for |
| MailRules.RemovedExactly | internal/store/users.go:269-293 | an account is removed if and only if a sysop asks and it is not the own one |
| CleanText.CleanedIs | internal/term/text.go:11-34 | a cleaned field is what is shown of it, without the white space around it, as far as the limit goes |
| CleanText.BodyStays | internal/store/messages.go:131-138 | a body of plain lines is kept line for line, whether CR LF or LF ends them |
| CleanText.BodyShown | internal/store/messages.go:131-138 | whatever the body, no control character is left in it and no blank line at either end |
| MailStore.Database.SendMessage | internal/store/messages.go:45-101 | the transaction computes Send, or refuses for the reason Send gives |
| MailStore.Database.DeleteMessage | internal/store/messages.go:215-230 | two flag updates and the purge compute Delete |
| MailStore.Database.RemoveUser | internal/store/users.go:269-293 | the statements, in their order, compute DeleteUser |
| Pipes.Renderer.Render | internal/term/render.go:61-89 | the scanning loop writes what the grammar of pipe codes says, and leaves the colours it says, in every colour mode |
| Pipes.Renderer.Code | internal/term/render.go:91-126 | two characters are taken as a code exactly when isCode would, and anything else changes nothing |
| Pipes.NumbersMean | internal/term/render.go:10-19 | the numbers to 15 set the colour of the text, 16 to 23 the ground, each keeping the other, and higher ones are text |
| Pipes.ColoursSwap | internal/term/render.go:27-28 | the colour table exchanges red and blue, as ANSI counts them the other way round |
| Screens.PlaceOne | internal/web/ansi.go:43-72 | drawing changes the cell under the cursor and no other, and none past the last row |
| Screens.FeedOk | internal/web/ansi.go:141-178 | whatever it is fed, the screen stays within 80 by 500 cells and the 16 and 8 colours and draws no character below space |
| ScreenLaws.AddressedCell | internal/web/ansi.go:107-125 | a row and a column sent as text and then a character put it there, counted from 1, in the screen's colours, and keep every other cell |
| ScreenLaws.MovesCancel | internal/web/ansi.go:107-116 | down and up, right and left cancel where no edge stops the cursor |
| ScreenLaws.MovesStop | internal/web/ansi.go:107-116 | where each move leaves the cursor, and that it changes nothing else |
| ScreenLaws.CursorComesBack | internal/web/ansi.go:134-137 | whatever happens between saving and restoring, the cursor is back and the rest stays |
| ScreenLaws.LineErased | internal/web/ansi.go:130-133 | erasing a line blanks it from the cursor on and keeps every other cell |
| ScreenLaws.ColoursShow | internal/web/ansi.go:74-98 | what each colour parameter does to the characters drawn after it |
| Terminals.Terminal.PutRune | internal/web/ansi.go:53-72 | growing the rows and the row cell by cell computes Put |
| Terminals.Terminal.Control | internal/web/ansi.go:100-138 | each control sequence has the effect Csi defines |
| Terminals.Terminal.Interpret | internal/web/ansi.go:141-178 | the scanning loop computes Feed for every text |
| Previews.PreviewIsPaint | internal/term/render.go:61-140 | rendering pipe codes and interpreting the ANSI output draws what the codes say directly, grid, cursor and colours, from any screen, for every text without an escape character |
| Previews.PipePreview | internal/web/ansi.go:226-230 | a preview with a new screen and renderer shows what the codes say |
| Previews.FeedSequence | internal/web/ansi.go:141-167 | one escape sequence is taken whole, parameters and all, and the rest goes on after it |
| Widths.TruncateKeeps | internal/term/render.go:155-181 | a text cut to n columns keeps exactly its first n visible characters |
| Widths.TruncateExact | internal/term/render.go:147-181 | its width is the smaller of n and the text's if and only if the text is no longer than n or has no clear-screen code before column n + 1 |
| Widths.TruncateShows | internal/term/render.go:147-181 | with no clear-screen code it shows the first n columns |
| Widths.TruncateVisible | internal/term/render.go:155-181 | the loop with its counter computes Truncate, for negative n too |
| Widths.EscapeIsUndone | internal/term/render.go:143-145 | escaped text comes out of any renderer as it went in and leaves its colours |
| Widths.FitExact | internal/bbs/ui.go:45-48 | fit is never narrower than asked and exactly as wide if and only if the text is no longer than that or has no clear-screen code before the column it is cut at |
| Widths.BoxRowExact | internal/bbs/ui.go:98-103 | a panel row has the panel's width if and only if its text meets that condition and does not fill its columns with a pipe of no code last |
| Widths.PanelRowsLineUp | internal/bbs/ui.go:98-103 | lines whose pipes are all codes or doubled and that clear nothing always line up |
| Widths.SeparatorExact | internal/bbs/ui.go:98-101 | the divider has the panel's width |
| Widths.StrayPipeWidens | internal/bbs/ui.go:98-103 | a row of width 5 that comes out at 7 columns |
| Widths.ClearWidens | internal/term/render.go:147-181 | a text cut to 2 columns that counts 3 |
| Widths.ClearsOfCut | internal/term/render.go:155-181 | the clear-screen codes kept are those before column n + 1 of the text |
| Widths.StrayOfCut | internal/term/render.go:155-181 | the cut text ends in a pipe of no code exactly when that is the last thing in the first n columns of the text |
| Telnets.Transparent | internal/telnet/conn.go:84-138 | data among any commands and subnegotiations is read as it is in binary mode, and with one LF or NUL after each CR taken out in text mode, commands between CR and LF included; each command has its effect, in order |
| Telnets.WrittenIsRead | internal/telnet/conn.go:228-243 | what Write escapes is read back, and answers nothing |
| Telnets.SubnegRead | internal/telnet/conn.go:167-194 | an escaped subnegotiation is read to its end and its first 64 bytes kept |
| Telnets.WindowReported | internal/telnet/conn.go:167-205 | a window size reported on the wire sets width and height to what was reported, within the bounds, a 0 leaving that side alone |
| Telnets.Answered | internal/telnet/conn.go:142-165 | which options are accepted and how any other is refused, the first time |
| Telnets.NegotiationEnds | internal/telnet/conn.go:142-165 | for any bytes at all, all that is sent is one refusal for each thing refused, and the window size keeps its bounds |
| Keyboards.ReducedTwice | internal/bbs/session.go:186-260 | over Telnet, where the connection reduces CR LF and CR NUL before the session does, the keys are those the session alone would read if and only if there is no place where a CR outside an escape sequence is followed by LF or NUL and then, but for escape sequences, by LF; otherwise there are fewer |
| Keyboards.TypedOverTelnet | internal/telnet/conn.go:84-138 | the same from the wire: data among commands and subnegotiations |
| Keyboards.KeysAreNext | internal/bbs/session.go:186-218 | reading key by key gives all the keys of the bytes |
| Keyboards.Keyboard.ReadRune | internal/bbs/session.go:186-218 | the loop returns the key, state and rest that NextKey defines |
| Keyboards.Keyboard.SkipEscape | internal/bbs/session.go:222-241 | the escape state and whether the byte is swallowed |
| Keyboards.Keyboard.HighByte | internal/bbs/session.go:243-260 | a byte above 127 in each charset, UTF-8 gathered until it is a rune or cannot be one |
| Keyboards.TypedIsRead | internal/bbs/session.go:186-260 | any text without control characters that a UTF-8 terminal sends is read as its characters, one key each |
| KeyLaws.Cp437IsRead | internal/bbs/session.go:243-260 | what a CP437 terminal sends for a text of its characters is read as that text |
| KeyLaws.SequenceIsSilent | internal/bbs/session.go:222-241 | a cursor or function key gives no key on any terminal, in the middle of a character too |
| KeyLaws.AsciiKeys | internal/bbs/session.go:186-218 | what each ASCII byte is: BS and DEL Backspace, ^U the kill key, CR and LF Enter, NUL nothing |
| Keyboards.CrLfLf | internal/bbs/session.go:198-206 | CR LF LF is two Enters to the session and one over Telnet |
| Keyboards.CursorKeyBetween | internal/bbs/session.go:195-206 | so is CR LF, a cursor key, LF |
| Keyboards.CrLfNul | internal/bbs/session.go:198-210 | CR LF NUL is one Enter either way |
| TelnetConn.Conn.ReadDataByte | internal/telnet/conn.go:84-115 | the loop returns the byte, state and rest that ReadByte defines |
| TelnetConn.Conn.ReadControl | internal/telnet/conn.go:119-138 | a command is read and handled, or the input ends |
| TelnetConn.Conn.Negotiate | internal/telnet/conn.go:142-165 | what was asked for is accepted, anything else refused once |
| TelnetConn.Conn.ReadSubneg | internal/telnet/conn.go:167-205 | the loop collects what ReadSub does and sets the window size |
| TelnetConn.Conn.Write | internal/telnet/conn.go:228-243 | every 0xFF is sent twice and nothing else changed |
| LineEditor.WrapKeeps | internal/bbs/session.go:333-353 | a wrapped line and its carry are the buffer and the overflowing key in order with only spaces between them gone, and some are unless one word fills the line |
| LineEditor.NothingTypedIsLost | internal/bbs/session.go:298-353 | for any stream of printable keys and Enters, the lines and the buffer are all that was typed, in order, but for runs of spaces at the breaks |
| LineEditor.LinesFit | internal/bbs/editor.go:27-56 | for any keys, no line of a message and nothing left in the buffer is over the limit |
| LineEditor.LineFits | internal/bbs/session.go:298-353 | for any keys, a line is within its limit and its carry fits on the next line |
| LineEditor.PromptFits | internal/bbs/session.go:298-331 | without wrapping, keys past the limit are refused |
| LineEditor.BreakLine | internal/bbs/session.go:333-353 | the backward search for a space computes WrapOverflow |
| LineKeys.LineIsUnstruck | internal/bbs/session.go:298-331 | for any stream on one line, with wrapping or without: the line is the keys that were not refused, with what Backspace and Ctrl-U strike out gone, and the later keys go on from there |
| LineKeys.LineEnded | internal/bbs/session.go:298-331 | so the line an Enter ends is that, and what a hang-up leaves too |
| LineKeys.LineWraps | internal/bbs/session.go:318-353 | and with wrapping the key that finds the line full breaks that line |
| LineKeys.TakenBack | internal/bbs/session.go:310-313 | a printable key that fits and a Backspace change nothing |
| LineKeys.KillStartsOver | internal/bbs/session.go:314-315 | after Ctrl-U the line is that of the later keys |
| LineKeys.WrapCarriesAWord | internal/bbs/session.go:333-353 | what is carried is all after the last space, and the line ends in a word |
| KeyLaws.ErasedAtPrompt | internal/bbs/session.go:298-331 | a text typed and taken back character by character leaves no trace |
| LineEditor.Session.EditLine | internal/bbs/session.go:298-331 | the loop over the keys computes ReadLine |
| LineEditor.Session.EditLines | internal/bbs/editor.go:27-56 | the editor's loop chains the lines by their carry |
| Chats.ChatIsSafe | internal/bbs/chat.go:66-118 | in every reachable state a member's room field names the one room it is in, the one it joined last and has not left; no room is empty; at most 64 lines wait; and what a member got and what waits are exactly the lines the events sent to the room it was in at the time, in order, but for those of users it blocked and those that found 64 waiting |
| Chats.StepHeard | internal/bbs/chat.go:66-118 | exactly what an event does to a member's channel: by its room field it is offered someone leaving, speaking or coming there, or itself coming; a line is kept unless it is blocked or 64 wait; reading takes the oldest |
| Chats.ChannelIsExact | internal/bbs/chat.go:66-118 | so over every run what waits and what was read are a function of the events, and a line is missed only while 64 wait |
| Chats.RoomIsJoined | internal/bbs/chat.go:66-95 | the room field is what the events alone say |
| Chats.NeverFromBlocked | internal/bbs/chat.go:106-118 | in every reachable state nothing a member got and nothing that waits for it is from a user it blocked |
| Chats.SayReaches | internal/bbs/chat.go:98-118 | a spoken line is the next in the channel of exactly those in the room who have not blocked the speaker and have fewer than 64 waiting, and changes nothing for anyone else |
| Chats.JoinReaches | internal/bbs/chat.go:66-82 | who hears that someone came |
| Chats.LeaveReaches | internal/bbs/chat.go:84-95 | who hears that someone left |
| Chats.AnnouncementReads | internal/bbs/chat.go:66-95 | an announcement reads as it says, whatever pipes are in the handle |
| ChatHubs.Hub.Send | internal/bbs/chat.go:108-118 | the loop over the room gives the line to exactly its members, as each one's channel and blocks allow |
| ChatHubs.Hub.LeaveLocked | internal/bbs/chat.go:84-95 | the member leaves, an empty room goes, and those who stay hear of it |
| ChatHubs.Hub.Join | internal/bbs/chat.go:66-76 | the member is in the new room only; the old room hears it left, then the new one, the member included, that it joined |
| ChatHubs.Hub.Say | internal/bbs/chat.go:98-104 | everyone in the speaker's room is sent the line, the speaker too, and nobody elsewhere |

## Left out

- Packets.ReadOfWritten: dates stay 19 opaque bytes and creation times raw fields; Go's calendar normalisation of impossible dates is not modelled.
- RoundTrips.NetmailRoundTrip: upper-casing of control-line names is ASCII only, and numbers follow Go's 64-bit limits only where text is parsed into them.
- Outbounds.Conservation: the mailer sends and removes a packet in one step under the flag, a rename is atomic, and the temporary name is a parameter. A flag left by a dead process stays until someone breaks it, which is a step of the model and is not done by the program.
- OutboundPaths.PathsDisjoint: the outbound root is taken as a clean path.
- FtnStore.EchoInv: the SHA-1 of a message without MSGID is its content, taken as collision-free. The date of a message is kept as it was packed; a missing date is not replaced by the clock. Receiving times, descriptions and read marks are not kept, and netmail written on the board is not in the box.
- Tossing.NoFileIsLost: a move to another directory is one atomic step to a free name; the copy between file systems, the name filter, file echoes (TIC files) and the ZIP layer are not modelled. A file is the list of its packets, and its SHA-256 is its content.
- TossCrashes.CrashesDoNotShow: the database reports no error, since an error sets the file aside. The condition is exact for storing a message twice, not for the final messages: where it fails they may still agree (`TossRepeats.ComesAgain`).
- Limits.RestartTransparent: each limiter method reads the clock once, and database calls succeed.
- Backoff.GuessBound: end is one step; the program drops the reservation and records the failure in two critical sections.
- Mailboxes.ThreadsAreTrue: tables are rows in id order and each transaction one step; handles, passwords, approval rules and search are not modelled.
- Screens.FeedOk: cursor sums are unbounded integers, so the wrap-around of a 64-bit sum is not captured; bytes of text are code points, and the HTML writer and the CP437 art converter are left out.
- Previews.PreviewIsPaint: is about the 16-colour mode, the one the preview uses; the 256-colour mode is only rendered.
- Widths.BoxRowExact: the divider needs a width of at least 2, below which the program stops; titles, borders and tables are left out.
- Telnets.Transparent: the binary switch does not change during the run, and writing never fails.
- LineEditor.NothingTypedIsLost: is about keys that take nothing back; `LineKeys.LineIsUnstruck` is about the others, one line at a time. Echo, slash commands and the 200-line limit are left out.
- Chats.ChatIsSafe: each hub method and each read from a channel is one step.
- Sockets, SSH, HTTP, SMTP, file transfers, doors, menus, templates, passwords and tokens are not part of this model.
- Boards, files, search, connection caps and the mail retry queue would only add easy members.
