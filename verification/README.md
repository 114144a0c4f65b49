# The auction server, verified

A Dafny model of the RC auction server and of its wire protocol, with proofs about whole runs. The
server keeps everything in a directory tree, guards it with one semaphore, closes auctions lazily
when somebody looks at them, and is run by one UDP process and many forked TCP children.

`dafny verify dfyconfig.toml` checks everything. No member is assumed.

## How the model is built

Three descriptions of the same database are proved equal to one another:

- **Store** is the directory tree as maps: per user a password file, a login file, HOSTED and BIDDED;
  per auction START, END and one file a bid. `Store.Do` is the specification of every operation, with
  its reply, the new tree and what it does to the permit count, the odd exits included.
- **Server** is the same in the source's form: a class whose methods test, create and unlink files
  step by step, loop over directory entries in any order, sort and cut the results. Each public
  method is proved to do what `Store.Do` says.
- **Programs** is the same once more as trees of single file accesses between `sem_wait` and
  `sem_post`, so that several of them can be interleaved.

**Ledger** is the independent reference: an append-only list of lots in which an auction is over from
its deadline on, whether or not anyone looks. It has no END files, no indexes, no id scan and no
directory order, and queries do not change it. **Refinement** proves that no reply tells the tree
from the ledger, and **History** and **Sessions** draw from that what a run promises to its users, in
terms of the replies alone. **Promises** is the converse: the answer that each call must get, told
from the answers before it, with all limits on requests written out. **Concurrency** proves that every
interleaving of every set of processes amounts to one sequential run, with **Footprints** saying what
each single access may touch; **Progress** proves that whoever waits can be answered; **Allocation**
proves that ids stay unique even where the lock fails.

On the protocol side **Wire** and **Messages** hold the printers, the hand-written readers over a flat
string, and the proofs that readers undo printers. **Adapters** and **Readers** are the imperative
readers over the two message adapters, each proved to give what its flat reader gives however
`read()` cuts the bytes, and the sending loop. **Grammar** says how every message is laid out and
exactly which texts the readers of requests accept. **Disk** is the text of the files, which justifies that
Store keeps them as records. **Paths** follows the file name of an asset through the tree, which
says for which names Store's account of Open is right. **Handlers** joins the sides: exactly which
answers of a run of parsed requests reach the client as the database gave them. **Departures** holds
concrete runs on which the server does not do what the protocol promises. **Common** and **Text**
hold sorted sequences, numerals, words of a line and the character checks.

Every operation takes one clock reading. In a run the readings do not decrease and stay below 2^32
(`History.Clocked`), so that the `uint32_t` subtractions do not wrap; the subtractions themselves are
modelled modulo 2^32. A date is the number of seconds it formats; `fmt`, a parameter, stands for
`gmtime` and `sprintf`, of which only fixed widths are assumed.

Every Open, in every call, process and run of the model, carries a `Store.Upload`: an offer whose file
name has no NUL and does not lead above ASSET (`Paths.Contained`). This is a hypothesis of all
theorems about runs; the source does not check it, and without it they are false of the code.

## Where the code departs from its intent

The model follows the code. Proved consequences:

- `CreateAssetFile` appends the file name of a request to a path without looking at it. A name that
  climbs out of ASSET, as `../../001/END_001.txt`, makes the asset overwrite another file, so that a
  closed auction does not stay as it is (`Departures.EndMayBeOverwritten`, from `Paths.EndOverwritten`).
  `Paths.StaysExactly` gives the exact condition under which nothing outside ASSET can change; it
  holds of every contained name (`Paths.ContainedSpares`), and for those Store's account of the asset
  is right (`Paths.ContainedAsset`).
- A NUL in the file name cuts START when it is written, but not the path that is opened: Open answers
  with an id, and the auction has no readable START (`Departures.NulLosesStart`). START is written
  whole exactly when there is no NUL (`Disk.StartIsWhole`).
- Lazy closing cannot be seen in any answer, but it can in the permits: a bid that would be the first
  to find the deadline passed keeps the permit, and a look at the auction just before it saves it
  (`History.LookingSavesThePermit`).
- `List` posts without having waited; three exits keep the permit: a bid that finds the deadline
  passed, a Close that finds END, and a listing for a user without a directory
  (`History.PermitsAddUp` counts them). `Concurrency.Serialisable` therefore covers runs without List.
- `CloseAuction` looks for `END<aid>`, which never exists, so only `Close` notices an END.
- An Open that fails after its `mkdir` leaves the directory behind, because `rmdir` refuses a
  directory with files or sub-directories. If START is missing or unreadable, every later List throws
  (`History.ListNeedsEveryStart`, `History.RefusedOpenBreaksList`).
- START is read back word by word. An empty auction name or white space in a file name loses it, and
  an empty name with a tab in the file name shifts the fields (`Store.AsRead`,
  `Disk.StartFileComesBack`, `Departures.ShiftedNameIsLost`).
- `stol` takes signs, so a bid of `-5` is accepted as 4294967291, after which `stoi` throws and the
  record gets no reply (`Handlers.SignedBidWraps`, `Departures.WrappedBidIsLost`).
- An elapsed time of 0 is not printed, so an auction closed in the second it opened looks open to the
  client; without an E section the record's last newline stays unread (`Messages.RecordComesBack`).
- The server prints user ids without leading zeros when it looks up accounts for UDP requests, so only
  ids from 100000 on can ever log in; this is why records always carry ids that read back
  (`Handlers.DirectoryNames`, `Handlers.IdsAsSent`).
- `Open` throws for a user who is not logged in where its handler expects -1, so the status NLG is
  never sent for it; the client gets no reply (`Handlers.OpenIsAnswered`).
- Login, Logout and Unregister have exits that throw UserNotLoggedIn, which their handlers drop without
  a reply; UNR is never sent (`Handlers.LoginIsAnswered`, `Handlers.LogoutIsAnswered`).

## Model

| member | source | states |
|---|---|---|
| Refinement.Simulation | src/server/database.cpp:1102-1834 | From matching states every operation, at any later clock reading, gives the eager ledger's reply and leads to matching states, for all arguments and all directory orders; an Open's file name is one that stays in ASSET. |
| Refinement.SettleSame | src/server/database.cpp:584-648 | Writing END lazily leaves the same lot: END, once there, is the early close or the deadline, and a listing's ACTIVE bit means that the lot is not over. |
| Refinement.TooLowIsFloor | src/server/database.cpp:1714-1742 | Comparing a bid with every bid file refuses exactly the values not above the last accepted bid, or the start value when there is none. |
| Refinement.SortedIsHistory | src/server/database.cpp:96-100 | Listing BIDS in any order and sorting by value gives the bids in the order they were placed. |
| Refinement.ListSame | src/server/database.cpp:1421-1545 | A listing in any directory order, with any entries closed on the way, answers the ledger's listing or throws exactly when a listed START is unreadable. |
| History.RunRefinesLedger | src/server/database.cpp:1102-1834 | Every run from the empty tree, its Opens with file names that stay in ASSET, ends matching the ledger of the same calls. |
| History.AnswersAreTheLedgers | src/server/database.cpp:1102-1834 | Every answer in every such run is the ledger's. |
| History.LazyClosingIsUnobservable | src/server/database.cpp:1687-1708 | Deleting from a run any queries and any calls that threw, although they may have written END, changes no other answer, END dates and elapsed times included. |
| History.LookingSavesThePermit | src/server/database.cpp:1704-1708 | Only the permits tell: the bid that finds the deadline passed keeps one, and not after a ShowRecord of the auction, though its answer is the same. |
| History.RecordShowsTheHistory | src/server/database.cpp:1817-1831 | A record shows the last 50 accepted bids, or all, element by element in the order placed, each with its age; all accepted bids rise strictly from above the start value. |
| History.RecordShowsTheStart | src/server/database.cpp:751-795 | A record shows host, time and terms of the one Open that made the auction, and as name and file name the two words that the offered ones make. |
| History.RecordShowsTheEnd | src/server/database.cpp:601-636 | A record shows an end exactly when the host's Close or the deadline has come, with that date and elapsed time, whoever discovered it and when. |
| History.ClosedIsFrozen | src/server/database.cpp:1687-1691 | Once END exists, START, END and the bids stay as they are for the rest of the run. |
| History.EndBounds | src/server/database.cpp:601-632 | END lies within the active time and dates start plus elapsed; every bid is younger than the active time and not after END. |
| History.IndexesTellTheTruth | src/server/database.cpp:325-385 | HOSTED holds exactly the ids of the user's successful Opens and agrees with START; BIDDED exactly those of its accepted bids, which are exactly the auctions with a bid file by the user. |
| History.ListingsTellTheTruth | src/server/database.cpp:1421-1545 | MyAuctions and MyBids list exactly these ids, once each and sorted; MyAuctions throws exactly when one of them has an unreadable START. |
| History.ListingsShowTheEnd | src/server/database.cpp:1451-1470 | Every entry of every listing is ACTIVE if and only if neither the host's Close nor the deadline has come. |
| History.NoBidOnOwn | src/server/database.cpp:1672-1676 | In every run the auctions a user opened and those it has bids on are disjoint. |
| History.DirectoriesAreDense | src/server/database.cpp:1274-1299 | The auction directories of every run are 001 to some number below 1000. |
| History.LotIsOffered | src/server/database.cpp:1315-1316 | Every auction has the host, the time and the terms, as START reads back, of the one Open that made its directory. |
| History.OpensAreDistinct | src/server/database.cpp:1274-1331 | No Open returns an id that an earlier one returned. |
| History.ListNeedsEveryStart | src/server/database.cpp:1578-1583 | List answers if and only if every auction directory has a readable START. |
| History.RefusedOpenBreaksList | src/server/database.cpp:1305-1317 | The failing run, for any user and any terms that START refuses, such as an active time of 0: the Open fails but leaves a directory that makes List throw. |
| History.PermitsAddUp | src/server/database.cpp:49-62 | After every run the permits are 1 plus the Lists minus the exits that keep the permit, which are told by their guards; every other exit gives back what it took. |
| Sessions.FilesKnowTheSession | src/server/database.cpp:1102-1198 | The files let a user act with a password if and only if it logged in with it and has not logged out or unregistered since; a login file always has its password file. |
| Sessions.EffectsAreAuthorised | src/server/database.cpp:1265-1273 | An Open, Close or Bid that succeeds or changes anything has such a session. |
| Sessions.PasswordIsTheRegistered | src/server/database.cpp:1102-1159 | A user's stored password changes only at a Login that answers REGISTER or a successful Unregister. |
| Promises.LoginAnswers | src/server/database.cpp:1102-1159 | In every run a Login answers OK if and only if the password is the one registered, REGISTER if and only if none is and user and password are six digits, not all zero, and eight letters or digits; otherwise NOK, or an exception for a wrong password in a session. |
| Promises.LogoutAnswers | src/server/database.cpp:1171-1198 | A Logout answers OK if and only if the user is in a session with that password, NOK for any other password than the registered one, and throws else. |
| Promises.UnregisterAnswers | src/server/database.cpp:1209-1241 | An Unregister answers OK if and only if the user is in a session with that password, NOK for any other password than the registered one, and throws else. |
| Promises.DirectoriesAreLogins | src/server/database.cpp:186-220 | A user has a directory if and only if there has been a Login with that id, six digits and not all zero, whatever it answered. |
| Promises.OpenAnswers | src/server/database.cpp:1260-1331 | In a session an Open returns one more than the number of directories if and only if that is below 999, the active time 1 to 99999, the start value at most 999999, the name at most 24 printable characters and the file name can be opened; otherwise it fails, and without a session it throws. |
| Promises.PlainNamesOpen | src/server/database.cpp:664-672 | A file name without a slash can be opened unless it is empty, "." or "..". |
| Promises.BidAnswers | src/server/database.cpp:1655-1756 | The answer of a bid in every run, told from sessions, successful Opens and Closes, START and the bids accepted before: it stands exactly in a session, on another's auction, in time, above the last bid. |
| Promises.CloseAnswers | src/server/database.cpp:1350-1413 | The answer of a Close in every run, told from the same: it succeeds exactly in a session, on an own auction that is not over. |
| Promises.ShowAnswers | src/server/database.cpp:1765-1795 | A record is shown if and only if the auction exists and START can be read. |
| Promises.StartIsReadable | src/server/database.cpp:499-530 | START can be read if and only if the Open that made the auction was within the written limits and its names make two words. |
| Promises.ListingsNeedADirectory | src/server/database.cpp:1430-1432 | MyAuctions and MyBids fail in the file system if and only if the user has no directory. |
| Programs.LoginComputes | src/server/database.cpp:1102-1159 | Alone, the single accesses of LoginUser add up to what Store says. |
| Programs.LogoutComputes | src/server/database.cpp:1171-1198 | Alone, the single accesses of Logout add up to what Store says. |
| Programs.OpenComputes | src/server/database.cpp:1260-1331 | Alone, the single accesses of Open add up to what Store says: the scan, the mkdir that decides, START, the asset, HOSTED. |
| Programs.CloseComputes | src/server/database.cpp:1350-1413 | Alone, the single accesses of CloseAuction add up to what Store says, the exit inside Close that keeps the permit included. |
| Programs.BidComputes | src/server/database.cpp:1655-1756 | Alone, the single accesses of Bid add up to what Store says, the expired path that keeps the permit included. |
| Programs.ShowComputes | src/server/database.cpp:1765-1834 | Alone, the single accesses of ShowRecord add up to what Store says. |
| Programs.ListingComputes | src/server/database.cpp:1436-1476 | The loop shared by MyAuctions and MyBids, entry by entry in any order, comes to the sorted listing with every expired auction closed, or to the throw. |
| Concurrency.TcpIsBlind | src/server/database.cpp:1209-1241 | No Open, Close or Bid can tell whether a logged-out user still has a password file: it gives the same answer, permits and files. |
| Concurrency.LogoutIsUnregister | src/server/database.cpp:1209-1241 | Unregister answers as its Logout section does and, where that is OK, differs from it only by the erased password. |
| Concurrency.AcquireStep | src/server/database.cpp:49-57 | Getting the semaphore starts exactly one call of the sequential run, and for Unregister only at its second section. |
| Concurrency.AccessStep | src/server/server.cpp:450-491 | No access of one process, wherever it is scheduled, takes any process off the way to the sequential run's files and answers. |
| Concurrency.Serialisable | src/server/server.cpp:297-324 | For every set of processes and every schedule of their accesses, with one UDP request served at a time: at most one process is inside; all answers are those of one sequential run in which each process has one call, its own; whenever nobody is in the middle of a section the files are that run's, but for a password being erased; and at every step a login file has its password file. |
| Concurrency.ConcurrentRunsFollowTheLedger | src/server/server.cpp:450-491 | In every schedule all answers are the ledger's, and the files match the ledger whenever nobody is in the middle of a section, also after an exit that kept the permit. |
| Concurrency.PermitsAreConserved | src/server/database.cpp:49-62 | A step of any program keeps permits plus processes inside. |
| Concurrency.OnePermit | src/server/database.cpp:32-62 | In every schedule permits plus processes inside are 1. |
| Progress.InsideFinishes | src/server/database.cpp:49-62 | Whoever is inside, let run alone, reaches its sem_post or an exit that forgets it. |
| Progress.WaitingIsAnswered | src/server/database.cpp:49-52 | From every point of every schedule with a free permit, and nobody or this request served or the request a TCP one, some steps of a waiting process alone give it its answer; unless its exit forgets to post, the permit is free again. |
| Progress.ServingIsUnderWay | src/server/server.cpp:297-324 | The UDP process is at a request only until that is answered. |
| Progress.NobodyWaitsForNothing | src/server/server.cpp:450-491 | No deadlock: from every point of every schedule, every waiting process can still be answered, unless some process loses the permit for good. |
| Footprints.LoginKeepsLogins | src/server/database.cpp:1102-1159 | No single access of LoginUser leaves a login file without its password file. |
| Footprints.UnregisterKeepsLogins | src/server/database.cpp:1209-1241 | Nor does any access of the sections of Unregister. |
| Footprints.QuietOpen | src/server/database.cpp:1260-1331 | Whatever other processes do in between, no access of Open touches an account file. |
| Footprints.QuietUnregister | src/server/database.cpp:1209-1241 | Whatever other processes do in between, no access of Unregister makes or removes an auction directory. |
| Footprints.QuietBid | src/server/database.cpp:1655-1756 | No access of Bid touches an account file or an auction directory, whatever files each finds. |
| Allocation.IdsDenseAndUnique | src/server/database.cpp:1274-1331 | With any permit count, so even without mutual exclusion, and any interleaving of the accesses of Opens, Lists and all other operations, the directories stay 001..n with n below 1000 and no two Opens return the same id. |
| Allocation.OthersAreQuiet | src/server/database.cpp:1102-1834 | Every process that is not an Open, List included, is from its first access on one that leaves the auction directories alone. |
| Allocation.OthersStayQuiet | src/server/database.cpp:1102-1834 | Each access of such a process, wherever it is scheduled, keeps the set of auction directories. |
| Server.SortBy | src/server/database.cpp:1475-1476 | Sorting by a key with distinct values gives the same elements in strictly rising order. |
| Server.Database.SemaphoreWait | src/server/database.cpp:49-52 | It takes a permit exactly when there is one, and touches no file. |
| Server.Database.CreateUserDir | src/server/database.cpp:186-220 | It makes an empty directory for a valid user that has none and changes nothing else. |
| Server.Database.EraseLogin | src/server/database.cpp:408-435 | It removes exactly the user's login file. |
| Server.Database.ErasePasswordFile | src/server/database.cpp:459-486 | Its code and the account files are those of Store's third section of Unregister. |
| Server.Database.LoginUser | src/server/database.cpp:1102-1159 | Its reply, the whole new tree and the permits are Store's for every tree; without a permit it blocks and changes nothing. |
| Server.Database.LogoutUser | src/server/database.cpp:1171-1198 | Reply, whole tree and permits are Store's; without a permit it blocks and changes nothing. |
| Server.Database.UnregisterUser | src/server/database.cpp:1209-1241 | Over its three critical sections, reply, whole tree and permits are those of one step of Store. |
| Server.Database.NextAuctionId | src/server/database.cpp:1277-1294 | The scan in any directory order gives one past the greatest id, or 1. |
| Server.Database.CheckAuctionBelongs | src/server/database.cpp:1007-1025 | The loop over HOSTED finds the id exactly when it is there. |
| Server.Database.CreateEndFile | src/server/database.cpp:584-648 | END is written once, with the deadline or the present, and never rewritten. |
| Server.Database.SettleAuction | src/server/database.cpp:1797-1812 | Looking at an auction writes END exactly when the time is up and there is none. |
| Server.Database.OpenAuctionFor | src/server/database.cpp:1260-1331 | Reply, tree and permits are Store's, orphan directories included. |
| Server.Database.CreateAuction | src/server/database.cpp:1301-1327 | From the mkdir on: the directory stays whatever fails after it, START and HOSTED are written in that order, and the code is the id only if all went well. |
| Server.Database.CloseAuctionOf | src/server/database.cpp:1350-1413 | Reply, tree and permits are Store's. |
| Server.Database.SomeBidNotBelow | src/server/database.cpp:1727-1742 | The loop over bid files, in any order, finds a bid not below the value exactly when there is one. |
| Server.Database.BidOnAuction | src/server/database.cpp:1655-1756 | Reply, tree and permits are Store's. |
| Server.Database.ListEntries | src/server/database.cpp:1436-1473 | The listing loop reports each entry once with its true state, closing what is over, or stops at an unreadable START. |
| Server.Database.VisitEntry | src/server/database.cpp:1445-1470 | One entry: its true state, with END written if the time is up, or the failure of an unreadable START. |
| Server.Database.MyAuctionsOf | src/server/database.cpp:1421-1479 | Reply, tree and permits are Store's for some set of entries reached. |
| Server.Database.MyBidsOf | src/server/database.cpp:1487-1545 | Reply, tree and permits are Store's for some set of entries reached. |
| Server.Database.ListAll | src/server/database.cpp:1552-1607 | Reply and tree are Store's for some set of entries reached, without waiting and with one permit more afterwards. |
| Server.Database.LastBids | src/server/database.cpp:1817-1831 | Collecting the bids in any order, sorting and cutting gives the 50 greatest in rising order. |
| Server.Database.ShowRecordOf | src/server/database.cpp:1765-1834 | Reply, tree and permits are Store's. |
| Text.PadInjective | src/shared/utils.cpp:78-83 | Different auction ids have different directory names. |
| Text.WordsSplit | src/server/database.cpp:767-773 | Words before and after white space are read independently of each other. |
| Text.OneWord | src/server/database.cpp:771-775 | A line is one word if and only if it has a character and none of the six of white space. |
| Wire.NumberComesBack | src/shared/utils.cpp:91-97 | A number reads back when its numeral fits the reader's width and a separator follows. |
| Wire.UserComesBack | src/shared/utils.cpp:41-46 | Unpadded user ids from 100000 to 999999 read back. |
| Wire.AuctionComesBack | src/shared/utils.cpp:66-83 | Three-digit auction ids read back. |
| Wire.DateComesBack | src/shared/utils.cpp:117-125 | A printed date reads back. |
| Messages.RecordComesBack | src/shared/protocol.cpp:721-814 | Reading a printed record gives every field and every bid back in order, with the end if its elapsed time is positive, and leaves the newline unread exactly when there is no E section. |
| Messages.RecordComesBackExactly | src/shared/protocol.cpp:736-744 | The record is read as it was if and only if it has a positive elapsed time or no end date to lose. |
| Messages.BidsComeBack | src/shared/protocol.cpp:777-794 | The loop over B sections reads all bids, for any number of them, and stops at the E section or the newline. |
| Messages.ListComesBack | src/shared/protocol.cpp:647-691 | Reading a printed list gives one line an entry, in order, with the text ACTIVE or OVER as the entry says. |
| Messages.ListFits | src/shared/config.hpp:33 | A list of n entries takes 7 + 6n characters, 6001 for all 999 auctions, below the 6002 of the client's buffer. |
| Messages.RecordFits | src/shared/protocol.cpp:721-751 | A record of at most 50 bids takes at most 2212 characters. |
| Messages.AssetReplyComesBack | src/shared/protocol.cpp:1014-1057 | Reading a printed asset answer gives the name and the exact bytes and takes nothing that follows. |
| Messages.OpenComesBack | src/shared/protocol.cpp:822-853 | Reading a printed open request gives all fields and the exact payload bytes, spaces and newlines included, and takes nothing that follows. |
| Messages.BidRequestComesBack | src/shared/protocol.cpp:1065-1088 | Reading a printed bid request gives it back. |
| Grammar.RecordLayout | src/shared/protocol.cpp:721-751 | The record message is its fields, in the listed order, bid sections and E section included, with one space between them and a newline. |
| Grammar.ListLayout | src/shared/protocol.cpp:647-664 | A list message is its code, OK, and the id and state bit of each entry in order, with one space between them and a newline. |
| Grammar.OpenLayout | src/shared/protocol.cpp:822-828 | The open request is its eight fields in order with one space between them, the payload last, and a newline. |
| Grammar.BidRequestLayout | src/shared/protocol.cpp:1065-1072 | The bid request is user, password, padded auction id and value with one space between them and a newline. |
| Grammar.AssetLayout | src/shared/protocol.cpp:1014-1028 | The asset answer is OK, name, size and bytes with one space between them and a newline. |
| Grammar.NumeralGrows | src/shared/protocol.cpp:722-732 | A printed number is its decimal digits, most significant first. |
| Grammar.PadFills | src/shared/utils.cpp:78-83 | Padding puts zeros in front up to the width. |
| Grammar.StringExactly | src/shared/protocol.cpp:109-126 | readString takes a word if and only if it has no space or newline and either fills the width or is followed by one. |
| Grammar.CharExactly | src/shared/protocol.cpp:35-40 | readChar takes exactly the character it expects. |
| Grammar.IdExactly | src/shared/protocol.cpp:66-82 | readMessageId takes exactly the code. |
| Grammar.FileExactly | src/shared/protocol.cpp:234-251 | readFile takes exactly n bytes, for n up to ten million. |
| Grammar.StolExactly | src/shared/utils.cpp:91-97 | stol takes the digits after white space and one sign, ignores what follows, and fails exactly without a digit. |
| Grammar.BidRequestExactly | src/shared/protocol.cpp:1078-1088 | The reader of bid requests accepts a text if and only if it is spelt so: six-digit id, eight-character password, three-digit auction, a value of at most six characters as stol takes it, and the newline. |
| Grammar.OpenExactly | src/shared/protocol.cpp:834-853 | The reader of open requests accepts a text if and only if it is spelt so, field widths, size and payload included. |
| Adapters.TcpMessage.FillBuffer | src/shared/protocol.hpp:189-210 | A refill changes none of the bytes still to come; it throws only at their end. |
| Adapters.TcpMessage.Get | src/shared/protocol.hpp:212-220 | get takes the first of the bytes still to come, whatever the chunks. |
| Adapters.TcpMessage.Unget | src/shared/protocol.hpp:226-228 | unget puts the last character back in front. |
| Adapters.StreamMessage.Get | src/shared/protocol.hpp:156-158 | get takes the next character, or makes the stream bad exactly at its end. |
| Adapters.StreamMessage.Unget | src/shared/protocol.hpp:162-164 | unget steps back by one. |
| Adapters.PeekChar | src/shared/protocol.cpp:48-56 | Over either adapter a character that is not wanted is put back: the input is as before. |
| Adapters.ReadLetter | src/shared/protocol.cpp:112-123 | One turn of readString's loop moves one character from the input to what is collected, or puts the separator back. |
| Adapters.ReadString | src/shared/protocol.cpp:109-126 | The loop of readString over either adapter gives what the flat reader gives. |
| Adapters.ReadNumber | src/shared/protocol.cpp:785-786 | A number field read over either adapter is the flat reader's, or its error. |
| Adapters.ReadUserId | src/shared/protocol.cpp:133-136 | A user id read over either adapter is the flat reader's, or its error. |
| Adapters.ReadDate | src/shared/protocol.cpp:213-227 | A date read over either adapter is the flat reader's, or its error. |
| Adapters.ReadFile | src/shared/protocol.cpp:234-251 | readFile gives exactly the next n bytes, whatever they are. |
| Adapters.ReadMessageId | src/shared/protocol.cpp:66-82 | The loop of readMessageId gives what the flat reader gives. |
| Readers.ServerShowRecord.ReadBids | src/shared/protocol.cpp:777-794 | The while loop over bids appends exactly the flat reader's bids. |
| Readers.ServerShowRecord.ReadSections | src/shared/protocol.cpp:777-804 | What follows the active time fills bids and end as the flat reader says. |
| Readers.ServerShowRecord.ReadMessage | src/shared/protocol.cpp:757-814 | readMessage fills the object with the flat reader's record, over either adapter and any chunks, or throws its error. |
| Readers.ReadList | src/shared/protocol.cpp:670-691 | readMessage of the list answers ends on every input and gives the flat reader's lines. |
| Readers.ReadEntries | src/shared/protocol.cpp:174-206 | The loop over entries ends on every input and appends exactly the flat reader's lines. |
| Readers.ReadOpen | src/shared/protocol.cpp:834-853 | readMessage of the open request gives the flat reader's request. |
| Readers.SendTcpMessage | src/shared/protocol.cpp:1204-1222 | Whatever sizes write() takes, the bytes delivered are a prefix of the message, and without an error the loop ends with all of it. |
| Readers.ReadAssetReply | src/shared/protocol.cpp:1034-1057 | readMessage of the asset answer gives the flat reader's answer. |
| Readers.AssetArrives | src/shared/protocol.cpp:1204-1222 | An asset sent in any pieces and received in any chunks is the asset the client holds, byte for byte. |
| Readers.RecordArrives | src/shared/protocol.cpp:1230-1259 | A record of at most 50 bids fits the datagram buffer and is the record the client holds. |
| Readers.OpenArrives | src/shared/protocol.cpp:834-853 | An open request sent in any pieces and received in any chunks is read back with its exact payload. |
| Readers.RecordReadsAgree | src/shared/protocol.hpp:150-237 | Reading a record gives the same result and the same fields over both adapters. |
| Disk.Tokenise | src/server/database.cpp:767-773 | The extraction loop gives the words of the line. |
| Disk.StartIsWhole | src/server/database.cpp:520-556 | START is written whole if and only if the file name has no NUL. |
| Disk.StartAgain | src/server/database.cpp:751-795 | Writing START and reading it gives the record Store keeps, or a rejection where Store has none. |
| Disk.EndAgain | src/server/database.cpp:804-832 | Writing END and reading it gives its date and elapsed time. |
| Disk.BidAgain | src/server/database.cpp:841-879 | Writing a bid file and reading it gives its four fields. |
| Paths.ContainedAsset | src/server/database.cpp:658-679 | In a new auction directory a contained file name is opened exactly when Store says so, and one file in ASSET is all that changes. |
| Paths.StaysExactly | src/server/database.cpp:664-669 | Opening a name can change nothing outside ASSET, whatever the tree, if and only if the name ends in no file name, leads below ASSET, or leads to a directory above it or one it passes through. |
| Paths.ContainedSpares | src/server/database.cpp:664-669 | Every contained name satisfies that condition, for every auction. |
| Paths.EndOverwritten | src/server/database.cpp:664-669 | The failing name: through it the asset of any auction becomes the END of any other. |
| Disk.StartFileComesBack | src/server/database.cpp:751-795 | START reads back if and only if the two names make two words, and then as the record Store keeps; otherwise GetStart rejects it. |
| Disk.StartUnchanged | src/server/database.cpp:515-528 | It reads back unchanged if and only if both names are single words. |
| Disk.EndFileComesBack | src/server/database.cpp:804-832 | Every END line fits its buffer and reads back as written. |
| Disk.BidFileComesBack | src/server/database.cpp:841-879 | Every bid line fits its buffer and reads back as written. |
| Disk.DateSurvives | src/shared/utils.cpp:132-151 | convert_str_to_date gives back the date that was stamped. |
| Handlers.ParsedOpenIsFromWire | src/shared/protocol.cpp:834-853 | Whatever an open request with a contained file name holds, the call it becomes satisfies the hypothesis of the theorems below. |
| Handlers.ParsedBidIsFromWire | src/shared/protocol.cpp:1078-1088 | Whatever a bid request holds, the call it becomes satisfies that hypothesis too. |
| Handlers.ParsedValueRange | src/shared/utils.cpp:91-97 | A value read from the wire has at most six digits, or it had a minus sign and lies within 99999 of 2^32. |
| Handlers.SignedBidWraps | src/shared/utils.cpp:91-97 | The concrete input: -5 is read as 4294967291. |
| Handlers.DirectoryNames | src/server/handlers.cpp:26-29 | Only ids with six significant digits get a user directory. |
| Handlers.WireRun | src/server/handlers.cpp:399-411 | In every run of parsed requests all hosts, bidders, names and values stay within what the protocol can print. |
| Handlers.EveryFileReadsBack | src/server/database.cpp:804-879 | In every run of parsed requests every END and every bid file reads back as written. |
| Handlers.HandleShowRecord | src/server/handlers.cpp:321-375 | The handler's loop builds the specified reply, or none when stoi cannot convert a bid. |
| Handlers.RecordsReachTheClient | src/server/handlers.cpp:332-360 | In every run of parsed requests the record reply is sent and parses if and only if the name that the auction's Open gave, as it reads back, has at most ten characters and its last 50 accepted bids have at most six digits; then it fits the buffer and the client sees the database's own record field by field, but for an end with elapsed time 0. |
| Handlers.CarefulRunsAreAnswered | src/server/handlers.cpp:332-360 | In every run of parsed requests whose Opens give a name and whose bids have no sign, every record of every auction reaches the client so. |
| Handlers.AnswerableByCalls | src/server/database.cpp:1817-1831 | That a record can be printed and read is told by the run's calls alone: the Open that made the auction and the bids accepted on it. |
| Handlers.UnanswerableIsLost | src/server/handlers.cpp:343-348 | Otherwise the reply is either not sent or not readable. |
| Departures.ShiftedNameIsLost | src/server/handlers.cpp:332-337 | A family of concrete runs with a shifted name that the client cannot read. |
| Departures.WrappedBidIsLost | src/server/handlers.cpp:343-348 | A concrete run with a wrapped bid, after which the record gets no reply. |
| Departures.EndMayBeOverwritten | src/server/database.cpp:1319-1323 | A concrete run of parsed requests after which an asset's file name of 21 characters turns the END of a closed auction into any text. |
| Departures.NulLosesStart | src/server/database.cpp:520-556 | With a NUL in its file name the asset is made under the name before it, while START is cut to three words and cannot be read. |
| Handlers.HandleList | src/server/handlers.cpp:173-207 | The list handlers' loop builds the specified reply. |
| Handlers.LotsBound | src/server/database.cpp:1296-1299 | A listing never has more than 999 entries, none with an id above 999. |
| Handlers.ListsReachTheClient | src/shared/protocol.cpp:647-691 | Every listing any run can give is sent, fits the client's buffer and reads back line by line, with the id and the text ACTIVE or OVER of each entry. |
| Handlers.ListShowsEveryAuction | src/server/database.cpp:1552-1607 | What List shows the client is every auction of the run, once, in id order, with the text ACTIVE exactly when it is not over. |
| Handlers.AcceptedMeansPlaced | src/server/handlers.cpp:557-601 | In every run every bid gets a status, and ACC if and only if the bid stands. |
| Handlers.BidIsAnswered | src/server/handlers.cpp:557-601 | In every run the status of a bid is NLG without a session, NOK for a wrong password, an unknown or an ended auction, ILG on an own one, REF when it is too low, and ACC else. |
| Handlers.CloseIsAnswered | src/server/handlers.cpp:449-493 | In every run the status of a Close is NOK, NLG, EAU, EOW, END or OK by whether the user exists, is in a session, with this password, and whether the auction exists, is its own and is over. |
| Handlers.OpenIsAnswered | src/server/handlers.cpp:387-427 | In every run an Open in a session is answered with the id it made or with NOK, by the written limits; without one it gets no reply. |
| Handlers.UnknownRecordIsNok | src/server/handlers.cpp:365-368 | A record request for an auction that is unknown or has no readable START is answered NOK. |
| Handlers.LoginIsAnswered | src/server/handlers.cpp:15-56 | In every run the status of a login is OK, REG or NOK by what is registered and the written limits, with no reply to another password in a session. |
| Handlers.LogoutIsAnswered | src/server/handlers.cpp:67-161 | In every run a logout or unregistration is OK in a session with that password, NOK for another password, and without a reply else. |
| Handlers.IdsAsSent | src/shared/utils.cpp:53-58 | Opens, Closes and Bids act for the id exactly as sent; a login for it does if and only if it does not start with a zero. |

## Left out

- CreateAuctionDir: making the directory with its BIDS and ASSET sub-directories is one access.
- Database::ShowAsset: it reads paths and directories outside the lock, so it has no place in the serial order; asset contents are not stored in the model. Its answer as a message is.
- Sockets, timeouts, fork, signals and descriptors: only one UDP loop, many TCP children and arbitrary read and write sizes are kept.
- The calendar of gmtime: dates are seconds, and `fmt` is any function of them with fixed widths.
- Failures of the file system itself (disk full, permissions): only mkdir on an existing directory, rmdir on a non-empty one and the missing files of the model fail.
- Store.Upload: file names that lead above ASSET, and those with a NUL, are no part of any run; Paths and Departures say what they do. The type also excludes names that climb and come back, as `../ASSET/x`, which do no harm.
- Store.Readable: describes what GetStart makes of a START line for file names of at most 24 characters without spaces and newlines, which is what the protocol's reader lets through; longer ones from other callers could meet the limit of fgets.
- History.LazyClosingIsUnobservable: speaks of answers, in runs without processes that wait forever for a lost permit; the permit count is the subject of PermitsAddUp, LookingSavesThePermit and the class methods, which block.
- Concurrency.Serialisable: List is not among the processes, because it posts without waiting; a process that leaks the permit is, and then nobody enters any more.
- Server.Database.UnregisterUser: the method runs its three sections without other processes in between; that nobody can tell is Concurrency.Serialisable.
- Programs.ListingComputes: the snapshot that directory_iterator takes of HOSTED or BIDDED is one access, and so are the reads of all of BIDS in Bid and ShowRecord and Open's scan.
- Wire.UserComesBack: ids below 100000, which print with fewer than six digits and do not read back, are excluded by its hypothesis; no such user can have a directory (Handlers.DirectoryNames).
- Handlers.RecordsReachTheClient: the handler's second look at the login file for LMA and LMB is a parameter of the list theorems, and requests that fail to parse are not calls of the run.
- The messages that carry only a status, and the open reply: the reader and printer pieces they are made of are proved, the messages are not spelt out.
- Operations that read the clock more than once, across a tick: each takes one reading here.
- The client's command line, all printing and the retry loops.
