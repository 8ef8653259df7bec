# Prez: a Dafny model of its consensus, storage and allocation core

Prez is a replicated key/value server. Its servers agree on a log with Raft, keep that log in a file, talk RESP to
clients, and rest on the data structures of Redis and the allocator jemalloc. This project models the parts of it
whose behaviour is hardest to see from the code, and proves what they are for:

| part | files |
|---|---|
| Raft: the handlers as functions on one server, the cluster as a transition system with loss, delay, reordering and any number of servers, the safety theorems over whole runs, and the imperative server that takes those steps | `RaftLog`, `RaftNode`, `RaftSystem`, `Handlers`, `ElectionSafety`, `LogMatching`, `MisplacedEntry`, `ElectionStall`, `CommitChoice`, `CommitPastEnd`, `ClusterServer` |
| The log file: records, truncation and replay | `Resp`, `LogFile` |
| Client requests: the incremental parser, quoting and splitting | `RequestParser`, `Quoting`, `Splitting` |
| Numerals | `Decimal` |
| Dictionaries: two tables with incremental rehashing, and the stateless scan with a reversed cursor | `Words`, `DictTable`, `Dict`, `DictScan`, `ScanMisses` |
| Ziplists: packed lists with cascading length fields | `ZipCodec`, `Ziplist` |
| LZF compression, partial sorting | `Lzf`, `PartialSort`, `Counting` |
| jemalloc: extents of free address space, page runs of a chunk, cuckoo hashing | `Extents`, `RunMap`, `Arena`, `Cuckoo` |

`Prelude` holds the byte and option types. Code that updates fields or buffers step by step is a class or a method over
arrays, proved against a function or an invariant; code that only computes is a function. Red-black trees are ordered
sets with their search functions, hash functions are arbitrary functions, and the answers of the outside world (clocks,
the network, `malloc`, purging, random draws) are parameters.

## What does not hold

Some properties one would expect of the code are false of it. The model keeps the code as it is and says exactly when
they hold.

- **Log Matching.** `logTruncate` leaves an entry alone when it is the last one (src/log.c:190), so a conflict on the last
  entry is not cut away and the leader's entry lands one position late. `MisplacedEntry.LogMatchingCanFail` is such a run
  of three servers; `LogMatching.LogMatchingExactly` shows that a run keeps Log Matching in every state if and only if no
  step hands a follower a batch whose first conflict is the follower's last entry.
- **A quorum electing a leader.** A vote is refused when the voter's last index *or* last term is greater
  (src/cluster.c:691-697), where section 5.4.1 of the Raft paper compares terms first. `ElectionStall.GrantsExactly` is the
  difference: candidates with a newer but shorter log are refused. From any quiet state of any run, the servers that are
  up can elect a leader by themselves if and only if one of them has a quorum among them that would not refuse it
  (`ElectionStall.ElectsExactly`). `ElectionStall.QuorumCanStall` is a run of three servers that leaves two of them, a
  quorum, unable to.
- **Committing a current-term entry only.** Replies are matched to the last entry sent, so the match indexes can pass the
  log's end, and `getLogNode` wraps such an index round to the head of the list, so the term compared is another entry's.
  `CommitPastEnd.CommitPassesTheEnd` is a run of three servers in which index 4, the quorum's, is committed by a leader
  with two entries; `CommitChoice.CommitLandsExactly` says when the promise holds.
- **A commit index never going down.** Of all steps of a cluster, those that lower a server's commit index are exactly the
  appends it accepts from a leader that has committed more and that leave its log ending before that index
  (`CommitPastEnd.CommitDropsExactly`, and `CommitChoice.FollowerCommitExactly` for the one call).
  `CommitPastEnd.FollowerCommitDrops` is a run of three servers that ends with such a step: a leader that has committed past
  the end of its log cuts a follower's log behind its own. A leader's commit index never goes down
  (`CommitPastEnd.LeaderCommitGrows`).
- **Sorting the match indexes.** `compareIndices` truncates a 64-bit difference to `int`; up to distances of 2^32 it is the
  order of the integers exactly when an `int` holds the difference (`CommitChoice.CompareAgrees`), and at any distance what
  the difference modulo 2^32 says (`CommitChoice.CompareExactly`). `CommitChoice.CompareCanInvert` is an array left unsorted.
- **`dictScan` visiting every bucket.** In the middle of a rehash the loop over the larger table starts at the cursor's own
  high bits; it reaches every bucket not yet visited exactly when those bits are ones first (`DictScan.CompleteExactly`),
  which always holds while tables only grow (`DictScan.GrowingTablesAreSafe`). `ScanMisses.ScanCanMiss` is a scan, with the
  table made smaller half-way, that never emits a key present throughout.
- **An insertion into a ziplist that makes it shorter.** When the entry behind the new one keeps a five-byte length field
  that now needs one byte, the buffer is resized before the bytes are moved. The bytes moved lie inside it if and only if it
  shrinks by one byte at most (`Ziplist.MoveInside`), and at one byte the end mark has replaced the last of them
  (`Ziplist.LastByteLost`). `Ziplist.ShrinkIsReached` builds a list at which an insertion shrinks it by two.
- **The size of compressed data.** lzf.h:56-61 promises less than 104% of the input. A success on len bytes keeps that
  whenever 25 * ceil(len / 32) < len (`Lzf.PromiseKept`); for every other length, which are 1 to 25, 33 to 50, 65 to 75 and
  97 to 100 (`Lzf.PromiseExactly`), some input breaks it (`Lzf.PromiseBroken`), one byte becoming two.
- **Compressing within the room given.** A match that begins right after a full run of literals at the very end of the room
  writes one byte past it before it gives up, and nothing else does (`Lzf.EmitMatch`). A caller is safe from it with room for
  less than 33 bytes or for more than `len - 5 + (len - 5) / 32` (`Lzf.Compress`). For room in whole runs of 33 bytes that is
  exact: for every length left, and any match table, `Lzf.WritesPastTheRoom` is an input that does it (`Lzf.RoomExactly`).
- **A second request behind a held one.** A leader's write is not answered at once and its client is not reset
  (src/prez.c:433-435), so the next request meets the parser's assertion that it was (src/networking.c:959). In a stream of
  requests, however it is cut into reads, the assertion is met if and only if some request other than the last is held and
  not committed between the read that ends with it and the next (`RequestParser.Run`). Inline lines have no such assertion:
  a line behind a held one is run in its place, and is read as a line whatever it begins with (`RequestParser.RunLines`,
  `RequestParser.Client.NextRequest`). `RequestParser.WriteThenRead` is both, for a write and a read.
- **An inline request leaving the next one alone.** `processInlineBuffer` always drops two bytes after the line. What follows
  is kept if and only if the line ended in CR LF or nothing follows (`RequestParser.InlineKeepsTheRest`).
- **Any string between single quotes.** A backslash at the end of it takes the closing quote along. A single-quoted string, with
  its apostrophes escaped, is read as itself if and only if it has no NUL and does not end in a backslash
  (`Splitting.SingleExactly`).
- **A failed cuckoo insertion leaving the table alone.** The item in hand is dropped, and a chain of evictions that fails
  never has the new item in hand: an insertion that fails without having grown the table always loses an old item. Only
  after a growth that succeeded can the item lost be the new one, and there it can (`Cuckoo.Table.Insert`).
- **Recycling when no node can be had.** `chunk_recycle` then loses the free space behind the block, exactly when there is
  space on both sides of it; the block itself comes back unless it is given to the system or again finds no node
  (`Extents.Cache.Recycle`).

## Model

| member | source | states |
|---|---|---|
| RaftLog.AppendPastEnd | src/log.c:285-299 | A consecutive batch that starts right behind the log is appended as it is. |
| RaftLog.AppendSkips | src/log.c:238-247 | Entries the log already holds with the same term change nothing. |
| RaftLog.AppendCuts | src/log.c:185-203 | A conflict before the last entry replaces everything from there on by the batch. |
| RaftLog.AppendLags | src/log.c:190-203 | A conflict on the last entry leaves it in place and the whole batch lands one position late. |
| RaftLog.AppendAllMeaning | src/log.c:285-299 | For every positioned log and consecutive batch, appending is laying the batch over the log from the first disagreement on, except in the one case of a conflict on the last entry, whose result is given too. |
| RaftLog.AppendKeepsPositions | src/log.c:230-299 | List position i still holds the entry of index i after an append if and only if the batch's first conflict is not the log's last entry. |
| Handlers.TermIsLearned | src/cluster.c:666-798 | Every message but the success of an append leaves a server in the greater of its own term and the message's; that one leaves the term alone. |
| Handlers.NewerTermDeposes | src/cluster.c:666-798 | A newer term makes any server a follower without its old ballot or leader; only a vote given for that very request, or the sender of an append, is kept. |
| Handlers.SameTermKeeps | src/cluster.c:666-798 | Otherwise a role changes only from candidate to follower by an append of the same term, a ballot only to the candidate that asks, and a message of an older term changes nothing. |
| Handlers.AppendEndsCandidacy | src/cluster.c:741-753 | After an append of a term not below its own no server is a candidate, and the sender is its leader. |
| Handlers.VotesAreCounted | src/cluster.c:712-730 | A tally grows by one exactly for a vote given in the server's own term. |
| Handlers.OnlyAppendsWrite | src/cluster.c:666-798 | Only an accepted append changes a log, and only the answer of a peer its bookkeeping. |
| Handlers.RepliesTell | src/cluster.c:666-773 | Each reply tells the term, last index and commit index that the message has left, and whether the vote or batch was taken. |
| Handlers.CandidacyBegins | src/cluster.c:1015-1031 | A candidacy is one vote in a new term, one's own, and asks by the last entry of one's log. |
| Handlers.OfficeBegins | src/cluster.c:1034-1055 | A new leader's first append to each peer is empty and stands behind its own last entry. |
| Handlers.ExchangeMoves | src/cluster.c:775-919 | One append taken up and answered moves the next batch right behind the one sent if the peer agrees with the entry in front of it, and one entry back if not; nothing else changes. |
| Handlers.FindsAgreement | src/cluster.c:775-919 | However far ahead a leader starts, its refused appends go back to exactly the last index from which on the peer accepts, and leave the peer's log alone. |
| Handlers.CommitFollowsLeader | src/log.c:301-309 | An append never raises a commit index above the greater of its own and the leader's; accepted, it commits what the leader has, as far as the log goes. |
| Handlers.OnlyAppendsCommit | src/cluster.c:666-798 | No other message touches a commit index. |
| Handlers.CommandIsLast | src/cluster.c:391-425 | A command becomes the entry of the next index and the leader's term; a server without peers has the whole log committed, any other commits nothing by it. |
| Handlers.CommitsComeFromLeaders | src/cluster.c:921-955 | In every run, no commit index of a server or of a packet on its way exceeds one that a leader had set before by a step of its own. |
| ElectionSafety.QuorumsMeet | src/cluster.h:253 | Any two sets of at least `quorumSize` servers share a member. |
| ElectionSafety.OneWinner | src/cluster.c:1034-1043 | A quorum of counted votes in a term that has a winner belongs to that winner. |
| ElectionSafety.StepInv | src/cluster.c:666-730 | Every step of the cluster keeps the election invariant: counted votes and grants in flight are backed by distinct servers' single ballots of that term. |
| ElectionSafety.RunInv | src/cluster.c:666-1076 | The election invariant holds in every state of every run. |
| ElectionSafety.LeadersAreUnique | src/cluster.c:1015-1043 | In every restart-free run, with any number of servers and any loss, delay or reordering, two servers that lead the same term, at the same or different times, are the same server. |
| ElectionStall.GrantsExactly | src/cluster.c:691-697 | A vote is given exactly when the Raft paper's rule gives it and the candidate's log is not shorter. |
| ElectionStall.OneCanLead | src/cluster.c:691-697 | Under the paper's rule one of two logs always has the other's vote; under this one exactly unless one is longer and the other newer. |
| ElectionStall.StepStalls | src/cluster.c:666-730 | While no server that is up has a quorum of supporters among those up, no step of theirs changes that. |
| ElectionStall.NeverElects | src/cluster.c:666-1055 | From such a state on, along every path of those servers, with any loss, delay or reordering, none of them ever leads. |
| ElectionStall.Elect | src/cluster.c:1015-1055 | From a quiet state, a server with a quorum of supporters among those up is elected by some path of theirs, which is constructed. |
| ElectionStall.ElectsExactly | src/cluster.c:666-1055 | From any quiet state of any run, with any number of servers, those up can elect a leader by themselves if and only if one of them has a quorum of supporters among them. |
| ElectionStall.QuorumCanStall | src/cluster.c:691-697 | A concrete run of three servers after which two of them, a quorum, can never elect a leader without the third. |
| LogMatching.StepLogInv | src/cluster.c:732-773 | Every step but a skipped conflict keeps each log, and each batch in flight, a log that the leader of its last entry's term had. |
| LogMatching.RunLogInv | src/cluster.c:861-919 | Up to the first skipped conflict, that invariant holds in every state of a run. |
| LogMatching.SkipMisplaces | src/log.c:190-203 | A skipped conflict breaks Log Matching in the very next state. |
| LogMatching.LogMatchingExactly | src/log.c:164-299 | A run has Log Matching in every state (positions equal indexes, logs that share an index and term share everything up to it) if and only if no step skips a conflict. |
| LogMatching.LeaderAppendOnly | src/cluster.c:399-413 | While a server leads a term its log only grows: what it had is a prefix of what it has. |
| MisplacedEntry.LogMatchingCanFail | src/log.c:190 | A concrete run of three servers that ends with index 1 stored at positions 1 and 2. |
| CommitChoice.CompareAgrees | src/cluster.c:231-233 | Up to distances of 2^32 the comparison is the order of the integers if and only if an `int` holds the difference. |
| CommitChoice.CompareExactly | src/cluster.c:231-233 | At any distance it is that order if and only if the difference modulo 2^32 falls in the right half. |
| CommitChoice.CompareCanInvert | src/cluster.c:231-233 | At a distance of 2^31 the comparison is the reverse of the order, and an array of two indexes is left unsorted. |
| CommitChoice.QSortSorts | src/cluster.c:942-944 | Sorting with that comparison is ascending for indexes less than 2^31 apart. |
| CommitChoice.ReverseIndices | src/cluster.c:235-243 | The array is reversed in place. |
| CommitChoice.PickReaches | src/cluster.c:921-955 | In descending order, the element at place q is the largest value that at least q elements reach. |
| CommitChoice.PickCommitIndex | src/cluster.c:921-955 | The index picked is the largest that at least `quorumSize` of the recorded match indexes reach. |
| CommitChoice.CommitMovesUp | src/cluster.c:946-953 | Updating a commit index never lowers it, moves it only to the index picked, and within the log only onto an entry of the current term. |
| CommitChoice.CommitCanPassTheEnd | src/log.c:387-397 | With the first entry of the current term, an index one past the end is committed. |
| CommitChoice.CommitLandsExactly | src/cluster.c:946-953 | A commit lands on a current-term entry of the log exactly when the index is within the log, not above the commit index, or wraps past the end to an entry of another term. |
| CommitChoice.FollowerCommitExactly | src/log.c:301-309 | A follower's commit index goes down if and only if it is past the log's end and below the leader's. |
| CommitPastEnd.LeaderCommitGrows | src/cluster.c:921-955 | In every run, while a server leads one term it stays leader and its commit index never goes down. |
| CommitPastEnd.CommitPassesTheEnd | src/cluster.c:775-798 | A concrete run of three servers, with no field corrupted and only quorums' indexes committed, in which the index that a quorum of the match indexes reach is 4 and a leader with two entries commits it. |
| CommitPastEnd.CommitDropsExactly | src/cluster.c:732-773 | A step of any cluster lowers a server's commit index if and only if it is an append that the server accepts, with a greater commit index, that leaves its log ending before its own. |
| CommitPastEnd.FollowerCommitDrops | src/log.c:301-309 | A concrete run of the same kind whose last step lowers a follower's commit index from 3 to 2. |
| ClusterServer.LocalStepsAreSystemSteps | src/cluster.c:966-1076 | Whatever a server performs by itself is a sequence of steps of any cluster it is part of, so the theorems over runs speak about it. |
| ClusterServer.BroadcastTo | src/cluster.c:623-637 | One vote request goes to every peer that has a link, and to no other. |
| ClusterServer.CopyEntries | src/cluster.c:861-919 | The loop over list nodes copies exactly the batch that starts at the peer's next index, and remembers its last index. |
| ClusterServer.Server.constructor | src/cluster.c:165-225 | A new server is a follower of term 0 with an empty log. |
| ClusterServer.Server.ProcessRequestVote | src/cluster.c:666-710 | Fields, log and reply after a vote request are those of the protocol's step; the log and its file are untouched. |
| ClusterServer.Server.ProcessResponseVote | src/cluster.c:712-730 | The fields after a vote reply are those of the protocol's step, a newer term included. |
| ClusterServer.Server.ProcessAppendEntries | src/cluster.c:732-773 | Fields, in-memory log, log file, commit index and reply after an append request are those of the protocol's step, with file and memory in agreement. |
| ClusterServer.Server.ProcessResponseAppendEntries | src/cluster.c:775-798 | The peer's next and match index after a reply, or the office lost to a newer term, are those of the protocol's step. |
| ClusterServer.Server.SendRequestVote | src/cluster.c:800-819 | The term goes up by one and the requests sent are those of the protocol's broadcast. |
| ClusterServer.Server.SendAppendEntries | src/cluster.c:861-919 | The message sent and the peer's last-sent mark are those of the protocol's step. |
| ClusterServer.Server.ProcessCommand | src/cluster.c:391-425 | A command becomes an entry of the leader's term behind its log, in memory and in the file, and is committed at once in a cluster of one. |
| ClusterServer.Server.UpdateCommitIndex | src/cluster.c:921-955 | The commit index moves as the protocol's step does for an index that is the quorum's, when the match indexes are less than 2^31 apart. |
| ClusterServer.Server.TakeTheLead | src/cluster.c:1034-1055 | Office is taken as in the protocol's step. |
| ClusterServer.Server.Elect | src/cluster.c:1015-1031 | The candidacy and its broadcast are those of the protocol's step. |
| ClusterServer.Server.Stand | src/cluster.c:1007-1031 | A timer that has run out makes a server that does not lead a candidate, and nothing else does. |
| ClusterServer.Server.Heartbeats | src/cluster.c:1059-1075 | Each peer that is due, other than the server itself, gets exactly one append, the one the protocol makes for the state before the loop, and no other peer any; match indexes, term and commit index stay. |
| ClusterServer.Server.Cron | src/cluster.c:966-1076 | What the timer handler does is exactly this sequence of protocol steps: an election when the timer has run out, office for a candidate with a quorum, and for a leader the update of the commit index to the quorum's and one append to each peer that is due, carrying the new commit index. |
| Decimal.Digits10Counts | src/util.c:220-238 | The comparison tree counts the digits of the numeral, for every number. |
| Decimal.WriteDigits | src/util.c:251-299 | Two digits at a time from the back, exactly the numeral is written and nothing around it. |
| Decimal.LlToString | src/util.c:251-299 | Every 64-bit value is printed with a terminator, or nothing is written and 0 returned when it does not fit. |
| Decimal.ReadMagnitude | src/util.c:304-365 | The digit loop accepts exactly the numerals from 1 to 2^64 - 1. |
| Decimal.StringToLl | src/util.c:304-365 | A string is accepted if and only if some 64-bit value prints as it, and then with that value. |
| Decimal.ParseInvertsPrint | src/util.c:251-365 | Reading inverts printing on every 64-bit value. |
| Decimal.PrintInjective | src/util.c:251-299 | Different values print differently. |
| LogFile.CatLogEntry | src/log.c:205-228 | The arguments are appended in RESP framing. |
| LogFile.RecordReads | src/log.c:97-139 | A record anywhere in a file reads back as its entry, whatever memory it is read into. |
| LogFile.TornRecord | src/log.c:97-139 | A record that breaks off is refused wherever it does. |
| LogFile.LoadInvertsWrite | src/log.c:62-162 | Replaying the file of any log that fits rebuilds the same entries, each with its own offset, and the same size. |
| LogFile.TornFileIsRefused | src/log.c:62-162 | A file that ends in the middle of a record, wherever that is, is refused. |
| LogFile.LogStore.Truncate | src/log.c:185-203 | The list is cut as the guard allows, and the file stays the records of the list. |
| LogFile.LogStore.WriteEntry | src/log.c:230-283 | After a write, with or without a truncation, the file is the records of the list, each offset is its record's, and the list is the one of the protocol. |
| LogFile.LogStore.AppendEntries | src/log.c:285-299 | The same for a whole batch. |
| LogFile.LogStore.LoadRecord | src/log.c:97-139 | Reading argument by argument gives the record's entry, or the error of a malformed one. |
| LogFile.LogStore.Load | src/log.c:62-162 | Replaying in place gives the list, offsets and size of the whole file, or an error, and leaves the file alone. |
| RequestParser.HeaderArrives | src/networking.c:961-973 | A header line that has arrived whole is found with its digits; one that has not is waited for, wherever it was cut. |
| RequestParser.Client.ReadCount | src/networking.c:957-994 | A count is refused exactly when it is too long in coming, no 64-bit number or over the limit; on a stream of legal commands it is read or waited for, and never refused. |
| RequestParser.Finished | src/networking.c:952-1088 | A parser in step with the stream, with no more to come and less than a piece in hand, has handed over every command. |
| RequestParser.Client.ReadBulkLen | src/networking.c:1000-1049 | A length is refused exactly when it is too long in coming, unmarked, no 64-bit number or out of range; on a stream of legal commands it is read or waited for, never refused, and a big argument is moved to the front of the buffer. |
| RequestParser.Client.TakeBulk | src/networking.c:1051-1076 | A complete argument becomes the next of the command, copied or by taking over the buffer, and nothing around it is lost. |
| RequestParser.Client.ReadArgs | src/networking.c:996-1088 | The loop over the arguments takes all that have arrived whole, and the rest of the buffer is kept. |
| RequestParser.Client.ProcessMultibulk | src/networking.c:952-1088 | The assertion is met exactly by a client that still has a whole request, and then nothing changes; on a stream of legal commands the result is the next command, or everything of it that has arrived with the rest waited for. |
| RequestParser.Client.ProcessInline | src/networking.c:878-937 | An inline line becomes its non-empty words in place of any held before, or is refused exactly for unbalanced quotes or for being too long in coming, or waited for. |
| RequestParser.InlineKeepsTheRest | src/networking.c:884-918 | What follows an inline line survives if and only if the line ended in CR LF or nothing follows. |
| RequestParser.Client.NextRequest | src/networking.c:1105-1120 | A client with a held line reads the next bytes as a line whatever they begin with; one with a held request meets the assertion; on a stream of legal commands the next command is taken or waited for. |
| RequestParser.LineArrives | src/networking.c:884-937 | An inline line that has arrived whole is read as its command with what follows kept; one that has not is waited for, wherever it was cut. |
| RequestParser.Client.Turn | src/networking.c:1092-1130 | One turn of the loop keeps a client in step with a stream of requests or of lines, held or not, and meets the assertion exactly behind a held request. |
| RequestParser.Client.ProcessInput | src/networking.c:1090-1131 | At the end the assertion is met exactly if bytes are left behind a held request; on a stream of requests all complete commands up to the first held one have been handed over in order; on a stream of lines all complete lines have, held or not. |
| RequestParser.Client.Feed | src/networking.c:1133-1159 | The same for a read of at most the length asked for, by a client that holds a command or not. |
| RequestParser.Client.Release | src/log.c:322-330 | A held client whose write is committed is in step with the stream again. |
| RequestParser.Run | src/networking.c:952-1159 | The bytes of any legal commands, cut into reads of any sizes, are parsed into exactly those commands with no protocol error and nothing left over, unless the assertion is met, which happens if and only if some command other than the last is held and not committed between the read that ends with it and the next. |
| RequestParser.RunLines | src/networking.c:878-1159 | Any lines that split into commands, cut into reads of any sizes, are handed over one and all, whatever is held; no assertion is met, and only the last line can still be held. |
| RequestParser.QuotedIsLegal | src/networking.c:878-937 | Every command without empty arguments whose quoted form is short enough is such a line. |
| RequestParser.WriteThenRead | src/networking.c:957-959 | A held write and a read sent together: as requests the second meets the assertion however the bytes arrive; as lines both are run. |
| Quoting.CatRepr | src/sds.c:741-764 | The loop appends the quoted form of the bytes. |
| Quoting.PrintableAsItIs | src/sds.c:741-764 | A byte is written as it is exactly if it is printable and no quote or backslash, and behind a backslash otherwise, by two characters exactly for those with a name. |
| Quoting.SplitArgs | src/sds.c:816-924 | The nested loops compute the tokens of the line, or the error of unbalanced quotes; `Splitting` says what those are. |
| Quoting.ScanEscape | src/sds.c:833-857 | One escaped byte is read back as that byte whatever follows it. |
| Quoting.ScanRepr | src/sds.c:832-862 | A quoted string followed by a space or the end is one token: the string. |
| Quoting.SplitInvertsQuoting | src/sds.c:741-924 | For every list of byte strings, NULs, quotes and backslashes included, splitting their quoted forms joined by spaces gives the list back. |
| Splitting.SplitReads | src/sds.c:816-924 | Every line of words, bare, double-quoted in any mix of escapes, single-quoted, or bare with a quoted end, with any blanks around them, is split into what the words mean. |
| Splitting.SplitRefuses | src/sds.c:856-882 | A line with a quote that is not closed, or one closed right in front of another byte, is refused as a whole, whatever stands in front. |
| Splitting.ScanUnit | src/sds.c:833-867 | Between double quotes each byte is read by its hexadecimal digits in either case, its name, behind a backslash, or as it is. |
| Splitting.SingleExactly | src/sds.c:868-882 | A single-quoted string with its apostrophes escaped is read as itself if and only if it has no NUL and does not end in a backslash. |
| Words.RevWord | src/dict.c:706-714 | The six rounds of masked shifts reverse the bits of the word. |
| DictTable.PushOk | src/dict.c:338-361 | An entry at the head of its chain keeps the table well formed and changes the lookup of its key alone. |
| DictTable.RemoveOk | src/dict.c:401-436 | Unlinking an entry keeps the table well formed and changes the lookup of its key alone. |
| Dict.MoveOneKeeps | src/dict.c:243-280 | Moving one entry to the new table changes no lookup. |
| Dict.FinishKeeps | src/dict.c:249-255 | Replacing the emptied table by the new one changes no lookup. |
| Dict.MoreToMove | src/dict.c:258-261 | While entries are left, a bucket that is not empty lies at or after `rehashidx`, so the search for it ends in bounds. |
| Dict.NextPower | src/dict.c:896-906 | The result is the least power of two that is at least 4 and the size, and LONG_MAX exactly from there on. |
| Dict.Dictionary.Expand | src/dict.c:210-237 | A first table, or a second one to rehash into, of the least power of two that serves, and the same map; refused exactly while rehashing or for too small a size, and given up otherwise exactly from LONG_MAX on. |
| Dict.Dictionary.Rehash | src/dict.c:243-280 | Any number of rehash steps keeps the map; each step that leaves work moves `rehashidx` on, so more steps than buckets always finish, and the answer says whether rehashing goes on. |
| Dict.Dictionary.RehashStep | src/dict.c:309-311 | A rehash under way moves on by a bucket or ends, unless an iterator is about. |
| Dict.Dictionary.MoveBucket | src/dict.c:257-277 | The next bucket that is not empty is emptied into the new table, entry by entry, with the same map. |
| Dict.Dictionary.Locate | src/dict.c:914-936 | A key is found in the one chain that holds it, or in none exactly when it is not in the map. |
| Dict.Dictionary.Find | src/dict.c:481-500 | The answer is the map's, and a rehash that is under way and has no iterator moves on. |
| Dict.Dictionary.ExpandIfNeeded | src/dict.c:874-893 | There is a table afterwards and the same map; a second table for twice the entries is made exactly when the first is crowded. |
| Dict.Dictionary.Add | src/dict.c:314-361 | The map gains the pair, or nothing changes exactly when the key was there; a rehash begins exactly when the table is crowded, one under way moves on, and a table that is not being rehashed has at most one entry per bucket, or six while resizing is off. |
| Dict.Dictionary.Replace | src/dict.c:367-386 | The map holds the new value, and the answer says whether the key is new. |
| Dict.Dictionary.Delete | src/dict.c:401-436 | The map loses the key, the answer says whether it was there, and a rehash under way moves on. |
| DictScan.RevIncIsNext | src/dict.c:863-866 | In the order of reversed bits, the reversed increment is the successor. |
| DictScan.AdvanceMeaning | src/dict.c:859-866 | Setting the unmasked bits first makes it the successor among the masked bits. |
| DictScan.ScanLarge | src/dict.c:842-856 | The loop emits every bucket of the larger table that expands the cursor, from the cursor's own high bits on, and no other. |
| DictScan.Scan | src/dict.c:800-869 | A call emits the cursor's bucket of the smaller table and its expansions in the larger, and nothing else, and returns the next cursor. |
| DictScan.CompleteExactly | src/dict.c:842-856 | Every bucket of the larger table that the scan has not been through is visited if and only if the cursor's bits between the two masks are ones first. |
| DictScan.SafeWhen | src/dict.c:826-856 | A cursor below the smaller table's size, or tables a factor of two apart, make a call safe. |
| DictScan.CallCovers | src/dict.c:800-869 | A key of the cursor's bucket is emitted by a safe call or had been passed before. |
| DictScan.ScanCoversEverything | src/dict.c:715-799 | A scan from cursor 0 back to 0 emits every key present at each of its calls, whatever adds, deletes, resizes and rehash steps lie between them, if each call is safe. |
| DictScan.GrowingTablesAreSafe | src/dict.c:800-869 | If the smaller table never gets smaller between calls, every call is safe. |
| ScanMisses.ScanCanMiss | src/dict.c:842-856 | A concrete scan from cursor 0 back to 0, with a resize from 32 buckets to 4 on the way, that never emits a key present at each of its calls. |
| ZipCodec.IntegerRoundTrip | src/ziplist.c:345-404 | Every 64-bit integer is loaded back from the bytes and the encoding chosen for it. |
| ZipCodec.TryEncoding | src/ziplist.c:318-342 | A string is stored as an integer exactly if it is the numeral of a 64-bit one, and then as that one. |
| ZipCodec.NumeralsAreIntegers | src/ziplist.c:318-342 | Every 64-bit integer's numeral is stored as that integer. |
| ZipCodec.SmallestInteger | src/ziplist.c:322-339 | No shorter integer form can hold the value. |
| ZipCodec.SmallestItem | src/ziplist.c:318-342 | The payload chosen for a string takes no more bytes than any other that stands for it. |
| ZipCodec.EntryReads | src/ziplist.c:407-415 | The header of any entry reads back, and no entry begins with the end mark. |
| Ziplist.CascadeKeeps | src/ziplist.c:456-515 | The cascade changes no payload and nothing up to the entry it starts from. |
| Ziplist.CascadeLinks | src/ziplist.c:456-515 | However far it runs, every entry afterwards records its predecessor's length. |
| Ziplist.CascadeStops | src/ziplist.c:456-515 | The cascade goes no further than it must: no field grows that has room for the new length, and behind an entry whose length stays nothing changes. |
| Ziplist.SmallestEntry | src/ziplist.c:600-611 | No entry that holds the string behind the given one is smaller than the one inserted. |
| Ziplist.List.CascadeTurn | src/ziplist.c:463-513 | One turn moves the bytes as one step of the cascade, or stops where the cascade stops. |
| Ziplist.List.Cascade | src/ziplist.c:456-515 | The loop leaves the bytes, the total length and the tail offset of the mended list. |
| Ziplist.List.OpenGap | src/ziplist.c:613-642 | A gap opens in front of an entry, which is relinked, and the tail offset follows. |
| Ziplist.MoveInside | src/ziplist.c:616-626 | The bytes an insertion moves lie inside the resized buffer if and only if it shrinks by one byte at most. |
| Ziplist.LastByteLost | src/ziplist.c:616-634 | When it shrinks by one, the result has the end mark in place of the last payload byte, and is the one intended if and only if that byte was the same. |
| Ziplist.ShrinkIsReached | src/ziplist.c:613-626 | Four insertions and a deletion lead to a list in front of whose last entry the insertion of a digit shrinks the buffer by two. |
| Ziplist.List.InsertBefore | src/ziplist.c:613-666 | In front of an entry, the new one stands, that one records its length, and the cascade has run behind it. |
| Ziplist.List.Insert | src/ziplist.c:578-666 | The decoded list is the old one with the string inserted, and all length fields, the tail offset and the total length are exact, however far the cascade runs; every entry has the form the insertion and the cascade give it. |
| Ziplist.List.SkipEntries | src/ziplist.c:524-528 | The loop stops after the entries asked for or at the end. |
| Ziplist.List.CloseGap | src/ziplist.c:532-556 | The gap closes in front of an entry that stays, which is relinked, and the tail offset follows. |
| Ziplist.List.Delete | src/ziplist.c:518-575 | The decoded list is the old one without the range, with all length fields, the tail offset and the total length exact, each field in the form the cascade gives it. |
| Ziplist.List.Index | src/ziplist.c:677-697 | The offset of the entry at an index from either end, or none exactly when there is no such entry. |
| Ziplist.List.Compare | src/ziplist.c:792-815 | The answer is whether the decoded entry is the string, integers included. |
| Ziplist.List.Find | src/ziplist.c:819-876 | The first entry holding the string among those the skip pattern compares, or none. |
| Lzf.Decompress | src/lzf_d.c:55-149 | A positive result is the expansion of the whole code; 0 means the code is malformed or its expansion does not fit. |
| Lzf.CopyWithin | src/lzf_d.c:133-143 | The byte-by-byte copy of a back reference repeats what it has just written when they overlap. |
| Lzf.DecodesBack | src/lzf_c.c:211-225 | A back reference to a stretch that the input repeats extends what the code expands to by that stretch. |
| Lzf.MatchLength | src/lzf_c.c:166-206 | A match goes on until a byte differs or the code's limit is reached. |
| Lzf.EmitMatch | src/lzf_c.c:169-227 | A match closes the run of literals and is written, or the output is full, and the output still expands to the input read so far; the byte past the room is written exactly when the run is empty and begins there. |
| Lzf.MatchLoop | src/lzf_c.c:133-262 | The loop that looks for matches leaves code that expands to the input read so far, or fails; the byte past the room and equal bytes as for the whole. |
| Lzf.Compress | src/lzf_c.c:98-294 | For any contents of the match table, a positive result expands to the input, fits the room given, is at most the input length plus one byte for every 32 begun, and is below 104% under the condition on the length; an input with no repeat within reach gives exactly that bound, or 0 for want of room; equal bytes of any length, given that room, come out at less than three bytes for every 264 and 16 more; the byte past the room is written only by a call that then fails, only for room from 33 to `len - 5 + (len - 5) / 32`, and always if the room is whole runs and the first repeat the table still knows comes right behind them. |
| Lzf.WritesPastTheRoom | src/lzf_c.c:169-174 | For room of 33 * k bytes and any input length from 32 * k + 5 on there is an input for which the byte past the room is written, whatever the match table holds. |
| Lzf.RoomExactly | src/lzf_c.c:169-174 | For such room, those are all the lengths for which it may be. |
| Lzf.PromiseExactly | src/lzf.h:56-61 | Literals alone stay below 104% if and only if 25 * ceil(len / 32) < len, which fails exactly for lengths up to 25, 33 to 50, 65 to 75 and 97 to 100. |
| Lzf.PromiseKept | src/lzf.h:56-61 | For a length of that condition every result within the bound is below 104%. |
| Lzf.PromiseBroken | src/lzf.h:56-61 | For every other length there is an input that is compressed to 104% or more, whatever the match table holds; one byte becomes two. |
| Lzf.CompressThenDecompress | src/lzf.h:63-67 | What was compressed comes back byte for byte, and nothing comes back of a compression that failed. |
| PartialSort.Med3IsMedian | src/pqsort.c:88-96 | The pivot chosen of three lies between the other two. |
| PartialSort.PivotIsInside | src/pqsort.c:114-125 | Beyond seven elements the pivot has one other element not greater and one not smaller than it. |
| PartialSort.InsertionSort | src/pqsort.c:107-113 | A short range becomes sorted, and a permutation of itself. |
| PartialSort.Partition | src/pqsort.c:126-150 | Equal, smaller, greater and again equal elements in that order, a permutation of the range. |
| PartialSort.Gather | src/pqsort.c:152-156 | The vector swaps leave smaller, equal and greater elements in that order. |
| PartialSort.Sort | src/pqsort.c:98-177 | Every position from l to r holds an element of that rank, and the range is a permutation of what it was. |
| PartialSort.RankedIsSorted | src/pqsort.c:98-177 | An element of the rank of its position is equivalent to the one any sorted arrangement has there. |
| PartialSort.PqSort | src/pqsort.c:180-185 | A permutation whose positions l to r hold, up to equivalence, what the sorted array holds there, for every total preorder. |
| Extents.NSearchSzad | deps/jemalloc/src/extent.c:6-26 | The first node in order of size and then address that is not below the key, or none. |
| Extents.LeadBound | deps/jemalloc/src/chunk.c:76-78 | Rounding a chunk address up to an alignment costs at most the alignment less one chunk. |
| Extents.FitBounds | deps/jemalloc/src/chunk.c:78 | A node of the size searched for always holds an aligned block: the code's own assertion. |
| Extents.Carve | deps/jemalloc/src/chunk.c:85-118 | Taking a block out of an extent frees nothing else and keeps all extents apart. |
| Extents.Join | deps/jemalloc/src/chunk.c:233-285 | A block joined with the extents it touches adds exactly its own addresses and keeps all extents apart. |
| Extents.Canonical | deps/jemalloc/src/chunk.c:212-298 | The extents are determined by the free addresses: two histories with the same free space hold the same ranges. |
| Extents.Cache.Split | deps/jemalloc/src/chunk.c:84-119 | Both trees hold the same nodes after the lead and the trail have been put back, or the trail was dropped for want of a node. |
| Extents.Cache.Recycle | deps/jemalloc/src/chunk.c:44-136 | The block is aligned, comes from the first fit, and leaves the free space by exactly its addresses; nothing is found exactly when no extent is big enough; memory reported as zero is zero; without a node for the trail, the free space loses the trail, and the block with it unless it is recorded again. |
| Extents.Cache.Dealloc | deps/jemalloc/src/chunk.c:300-334 | A block given up goes to the system or back into the free space, and what the free space has lost since the fit is the trail, with or without the block. |
| Extents.OnlyTrailLost | deps/jemalloc/src/chunk.c:106-113 | A block taken with its trail and put back leaves exactly the trail missing. |
| Extents.Cache.JoinNext | deps/jemalloc/src/chunk.c:233-264 | The extent that begins where the block ends is grown in place without changing its position in the address tree, or the block gets a node. |
| Extents.Cache.JoinPrev | deps/jemalloc/src/chunk.c:266-285 | The extent that ends where the block begins, if any, is absorbed, again without moving in the address tree. |
| Extents.Cache.Record | deps/jemalloc/src/chunk.c:212-298 | The free space gains exactly the block, with both trees equal, disjoint and never touching; a block is leaked exactly when it needs a node and there is none. |
| Arena.FewerPairs | deps/jemalloc/src/arena.c:233 | There are more free runs than neighbouring pairs of them, or none of either. |
| Arena.Chunk.constructor | deps/jemalloc/src/arena.c:545-608 | A new chunk is one clean free run, outside the tree. |
| Arena.Chunk.SidesTold | deps/jemalloc/src/arena.c:174-203 | The page map's answer about each side is the number of pairs the run makes there. |
| Arena.Chunk.AvailRemove | deps/jemalloc/src/arena.c:246-278 | A free run leaves the tree and every counter, and chunks_dirty, is exact for the runs that stay; the code's assertion on the counters holds. |
| Arena.Chunk.AvailInsert | deps/jemalloc/src/arena.c:213-244 | A run unlike its free neighbours enters the tree under its size, every counter is exact, and there are more free runs than pairs, as the code asserts. |
| Arena.Chunk.SplitRemove | deps/jemalloc/src/arena.c:369-408 | The front of a free run leaves the tree, the rest is marked and filed under its own size, and the books are exact. |
| Arena.Chunk.SplitLarge | deps/jemalloc/src/arena.c:410-468 | A large run is cut from a free one: the pages stay partitioned, the map marks every run, and all totals are exact. |
| Arena.Chunk.SplitSmall | deps/jemalloc/src/arena.c:477-521 | The same for a bin's run, with every page numbered. |
| Arena.Chunk.CoalesceNext | deps/jemalloc/src/arena.c:1099-1125 | A free run of the same dirtiness that follows is absorbed, and only such a one. |
| Arena.Chunk.CoalescePrev | deps/jemalloc/src/arena.c:1127-1152 | The same for one that goes before. |
| Arena.Chunk.FileFreed | deps/jemalloc/src/arena.c:1091-1157 | A freed run and the like runs beside it become one run in the tree, so that no two neighbouring free runs are alike. |
| Arena.Chunk.Dalloc | deps/jemalloc/src/arena.c:1159-1233 | Freeing any allocated run keeps the partition, the tree, the pair count and the dirty and active totals exact; a chunk with nothing allocated becomes the spare, and only such a one. |
| Arena.Chunk.ChunkDealloc | deps/jemalloc/src/arena.c:630-660 | The chunk's one free run leaves the tree. |
| Arena.Chunk.ChunkAllocSpare | deps/jemalloc/src/arena.c:610-628 | The spare's one run goes back into the tree. |
| Arena.Chunk.TrimHead | deps/jemalloc/src/arena.c:1235-1265 | The leading pages of a large run are freed, the rest stays a large run, and everything above is kept. |
| Arena.Chunk.TrimTail | deps/jemalloc/src/arena.c:1267-1298 | The same for trailing pages, dirty if the run or the caller says so. |
| Cuckoo.Table.constructor | deps/jemalloc/src/ckh.c:347-400 | An empty table with room for the items asked for and a third more, and no larger than the next power of two requires. |
| Cuckoo.Table.ISearch | deps/jemalloc/src/ckh.c:70-89 | A key is found, with its value, exactly when the table holds it. |
| Cuckoo.Table.Search | deps/jemalloc/src/ckh.c:509-526 | The answer is the map's. |
| Cuckoo.Table.TryBucketInsert | deps/jemalloc/src/ckh.c:91-115 | The item takes a free cell of the bucket, wherever the search starts, if and only if the bucket is not full. |
| Cuckoo.Alternate | deps/jemalloc/src/ckh.c:156-178 | An evicted item goes to its other bucket, and stays only if it has no other. |
| Cuckoo.Table.EvictReloc | deps/jemalloc/src/ckh.c:123-191 | Whatever is drawn and however far the chain has come, the items in the table and the one in hand are those there were, each in one of its two buckets; when it fails, the one in hand was in the table before. |
| Cuckoo.Table.TryInsert | deps/jemalloc/src/ckh.c:193-216 | The items gain the new one, or the items and the one in hand are those there were and the new one; when it fails, the one in hand was in the table before. |
| Cuckoo.Table.Rebuild | deps/jemalloc/src/ckh.c:222-243 | A rebuilt table holds exactly the items of the old one; a failure puts the count back. |
| Cuckoo.Table.Grow | deps/jemalloc/src/ckh.c:245-298 | A larger table with the same items, or the old one as it was, and that only after a size was refused or the limit reached, every size before having been granted and tried. |
| Cuckoo.Table.Shrink | deps/jemalloc/src/ckh.c:300-345 | A table half the size with the same items, or the old one as it was. |
| Cuckoo.Table.Insert | deps/jemalloc/src/ckh.c:454-476 | The map gains the pair; it fails only when a growth was refused or met the limit, and then gains the pair and loses the item in hand, which is an old one unless a growth succeeded, and is the new one when the keys collide, the ten draws made all fall on the first cell, and a full one-bucket table grows once and not again. |
| Cuckoo.Table.Remove | deps/jemalloc/src/ckh.c:478-507 | The map loses the key, the answer is the value it had, and a table less than a quarter full and above its first size is halved if memory is granted and the items fit. |
| Cuckoo.LostModels | deps/jemalloc/src/ckh.c:466-472 | A table that has all items but the one in hand holds the new map without that one key. |

## Left out

- Crash and restart: terms and votes are not durable in the code, so the theorems over runs are about servers that stay up.
- Leader Completeness and State Machine Safety: replies are matched to the last entry sent rather than to their request, and followers commit up to their last index; the code does not decide them. Command execution, `last_applied` and replies to waiting clients are left out with them.
- Timing and liveness: timeouts, intervals and which links are up are parameters. Terms and indexes are unbounded integers, and node names are distinct numbers.
- Peer bookkeeping: `last_sent_entry` may point to a freed entry and new peers' fields are not initialised; the cluster model lets those fields change to anything at any time, so no theorem rests on them. In `UpdateCommitIndex` as a step of the cluster the quorum's index may be any number.
- The length of `voted_for`: src/cluster.c:683 takes `sdslen` of a string stored by `zstrdup` at src/cluster.c:1026, which has no such header; the model takes the length to be that of the string. A zero there would let a candidate vote twice in a term.
- LogFile.LoadInvertsWrite: for strings without NULs that fit their 40-byte buffers, and writes that are complete or cut short at the end of the file; `fsync` and the overflow of `atol` are not modelled.
- ClusterServer.Server.UpdateCommitIndex: says which index is picked only for match indexes less than 2^31 apart, because the comparison truncates.
- CommitChoice.PickCommitIndex: the same; otherwise it says only that the index is one of those recorded. `qsort` is modelled as an insertion sort with the code's comparison.
- RequestParser.Client.ProcessMultibulk: for input that is not a stream of legal commands it says only that the parser stays in a well-formed state.
- RequestParser.Client.ProcessInput: which commands are held, and when they are committed, are parameters; closing, blocking and reply buffers are left out.
- RequestParser.Run: a read returns at least one byte; end of file and read errors are left out.
- Quoting.SplitArgs: `isprint` and `isspace` are those of the C locale.
- Dict.Dictionary.Add: for fewer than 2^62 keys, since twice the number of keys is asked for as a size; entries of 24 bytes do not fit a 64-bit address space beyond that. The `int` in which the code keeps `rehashidx` is not bounded, iterators are left out, and chains are sequences.
- Dict.Dictionary.ExpandIfNeeded: the same bound on the entries of a table.
- Dict.Dictionary.Replace: the same bound on the keys.
- Dict.Dictionary.Expand: sizes are integers; a table of LONG_MAX buckets, the only one asked for that is no power of two, is taken not to be had.
- DictScan.ScanCoversEverything: speaks about the tables as they are at each call; what is done between calls is unconstrained.
- Ziplist.List.Insert: for insertions that do not shrink the list, the case described above in which the resize cuts off bytes that are then moved; the 32-bit fields do not wrap, header fields are integers, and the length field is the code's saturating one.
- Ziplist.List.OpenGap: the same.
- Lzf.Compress: the byte after the room given is part of the buffer, so that the write there can be told; for room that is not a multiple of 33 bytes the condition for that write is necessary only. An input of one byte reads a second one for its first hash, taken as 0.
- Lzf.Decompress: the code may not be empty; the loop reads a byte before it looks at the length.
- PartialSort.PqSort: elements are swapped whole; the word-wise and byte-wise swaps are not modelled.
- Extents.Cache.Recycle: the base allocator and locking are left out; zeroing is reported, not carried out.
- Arena.Chunk.Dalloc: one chunk of an arena, the other chunks being constants in its totals; purging, zeroing, statistics, bins, and growing an allocation in place are left out.
- Arena.Chunk.SplitLarge: the choice of the run by best fit is the caller's; the zeroing of pages is left out.
- Cuckoo.Table.constructor: the allocation succeeds; the error return of `ckh_new` without one, which leaves no table, is not modelled.
- Cuckoo.Table.EvictReloc: whether a chain of evictions ends is not claimed: it depends on the draws, which are any function, and is followed for a given number of steps.
- Cuckoo.Table.Insert: says nothing of a call whose chain did not end within its steps. Keys are compared by equality, and no table of 2^59 cells or more is granted.
- Replication beyond what is named here, sockets, event loops, configuration, `CONFIG`, the keyspace commands, objects, `zmalloc`, zipmaps, checksums and the rest of jemalloc: they would add only easier members or are input and output.
