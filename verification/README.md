# A verified model of a BitTorrent client's download core

The project models three parts of the client and proves what they keep over every run:

- **The piece manager** (`Pieces`, `PieceInvariants`, `PieceManager`, `Runs`, `Assembly`, `Arrivals`,
  `TrueArrivals`, `Recovery`): it grants 16 KiB blocks, collects them in per-piece buffers, checks each
  full piece against its hash and keeps several records of progress. `Pieces` gives each operation as a function on the manager's fields;
  `PieceManager` is the object itself, with the source's loops, proved to compute those functions.
  Each call holds the manager's mutex, so a history (`Runs`) is any sequence of calls with any arguments.
- **The sessions and the file** (`Sessions`, `SystemRuns`, `Progress`, `FailedWrites`, `PeerSession`,
  `FileLayout`, `FinalFile`, `TwoBlockFile`): coroutines that interleave over one manager, cut at their
  suspensions, and the byte array the pieces are written to.
- **The bencode codec and the info-hash** (`Decimal`, `Bencode`, `BencodeGrammar`, `BencodeCode`,
  `BencodeExact`, `BencodeErrors`, `BencodeParser`, `Torrent`): `Bencode` has the printer and a parser of
  the format as functions, and `BencodeGrammar` a grammar of concrete syntax trees that keeps the spelling of length
  fields and duplicate keys. `BencodeCode` is the parser as coded, with `std::stoul` and `size_t` sums
  that wrap around; `BencodeExact` compares the two on every input, and `BencodeErrors` says which inputs
  fail and how. `BencodeParser` has the source's
  cursor-and-loop routines, proved to compute `BencodeCode`'s functions. BEP 3, section "bencoding", is
  the format. As the coded parser need not end, a run takes a budget of nested calls and loop turns and
  is `Unfinished` when that is used up; no budget stands in the source.

SHA-1 is any function from byte strings to byte strings; no theorem assumes that it has no collisions,
and the downloads that go wrong do so under every hash function.

## Where the code and its intent differ

The code is modelled as written, and each difference is stated with its exact condition.

- **The file.** `deliverBlock` verifies the assembled piece but writes only the block that arrived last
  (`src/app/piece_manager.cpp:83`). `FinalFile.CodedFileExact`: the resulting file is right for every
  initial content exactly when each piece was finished by a delivery of the whole piece; for a download
  of full blocks without returns that means: when no finished piece has more than one block
  (`FinalFile.CleanFileExact`). `TwoBlockFile.TwoBlockFileWrong` is a download that completes with a wrong
  file. What the verified pieces themselves make up is `VerifiedFile`, and it is right
  (`FinalFile.CompletedFile`, `FinalFile.HonestFile`).
- **The last piece's length** is computed from a file length narrowed to 32 bits
  (`src/app/piece_manager.cpp:165`). `FileLayout.LengthsExact` says for which torrents that is harmless,
  `FileLayout.NarrowedLengthWrong` gives one for which it is not.
- **The hash check** runs when as many deliveries were counted as the piece has blocks, whatever these
  were. A returned block moves the cursor back over blocks that were already received, which are granted
  and counted again; short and misplaced deliveries count as well. `Arrivals.CheckedIsReplay` says in
  every history what bytes the check sees; `Arrivals.CheckIsWholeIff`: they are every block in full
  exactly when each delivery since the last reset was a full block on the grid and none came twice;
  `Arrivals.CheckSeesAllBytesIff` says the same of single bytes. `TwoBlockFile.ReturnMakesCheckEarly` is a
  run of true blocks with one return in which a block is missing. No piece gets stuck even so
  (`Runs.NoPieceIsStuck`). With honest peers a check fails only if some block came twice since the last
  reset (`TrueArrivals.TrueCheck`). From every state one peer that sends true blocks can complete the
  download, if it also sends blocks in flight that other peers were asked for
  (`Recovery.AlwaysCompletable`); where no unfinished piece has a block in flight it need only send what
  it is asked for itself (`Recovery.CompletableByAnswers`).
- **The info-hash** is computed from four rebuilt keys. `Torrent.InfoBytesPreserved`: the hashed bytes
  are the file's own exactly when the info dictionary is canonical and has no other key;
  `Torrent.PrivateFlagChangesInfoHash` is a canonical dictionary for which they differ.
- **A failed write** loses track of the block that was granted for it. Sessions stop owning disjoint
  blocks that cover the unfinished pieces exactly when the piece of that block is unfinished
  (`Sessions.FailedWriteStep`; `Sessions.ExclusiveStep` is the exact condition for every kind of step).
  However the system goes on, that block is granted to nobody and given back by nobody until some peer
  sends it (`Sessions.StrandedForGood`); a piece that "has a block in flight" may have only such a one.
  `FailedWrites.WriteFailureStrands` is a run of five steps in which that happens, and
  `FailedWrites.WriteFailureShares` one after which two sessions own the same block.
- **Length fields** of strings go through `std::stoul`, and the end of a string is a `size_t` sum
  (`src/core/bencode_parser.cpp:121-127`). White space or a sign in front of a dictionary key's length is
  taken, and a length near 2^64 wraps the sum around, behind the bound check. One string is read as the
  format has it exactly when neither happens (`BencodeCode.StringExact`), that is, unless the field does
  not start with a digit or announces at least 2^64 minus the size of the data
  (`BencodeExact.StrayFields`). The whole parser agrees with the format unless the parse comes to such a
  field (`BencodeExact.CodeIsFormat`), what it accepts is spelled by a tree exactly when it did not
  (`BencodeExact.CodeAcceptsTexts`), and no text of a tree has one, so the round trip holds for the code
  (`BencodeExact.CodeReadsText`, `BencodeExact.CodeRoundTrip`). A wrapped sum can also move the position
  back: the code does not end on `l18446744073709551595:e` (`BencodeExact.CodeNeedNotEnd`), ends in linear
  time unless the parse comes to a string like that (`BencodeExact.CodeEnds`), and in general ends exactly
  when it does within 1001 * (size + 3) nested calls and turns (`BencodeExact.CodeEndsIff`). It accepts
  `18446744073709551615:abc` (`BencodeExact.CodeAcceptsTooLong`), where `tests/bencode_parser_tests.cpp:201`
  wants a length past the end refused.

## Model

| member | source | states |
|---|---|---|
| Runs.NoPieceIsStuck | src/app/piece_manager.cpp:49-158 | deadlock-freedom: after any sequence of requests, deliveries (duplicate, short, unaligned, out of bounds, wrong hash) and returns, each unfinished piece has a block in flight or one the manager would grant |
| Runs.IdleManagerGrants | src/app/piece_manager.cpp:25-47 | with nothing in flight, a peer that has any missing piece is given a block |
| Runs.RunInv | src/app/piece_manager.cpp:49-184 | the invariant of every history: cursors on the grid, each grid block below a cursor in flight or received since the last reset, distinct received offsets at most the counter and that below the blocks needed, blocks in flight aligned with clamped length, all records of finished pieces in agreement |
| PieceInvariants.NeverStuck | src/app/piece_manager.cpp:72-158 | any state with the invariant has a block in flight or to grant for each unfinished piece, by counting the grid |
| PieceInvariants.DeliverInv | src/app/piece_manager.cpp:49-109 | a delivery of any bytes at any offset keeps the invariant, whichever of the five ways it ends |
| PieceInvariants.GrantInv | src/app/piece_manager.cpp:135-158 | a grant keeps the invariant: moving the cursor past the granted block leaves everything below it covered |
| PieceInvariants.ReturnInv | src/app/piece_manager.cpp:111-122 | giving a block back keeps the invariant although the cursor moves backwards |
| PieceInvariants.NextFreeLeast | src/app/piece_manager.cpp:135-158 | the offset search finds the least grid offset from the cursor on that is not in flight, or there is none |
| PieceInvariants.InitInv | src/app/piece_manager.cpp:13-23 | a new manager satisfies the invariant for any number of pieces |
| Runs.GrantsBalance | src/app/piece_manager.cpp:75-151 | for each block and every history, grants equal removals plus one if the block is in flight |
| Runs.NoGrantInFlight | src/app/piece_manager.cpp:147-151 | between two grants of one block lies an accepted delivery or a return of it |
| Runs.FinishedIffVerified | src/app/piece_manager.cpp:81-90 | a piece is finished exactly when some delivery completed a buffer with the expected hash |
| Runs.FinishedForever | src/app/piece_manager.cpp:52-90 | a finished piece is never unset |
| Runs.FinishedOnce | src/app/piece_manager.cpp:52-85 | a piece is finished at most once, has no buffer afterwards and none of its blocks is granted again |
| Runs.CompleteIffAllFinished | src/app/piece_manager.cpp:95-133 | isComplete holds exactly when every piece is finished, and completion was then signalled exactly once |
| Bits.SetBitSetsOne | src/app/piece_manager.cpp:174-184 | setting a piece's bit, most significant first, sets that bit and no other |
| PieceManager.PieceManager.RequestBlock | src/app/piece_manager.cpp:25-47 | grants a block of the least piece that the peer has, we lack and that has one to grant; none exactly when no piece qualifies; the block is not in flight, at or behind the cursor and of the clamped length, it is entered as in flight, the cursor moves behind it, and nothing else changes |
| PieceManager.PieceManager.ScanBitfields | src/app/piece_manager.cpp:27-43 | the byte scan passes over no eligible piece |
| PieceManager.PieceManager.ScanByte | src/app/piece_manager.cpp:33-41 | the bit scan visits a byte's needed pieces in index order and stops at the first with a block to grant |
| PieceManager.PieceManager.GetNextBlockForPiece | src/app/piece_manager.cpp:135-158 | the loop over offsets grants the least free block from the cursor, or leaves the manager as it was |
| PieceManager.PieceManager.GetPieceLength | src/app/piece_manager.cpp:160-172 | the length of a piece as the manager computes it, narrowing included, which is the file's own length wherever the narrowing is harmless |
| PieceManager.PieceManager.DeliverBlock | src/app/piece_manager.cpp:49-109 | the answer is true exactly when the piece was finished before, or the data fits its buffer and leaves the count short or completes a buffer with the expected hash; for a finished piece nothing changes; the new manager state and the file after each kind of delivery, the file receiving the delivered block where the code writes it |
| PieceManager.PieceManager.StoreBlock | src/app/piece_manager.cpp:52-108 | the same answer and effect for the locked section, from any state of the right sizes |
| PieceManager.PieceManager.FinishPiece | src/app/piece_manager.cpp:83-98 | the whole effect of a matching hash on the file and the five fields |
| PieceManager.PieceManager.ReturnBlock | src/app/piece_manager.cpp:111-122 | true exactly for a block in flight, which is removed, with the cursor at the lesser of where it was and the block's offset; otherwise nothing changes |
| PieceManager.PieceManager.IsComplete | src/app/piece_manager.cpp:131-133 | true exactly when every piece is finished |
| PieceManager.PieceManager.constructor | src/app/piece_manager.cpp:13-23 | a new manager is in the initial state |
| Assembly.CleanRunInv | src/app/piece_manager.cpp:56-155 | without returns and with full blocks that are in flight, blocks in flight, received and not yet granted partition each unfinished piece's grid, the counter is the number of received blocks and the buffer holds each at its offset |
| Assembly.ExactlyOnce | src/app/piece_manager.cpp:67-106 | in such a run a delivered block was not received before, and the hash is checked exactly when the last block arrives, on the delivered blocks joined in offset order |
| Arrivals.CheckIsWholeIff | src/app/piece_manager.cpp:73-81 | in any history, returns and arbitrary deliveries included, a hash check sees every block in full exactly when each delivery since the last reset was a full block on the grid and none came twice, and it then sees them in offset order; with full blocks of which some came twice, those received are in place and others missing |
| Arrivals.CheckedIsReplay | src/app/piece_manager.cpp:56-81 | in any history the checked bytes are the deliveries counted since the last reset, as many as the piece has blocks, laid over zeros in the order they came |
| Arrivals.ReplayByte | src/app/piece_manager.cpp:60-72 | each such byte is that of the last delivery over it, and zero where nothing arrived |
| Arrivals.CountedInv | src/app/piece_manager.cpp:60-104 | after any history the counter is the number of deliveries since the reset and the buffer holds what they left |
| Arrivals.CheckSeesAllBytesIff | src/app/piece_manager.cpp:73-81 | byte by byte: the deliveries stay within their blocks and every checked byte arrived exactly when each delivery was a full block and none came twice |
| Arrivals.CountShowsTwice | src/app/piece_manager.cpp:73 | none came twice exactly when the counter equals the number of different offsets received and the new offset is not among them |
| TrueArrivals.TrueCheck | src/app/piece_manager.cpp:60-104 | in any history of requests, returns and true deliveries of blocks in flight, a hash check sees the content exactly when the content has zeros wherever nothing arrived since the last reset; everything arrived exactly when no block came twice, the check then succeeds, and a mismatch means that some block came twice |
| TrueArrivals.TrueReplay | src/app/piece_manager.cpp:60-72 | true deliveries leave in the buffer the content where anything arrived and zeros elsewhere |
| Assembly.HonestNeverRefused | src/app/piece_manager.cpp:56-108 | true slices of blocks in flight are never refused, never mismatch, and what is verified is the true piece |
| Assembly.HonestCompletion | src/app/piece_manager.cpp:56-133 | an honest download is complete exactly after as many deliveries as its pieces have blocks, and never takes more |
| Assembly.DeliveriesAndMissing | src/app/piece_manager.cpp:56-108 | conservation: deliveries made plus blocks still missing is the total, after every honest run |
| Assembly.MissingStep | src/app/piece_manager.cpp:56-108 | each honest delivery leaves exactly one block fewer to come and a request changes nothing |
| Assembly.HonestProgress | src/app/piece_manager.cpp:25-158 | while an honest download is incomplete, a peer with everything is given a block or one in flight can be delivered |
| Recovery.AlwaysCompletable | src/app/piece_manager.cpp:25-158 | from the state after any history, with false blocks, mismatches and returns in it, some run of one peer's requests and of true deliveries of blocks in flight, whoever these were granted to, completes the download, with at most two deliveries for each block and one discarded buffer for each piece |
| Recovery.CompletableByAnswers | src/app/piece_manager.cpp:25-158 | if no unfinished piece has a block in flight, the same with deliveries only of blocks that were granted to this peer since |
| Recovery.SeederAnswers | src/app/piece_manager.cpp:25-158 | in any such continuation a delivered block was granted to the peer in it or was in flight for an unfinished piece when it began |
| Recovery.FinishPiece | src/app/piece_manager.cpp:81-104 | for one piece at most one buffer is discarded on the way, none if what was received is true and undamaged, and the deliveries are at most the piece's blocks, or twice that if one was discarded |
| Recovery.DeliverAll | src/app/piece_manager.cpp:49-108 | delivering the true blocks of a piece until its check leaves it finished if its buffer was true and undamaged, and otherwise finished or empty; a buffer is discarded exactly in the last case |
| FileLayout.FileHandler.WritePiece | src/app/file_handler.cpp:20-31 | seeks and writes: the region from index times piece size holds the data, bytes outside it are as they were, and a gap past the old end is zeros |
| FileLayout.LengthsExact | src/app/piece_manager.cpp:160-172 | the manager's piece lengths are those of the file exactly when what the narrowing drops is a multiple of the piece length |
| FileLayout.UsualLengthsExact | src/app/piece_manager.cpp:160-172 | so they are for files below 4 GiB and for piece lengths that divide 2^32 |
| FileLayout.NarrowedLengthWrong | src/app/piece_manager.cpp:165-168 | a torrent of 4 GiB and one byte whose last piece gets a wrong length |
| FileLayout.RegionsTile | src/app/file_handler.cpp:28 | each byte of the file lies in exactly one piece's region |
| FinalFile.VerifiedHashes | src/app/piece_manager.cpp:81-86 | the pieces recorded as verified are exactly the finished ones, each with the expected hash and length |
| FinalFile.VerifiedRegions | src/app/file_handler.cpp:20-31 | with the whole verified piece written, after every step of every history each finished piece's region holds its recorded bytes, whatever the file held |
| FinalFile.VerifiedForever | src/app/piece_manager.cpp:52-85 | the bytes recorded for a finished piece never change |
| FinalFile.RegionsKeep | src/app/file_handler.cpp:20-31 | so from the step that finished a piece on its region holds the bytes verified then, after every later step |
| FinalFile.CompletedFile | src/app/piece_manager.cpp:131-133 | at completion that file is the concatenation of byte strings with the expected hashes |
| FinalFile.HonestFile | src/app/piece_manager.cpp:56-133 | after an honest download that file is the true content |
| FinalFile.CodedFileExact | src/app/piece_manager.cpp:83 | the file the code writes is the verified one, for every initial content, exactly when each piece was finished by a delivery of the whole piece |
| FinalFile.CleanFileExact | src/app/piece_manager.cpp:83 | for a download of full blocks in flight without returns: the code's file is the verified one, for every initial content, exactly when no finished piece has more than one block |
| FinalFile.MultiBlockPieceLost | src/app/piece_manager.cpp:83 | a download like that which finishes a piece of more than one block leaves a wrong file over some initial content |
| TwoBlockFile.TwoBlockFileWrong | src/app/piece_manager.cpp:83 | for every content of two blocks and every hash function, an honest download completes and the file holds only the second block, at offset 0 |
| TwoBlockFile.ReturnMakesCheckEarly | src/app/piece_manager.cpp:111-122 | for every content of two blocks and every hash function, a run of true blocks with one return in which the hash is checked over zeros in place of the first block |
| Sessions.PipelineBound | src/app/peer_session.cpp:60-133 | in every interleaving, failed writes and refused deliveries included, a session has at most 32 blocks outstanding |
| Sessions.BoundedStep | src/app/peer_session.cpp:91-133 | each step keeps blocks outstanding plus refill iterations left within the window |
| Sessions.RefillFills | src/app/peer_session.cpp:94-97 | an undisturbed refill loop ends with the window full or with nothing to grant to this peer |
| Sessions.PieceAnswered | src/app/peer_session.cpp:115-134 | the same in the interleaved system, from the manager's fields: which piece messages have their block leave the window and the window filled up again, that all others leave the session as it was, and that a late block of a finished piece leaves the manager as it was |
| Sessions.ExclusiveStep | src/app/peer_session.cpp:60-133 | with sessions owning disjoint blocks that make up the manager's set on unfinished pieces, a step keeps this exactly when it is harmless: a delivery that is stored takes no other session's block and leaves none of its own behind, and a write fails only for a finished piece |
| Sessions.FailedWriteStep | src/app/peer_session.cpp:72-78 | the failed write on its own: it breaks this exactly when the piece of its block is unfinished |
| Sessions.OrderlyStep | src/app/peer_session.cpp:51-133 | what it takes to go on like that: the step is harmless and a failed write finds the session's window empty, because blocks that are given back stay in the window |
| Sessions.OwnWindowIsHarmless | src/app/peer_session.cpp:115-125 | successful writes and accepted answers within the session's own window are such steps |
| Sessions.OwnWindowExclusivity | src/app/peer_session.cpp:51-133 | in every interleaving in which no write fails and each answer is accepted and within its session's window, sessions joining and disconnecting, owned blocks are disjoint, in flight at the manager and all of those in flight on unfinished pieces |
| Sessions.SessionExclusivity | src/app/peer_session.cpp:51-133 | the same for every interleaving of steps that meet OrderlyStep's condition |
| Sessions.NoOrphanedPiece | src/app/peer_session.cpp:51-81 | after such an interleaving each unfinished piece has a block to grant or one that some session answers for |
| Sessions.NoPieceIsStuckInSystem | src/app/peer_session.cpp:51-134 | in every interleaving, harmless or not, each unfinished piece has a block in flight, which may be a stranded one, or one to grant |
| Sessions.FailedWriteStrands | src/app/peer_session.cpp:72-78 | after a failed write its block is in flight at the manager and no session owns it or will give it back |
| Sessions.StrandedStep | src/app/peer_session.cpp:51-133 | a block like that stays so through a step exactly when the step counts no delivery of it |
| Sessions.StrandedForGood | src/app/peer_session.cpp:51-133 | in every continuation without a delivery of that block it stays in flight, with no session, and is granted to no peer |
| FailedWrites.WriteFailureStrands | src/app/peer_session.cpp:60-78 | on every torrent of one piece of two blocks: after a bitfield, an unchoke and one request the sessions' records are in order, and when writing that request fails the block is in flight, of an unfinished piece, and no session has it |
| FailedWrites.WriteFailureShares | src/app/peer_session.cpp:51-81 | a run in which a write fails while another block is outstanding: that block is given back but stays in the session's window, is granted to a second session, and both own it |
| SystemRuns.SystemIsRun | src/app/peer_session.cpp:51-134 | in every interleaving of sessions the manager is as after the history of the calls they made, so whatever is proved of histories holds in the system |
| SystemRuns.SystemCompletion | src/app/peer_session.cpp:51-134 | for any number of interleaved sessions, with no failed read or write and true full blocks from each session's own window: the download is complete exactly after as many PIECE messages as the torrent has blocks and never takes more, and each block in flight of an unfinished piece belongs to exactly one session |
| SystemRuns.OwnAnswerIsHonest | src/app/peer_session.cpp:115-125 | a true full block from the session's own window is in flight at the manager and accepted |
| Progress.WindowsFull | src/app/peer_session.cpp:91-133 | after every interleaving of honest sessions from the start, joining, choking and unchoking included, an idle session that is unchoked has 32 blocks outstanding or the manager has none for it |
| Progress.NeverIdle | src/app/peer_session.cpp:60-133 | after every such interleaving, a download that is not complete, with each missing piece had by a peer that has unchoked us, has something to do: a request, its write, or a true answer to a block some session waits for |
| Progress.WorksUntilComplete | src/app/peer_session.cpp:60-133 | from there requests, writes and answers come in any order, there are at most as many as 65 for each missing block and what the refill loops had left, and they stop only with the download complete |
| Progress.SeederWorks | src/app/peer_session.cpp:35-133 | one peer that has everything, unchokes once and answers what is asked of it, on a new manager: requests, writes and answers in any order stop only with the download complete, which it is exactly with as many answers as blocks, and there are at most 65 for each block and 64 more |
| Progress.SeederCompletes | src/app/peer_session.cpp:35-133 | such a run to completion exists |
| Progress.NoneIffAsked | src/app/piece_manager.cpp:25-158 | in honest runs the manager has nothing for a peer exactly when every block of the unfinished pieces it has was granted |
| PeerSession.PeerSession.HandleBitfield | src/app/peer_session.cpp:35-49 | a bitfield of the expected size is stored and keeps the session fit to ask for blocks, any other changes nothing |
| PeerSession.PeerSession.HandleUnchoke | src/app/peer_session.cpp:91-98 | clears the choke and starts a refill loop that with the blocks outstanding makes exactly the window |
| PeerSession.PeerSession.RequestBlock | src/app/peer_session.cpp:60-72 | one iteration up to its write: the manager's answer is a block not in flight before, which this session then owns, an iteration without a block is used up, and the window bound is kept |
| PeerSession.PeerSession.RequestWritten | src/app/peer_session.cpp:72-81 | after a successful write the session owns what it owned, after a failed one all but the block asked for, and starts giving back; the window bound is kept |
| PeerSession.PeerSession.RefillUndisturbed | src/app/peer_session.cpp:94-97 | the loop without interruption or failed writes ends with the window full or the manager with nothing to grant to this peer |
| PeerSession.PeerSession.HandlePiece | src/app/peer_session.cpp:115-134 | answered true, which includes a late block of a finished piece, the block leaves the window and a refill loop starts that with the blocks outstanding makes exactly the window; answered false, the session is as it was; the manager and the file after it; the window bound is kept |
| PeerSession.PeerSession.ReturnBlocks | src/app/peer_session.cpp:51-58 | in whatever order blocks are given back, exactly those in flight leave the manager's set and each cursor ends at the least offset given back or where it was |
| BencodeGrammar.RoundTrip | src/core/bencode_parser.cpp:12-161 | for the format's parser: encode then parse with any suffix returns the value and stops right behind it when depth plus height is within the limit, and is refused for its depth otherwise |
| BencodeGrammar.ParserMeetsGrammar | src/core/bencode_parser.cpp:72-161 | the format's parser, with unbounded sums and plain digits, accepts a byte string with a value exactly when a tree within the depth limit spells the consumed part and means the value; when the code is that parser is BencodeExact.CodeIsFormat |
| BencodeGrammar.ParseText | src/core/bencode_parser.cpp:72-161 | completeness of the format's parser: the text of every tree is read back as its value within the limit and refused beyond it |
| BencodeGrammar.ParseSound | src/core/bencode_parser.cpp:72-161 | soundness of the format's parser: whatever it accepts is the text of a tree with that value and an allowed depth; for the code see BencodeExact.CodeAcceptsTexts |
| BencodeGrammar.Unambiguous | src/core/bencode_parser.cpp:72-161 | no tree's text is a proper prefix of another's and a text determines its tree |
| BencodeGrammar.PrefixFree | src/core/bencode_parser.cpp:12-68 | encodings are prefix-free and injective |
| BencodeGrammar.Normalises | src/core/bencode_parser.cpp:12-161 | printing what was read gives a text with the same value at the same depth, equal to the bytes read exactly when these were canonical |
| BencodeGrammar.CanonicalPrints | src/core/bencode_parser.cpp:45-65 | printing a tree's value returns its text exactly when its length fields are canonical and its keys strictly ascending |
| BencodeGrammar.ParseIntText | src/core/bencode_parser.cpp:95-111 | reading inverts decimal printing on exactly the int64 range and overflows outside it |
| BencodeCode.StringExact | src/core/bencode_parser.cpp:113-129 | at every position of every input: the code reads a string as the format's parser does exactly when its length field has no white space or sign that `std::stoul` takes and the sum of position and length does not wrap around behind the bound check; where it is otherwise the format's parser refuses |
| BencodeCode.EndsBehindColon | src/core/bencode_parser.cpp:123-127 | a string that is read ends behind its colon exactly when the sum does not wrap around |
| BencodeCode.SameValue | src/core/bencode_parser.cpp:72-161 | two ways of reading strings that differ at some positions only give the same run of the whole parser, cut off anywhere, unless the parse comes to one of these |
| BencodeCode.LongerValue | src/core/bencode_parser.cpp:72-161 | a run that ended is the same with any larger budget |
| BencodeExact.CodeIsFormat | src/core/bencode_parser.cpp:72-161 | on every input of size_t size, from every position: the code ends, within a budget of twice the size, with the result of the format's parser, unless the parse comes to a string that is read otherwise, and then the format's parser refuses the input |
| BencodeExact.FormatValue | src/core/bencode_parser.cpp:72-161 | the format's parser on the unread suffix is the position-moving recursion of the code, with the format's way of reading strings |
| BencodeExact.CodeReadsText | src/core/bencode_parser.cpp:72-161 | completeness of the code: the text of every tree, whatever follows, is read back as its value within the depth limit and refused beyond it; no such parse comes to a field that is read otherwise |
| BencodeExact.CodeRoundTrip | src/core/bencode_parser.cpp:12-161 | encode then parse by the code, with any suffix, returns the value and stops right behind it when depth plus height is within the limit, and is refused for its depth otherwise |
| BencodeExact.CodeAcceptsTexts | src/core/bencode_parser.cpp:72-161 | soundness of the code, exactly: what it accepts is the text of a tree with that value and an allowed depth if and only if the parse came to no field that is read otherwise |
| BencodeExact.StrayFields | src/core/bencode_parser.cpp:118-127 | a field that is read otherwise does not start with a digit or announces at least 2^64 minus the size of the data |
| BencodeExact.PlainIsFormat | src/core/bencode_parser.cpp:72-161 | on data in which no position has such a field the code ends with the format's result from every position |
| BencodeExact.CodeEnds | src/core/bencode_parser.cpp:72-161 | the code ends within a budget of twice the size, with the position moved on and within the data, unless the parse comes to a string whose reading does not move it on |
| BencodeExact.CodeEndsIff | src/core/bencode_parser.cpp:132-161 | the code ends on an input, with whatever budget, exactly when it does within 1001 * (size + 3): a loop that has seen as many positions comes back to one and goes on for ever |
| BencodeExact.LoopSettles | src/core/bencode_parser.cpp:132-161 | a loop whose elements settle with some budget gives the same run with every budget larger by the number of positions it has not seen |
| BencodeExact.ReadForEver | src/core/bencode_parser.cpp:136-138 | a list element that is a string and ends where it starts is read for ever |
| BencodeExact.CodeNeedNotEnd | src/core/bencode_parser.cpp:121-138 | the code is unfinished with every budget on `l18446744073709551595:e`, which the format's parser refuses |
| BencodeExact.CodeAcceptsTooLong | src/core/bencode_parser.cpp:121-127 | the code reads `18446744073709551615:abc` as "abc" and ends at position 20; the format's parser refuses it |
| BencodeExact.CodeTakesSignedKeys | src/core/bencode_parser.cpp:118-121 | the code reads `+1:a` as a key, the format's parser refuses it |
| BencodeErrors.FailsIff | src/core/bencode_parser.cpp:72-161 | the format's parser fails with an exception exactly when the input is cut into open containers, each with elements in order and within the depth limit, and a rest that fails there: no value, key or END starts with it, it is an integer or a length out of range, or a value is expected below the limit |
| BencodeErrors.CodeFailsIff | src/core/bencode_parser.cpp:72-161 | the same for the parser as coded, on every input whose parse comes to no length field that is read otherwise |
| BencodeErrors.RuntimeErrorIff | src/core/bencode_parser.cpp:77-79 | the depth guard's exception comes exactly from inputs in which a value is expected one level below the limit, everything before being in order |
| BencodeErrors.IntFailsIff | src/core/bencode_parser.cpp:95-111 | an input that starts like an integer is an invalid argument exactly when it spells none, printed form and END, and out of range exactly when it spells one outside int64; no other exception |
| BencodeErrors.StringFailsIff | src/core/bencode_parser.cpp:113-129 | where a string is expected: an invalid argument exactly when no digits, tail and colon are there or fewer bytes follow than announced, out of range exactly when 2^64 or more are announced |
| BencodeErrors.StoulOfNumber | src/core/bencode_parser.cpp:118-121 | `std::stoul` on white space, sign, digits and a tail: the number, modulo 2^64 behind a minus sign, or out of range |
| BencodeErrors.StoulRefuses | src/core/bencode_parser.cpp:118-121 | and an invalid argument exactly on anything else |
| Bencode.FirstOfDuplicatesKept | src/core/bencode_parser.cpp:145-161 | a dictionary has its keys in byte order and binds each to the first value read for it |
| Bencode.EmplaceMeaning | src/core/bencode_parser.cpp:156 | emplacing keeps the order and every old binding, and adds the new one if its key was absent |
| Bencode.AscendingExtensional | include/core/bencode_parser.hpp:91-94 | a dictionary is determined by its bindings |
| Decimal.IsValidBencodeInt | src/core/bencode_parser.cpp:163-192 | accepts a string exactly when it is the printed form of some integer |
| Decimal.IntTextRoundTrip | src/core/bencode_parser.cpp:18-21 | printed integers have the accepted shape and are read back |
| BencodeParser.ParseInt | src/core/bencode_parser.cpp:95-111 | moves the position behind the number, or fails, as the format has it; BencodeErrors.IntFailsIff says how |
| BencodeParser.ParseString | src/core/bencode_parser.cpp:113-129 | the value, the position and the errors of BencodeCode.ReadString, with the sum of position and length wrapping at 2^64; the position stays within the data |
| BencodeParser.ParseList | src/core/bencode_parser.cpp:132-142 | for every budget the loop reads the elements up to the END, in order, fails, or is cut off, as BencodeCode.ReadItems does |
| BencodeParser.ParseDict | src/core/bencode_parser.cpp:145-161 | likewise the loop reads the pairs up to the END and builds the map that first bindings give |
| BencodeParser.ParseValue | src/core/bencode_parser.cpp:72-93 | for every budget the run that BencodeCode.ReadValue defines, with the position within the data; BencodeExact says when it ends and when it is the format's |
| BencodeParser.ExpectChar | src/core/bencode_parser.cpp:194-199 | advances by one exactly when the expected byte is there |
| BencodeParser.Parse | src/core/bencode_parser.cpp:7-10 | the run from position 0; what follows the value is ignored |
| BencodeParser.Encode | src/core/bencode_parser.cpp:12-68 | the loops print elements and entries in order |
| Torrent.InfoBytesPreserved | src/core/torrent_metadata_loader.cpp:52-130 | the bytes fed to SHA-1 are the info dictionary's own exactly when it is canonical and has just the four known keys |
| Torrent.TorrentInfoHash | src/core/torrent_metadata_loader.cpp:35-130 | from the file's bytes, read by the parser as coded, when the parse came to no length field that is read otherwise: announce, comment and creation date are the values of the first pairs with these keys in the root dictionary; the info metadata are the values of the first pairs with the four keys in the first "info" dictionary, the hashes being its pieces string cut into 20 bytes each; the info-hash is that of this dictionary's own bytes exactly when it is canonical and has just these keys |
| Torrent.InfoDictExact | src/core/torrent_metadata_loader.cpp:52-75 | an info dictionary of any number of keys is accepted exactly when the four keys have the right types, the piece length is positive, the length not negative and the pieces a multiple of 20; the metadata is then what it binds and the hashes join to the pieces string; otherwise a runtime error |
| Torrent.RootExact | src/core/torrent_metadata_loader.cpp:78-91 | the same for the root dictionary and its five values, with the date cast to unsigned |
| Torrent.LoadExact | src/core/torrent_metadata_loader.cpp:35-50 | a file is loaded exactly when it has at most 10 MiB and starts with such a root dictionary; what fails otherwise, and with which exception |
| Torrent.KeyOrder | src/core/torrent_metadata_loader.cpp:116-119 | the order of the four keys, with "piece length" before "pieces" |
| Torrent.FourKeysRebuilt | src/core/torrent_metadata_loader.cpp:52-121 | a dictionary of four entries that parses as info is the one calculateInfoHash rebuilds, and the metadata is all it binds |
| Torrent.CalculateInfoHash | src/core/torrent_metadata_loader.cpp:114-130 | assigning the keys in the source's order yields the ordered four-entry map that is encoded and hashed |
| Torrent.ParsePieceHashes | src/core/torrent_metadata_loader.cpp:93-112 | fails exactly when the length is no multiple of 20, and splits the string into consecutive 20-byte hashes |
| Torrent.HashesFlatten | src/core/torrent_metadata_loader.cpp:93-112 | the hashes concatenate to the string they came from |
| Torrent.PrivateFlagChangesInfoHash | src/core/torrent_metadata_loader.cpp:114-121 | a canonical info dictionary with a "private" key is hashed under other bytes than its own |

## Left out

- FinalFile.CompletedFile: is about the file made of whole verified pieces, which the code does not write; what the code writes is right exactly under FinalFile.CodedFileExact.
- FinalFile.HonestFile: likewise.
- Assembly.ExactlyOnce: is for runs without returned blocks, because with them blocks are granted and counted twice; Arrivals.CheckIsWholeIff says when the check still sees a whole piece.
- Sessions.SessionExclusivity: is for steps that meet the condition of Sessions.OrderlyStep only, which shows that every other step ends this order. A peer is assumed to send its bitfield before it is asked for blocks, with the spare bits clear, and to name pieces that exist; the source reads outside its vectors otherwise.
- Sessions.NoPieceIsStuckInSystem: counts a stranded block as one in flight; Sessions.StrandedForGood says what becomes of it.
- Arrivals.CheckSeesAllBytesIff: with deliveries that run over the end of their block, all bytes can also arrive in fewer or other pieces; Arrivals.CheckedIsReplay covers these.
- BencodeParser.ParseList: a list that grows for ever would end in `std::bad_alloc`; here the run is unfinished with every budget.
- Torrent.TorrentInfoHash: is for files whose parse comes to no length field that is read otherwise than the format has it; on other files that are accepted no tree spells what was read (BencodeExact.CodeAcceptsTexts).
- BencodeParser.ParseValue: reading the byte behind the end of the input counts as failure; the source has no check there.
- PieceManager.PieceManager.RequestBlock: asks for a bitfield of our size with spare bits clear, and a piece length between 1 and 2^32 - 1, which the source does not check.
- PieceManager.PieceManager.GetPieceLength: likewise asks for a piece length below 2^32; the source narrows a larger one, and divides by zero if nothing is left of it.
- PieceManager.PieceManager.DeliverBlock: asks for a piece index in range, which the source does not check.
- A stream that is not open: `writePiece` then throws; here every write succeeds. Opening, flushing and closing the file are not modelled.
- A PIECE message too short to hold its index and offset, which the source's reader refuses with an exception.
- The `PeerState` flag, keep-alive, HAVE and unknown messages: they change no block, window or bitfield.
- Sockets, handshake, the tracker client, threads and the mutex itself: each manager call is atomic.
- The condition variable is a counter of notifications; `ProgressTracker` and logging are display only.
- SHA-1 itself, and reading the torrent file from disk.
- Fixed-width message readers and writers, and the compact peer list: plain copies.
