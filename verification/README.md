# Verified models of the BitTorrent engine, getopt, heap sort and CRC-32

This project models the parts of the repository that keep indexed state consistent over unbounded runs, and proves what
they are for. Most of it is the BitTorrent engine of `src/bittorrent`: a torrent's files seen as one byte array, pieces
placed on disk in any order and moved home later, blocks requested from many peers, the choice of what to request and whom
to upload to, the wire format, and the torrent file. Three algorithms from elsewhere complete it: GNU getopt's permutation
of the command line, 7-Zip's heap sort, and table-driven CRC-32.

`dafny verify dfyconfig.toml` checks everything.

## How it is organised

Code that changes things step by step is modelled by classes and methods with loops. What such a method does to the state
is stated by a function or predicate on values, and the hard properties are lemmas about those values.

| file | what it models |
|---|---|
| `Storage.dfy` | the files of a torrent as one flat, zero-padded byte array |
| `Slots.dfy` | where pieces sit on disk, and the moves that bring them home without losing a byte |
| `Blocks.dfy`, `Pieces.dfy` | the blocks of one piece: not requested, outstanding, arrived |
| `Stores.dfy` | the whole state of a download as one value, its invariant, its steps and runs |
| `Scans.dfy` | the start-up scan of what is on disk |
| `StorageWrapper.dfy` | the object that does all this |
| `PiecePicker.dfy` | rarest first, with a bucketed index |
| `Choosing.dfy` | which piece is the right one to ask for next |
| `Swarms.dfy`, `Downloader.dfy` | which peer is asked for which block, before endgame and in it |
| `Attention.dfy` | whether a peer with something to ask for is overlooked |
| `Session.dfy` | whole downloads: any events from any peers in any order |
| `Neglect.dfy` | whom the program may overlook, and a run in which it does |
| `Distribution.dfy` | from the publisher's files to the downloader's |
| `Choker.dfy` | whom to upload to |
| `RawServer.dfy`, `Framing.dfy`, `Encrypter.dfy` | sending, framing and the handshake |
| `Connecter.dfy`, `Bitfield.dfy` | peer messages and bit fields |
| `Bencode.dfy`, `Metafile.dfy` | bencoding, and the piece hashes of a torrent file |
| `Getopt.dfy`, `Sort.dfy`, `Crc.dfy` | the three algorithms |

SHA-1 is an arbitrary function from byte sequences to byte sequences. Files are byte sequences by name, as in the
repository's own `src/bittorrent/fakeopen.py`. Random choices (`shuffle`, `choice`, `randrange`, the order of a
dictionary) may come out in any way. Rates are arbitrary numbers. Sends are recorded, and so is the closing of a connection.

## What the code does that its description does not say

* `Connection.data_came_in` (src/bittorrent/Encrypter.py:116-137) promises to be indifferent to how a stream is cut into
  chunks. It is, except when a call to the connecter raises an exception and leaves the connection open: then the rest of
  the same chunk is dropped, while a further chunk closes the connection. `Framing.Chunks` states exactly when the cut
  matters, `Framing.CutMatters` shows it for every connection with such a connecter, and `Framing.NeverRaised` excludes it
  for connecters that raise nothing. The messages delivered are the same in any case (`Framing.SameMessages`).
* `_getopt_internal` (src/grub4dos/lib/getopt.c:527-533) skips the `-` or `+` in front of the option string only in the
  call that initializes. In later calls that character counts as an option, and a `:` after it does not count any more when
  an argument is missing. `Getopts.OptionsOf` follows the code; `Getopts.SelectorHarmless` states for every option string
  and command line when the scan is right nevertheless, and `Getopts.SelectorIsOption` and `Getopts.ColonIsLost` give
  command lines for which it is not.
* After a piece turned out wrong before endgame, `got_piece` (src/bittorrent/Downloader.py:80-93) turns only to peers that
  do not choke us, and offers them only that piece. A peer that chokes us, has the piece, and lost our interest when its
  last block was requested is not told that it is wanted again, and the peer that sent the wrong block may be asked for
  less than it could be. In all other events nobody is overlooked (`Sessions.NobodyOverlooked`), and nobody is for any other
  reason in any run (`Neglect.OnlyForAReason`); `Sessions.FailureDecides` states exactly when somebody is, and
  `Neglect.FailureOverlooks` gives a run.
* `_get_piece` (src/bittorrent/StorageWrapper.py:205-215) serves only verified data, also when hashes are not checked at
  start-up. The branch that reports corrupted data (src/bittorrent/StorageWrapper.py:149-151) cannot be taken unless the disk
  changes behind the program's back; `StorageWrappers.StorageWrapper.PlaceWhereOwnerReturns` proves it dead.

## Model

| member | source | states |
|---|---|---|
| Storages.Storage.constructor | src/bittorrent/Storage.py:8-42 | opening lays out the non-empty files as consecutive ranges, notes how long each file was, cuts files that are too long, creates missing ones, empty ones included, and changes no other byte on disk |
| Storages.RangesOfChained | src/bittorrent/Storage.py:13-25 | for any list of distinct files, empty ones included, the ranges partition the flat array in order |
| Storages.Storage.BisectRight | src/bittorrent/Storage.py:64 | binary search: everything before the result begins at or before the position, everything from it on begins after |
| Storages.Storage.Intervals | src/bittorrent/Storage.py:61-69 | the intervals tile the request exactly, across any files, and leave out no file that the request touches |
| Storages.ClippedRangesTile | src/bittorrent/Storage.py:61-69 | clipped ranges that begin at the position found and end at the first range beyond the request are such a tiling |
| Storages.Storage.WasPreallocated | src/bittorrent/Storage.py:44-48 | true exactly if every touched file reached, before it was opened, as far as the request needs it |
| Storages.Storage.Read | src/bittorrent/Storage.py:71-77 | a read of bytes that are there returns exactly that stretch of the flat array |
| Storages.Storage.Write | src/bittorrent/Storage.py:79-90 | a write changes exactly its stretch of the flat array, makes it present, keeps everything present that was, lets no file grow beyond its length, and touches no file outside the torrent |
| Storages.WriteSplices | src/bittorrent/fakeopen.py:33-38 | writing inside one file, with zeros filling a gap, splices the flat array and nothing else |
| Storages.StretchOfView | src/bittorrent/fakeopen.py:21-31 | a stretch of one file is the corresponding stretch of the flat array |
| Storages.StillUntouched | src/bittorrent/Storage.py:8-42 | after opening and any writes, files that are not of the torrent are as they were on disk |
| Storages.HeldIfPresent | src/bittorrent/Storage.py:8-42 | once every byte has been written, each file holds its stretch of the flat array and not a byte more, empty files included |
| Storages.ViewIs | src/bittorrent/Storage.py:8-42 | files that hold some bytes, cut at their lengths, empty files included, are seen as these bytes |
| Slots.UnplacedLeavesHole | src/bittorrent/StorageWrapper.py:144-145 | while a piece has no place there is a hole, so that popping one never fails |
| Slots.AllPlacedMeansHome | src/bittorrent/StorageWrapper.py:144-175 | when all pieces are placed no hole is left and every piece is in its own slot |
| Slots.OccupantAway | src/bittorrent/StorageWrapper.py:156-175 | a piece away from home finds its home free, and the slot it sits in has full size |
| Slots.EarlyHoleIsFull | src/bittorrent/StorageWrapper.py:145 | a hole that is not the last one is not the short last slot |
| Slots.MovePiece | src/bittorrent/StorageWrapper.py:148-152 | moving the bytes of one piece to a free slot keeps its bytes and those of every other piece |
| Slots.RelocateTakeOver | src/bittorrent/StorageWrapper.py:146-155 | first case: the owner of the hole comes home and the newcomer takes the slot it leaves; layout invariant and all bytes kept |
| Slots.RelocateSwapIn | src/bittorrent/StorageWrapper.py:146-163 | second case: the owner comes home, the newcomer's occupant moves to the slot that leaves, the newcomer is at home |
| Slots.RelocateFill | src/bittorrent/StorageWrapper.py:164-167 | third case: the newcomer sits in the first hole, which it fits |
| Slots.RelocateDisplace | src/bittorrent/StorageWrapper.py:168-175 | fourth case: the newcomer's occupant moves to the first hole |
| Slots.SwapInSizes | src/bittorrent/StorageWrapper.py:157-163 | in the second case both slots have full size, so reading and writing `piece_size` bytes truncates nothing |
| Slots.DisplaceSizes | src/bittorrent/StorageWrapper.py:169-175 | in the fourth case both slots have full size |
| Slots.PlacedRelocated | src/bittorrent/StorageWrapper.py:143-175 | whichever of the four cases it is, the first hole is filled, the layout invariant holds afterwards, and no byte of a placed piece is lost |
| Slots.CanPlace | src/bittorrent/StorageWrapper.py:143-175 | in every sound layout with a piece that has no place one of the four cases applies, and all it reads and writes is within the array |
| Slots.WriteOwn | src/bittorrent/StorageWrapper.py:176 | writing a block changes the bytes of its own piece there and no other piece's |
| Blocks.CutTiles | src/bittorrent/StorageWrapper.py:101-109 | the blocks a piece is cut into tile it, without gap or overlap |
| Blocks.TilesApart | src/bittorrent/StorageWrapper.py:101-109 | two different blocks of a tiling do not overlap |
| Blocks.AssembledIs | src/bittorrent/StorageWrapper.py:176-179 | data in which every block of a tiling stands is what the blocks assemble to |
| Blocks.NothingUnrequested | src/bittorrent/StorageWrapper.py:131-133 | the total of unrequested bytes is 0 exactly if no piece has anything to request |
| Pieces.Request | src/bittorrent/StorageWrapper.py:123-134 | a requested block moves from unrequested to outstanding; the three kinds of blocks still tile the piece |
| Pieces.Lose | src/bittorrent/StorageWrapper.py:193-196 | a lost block moves back |
| Pieces.Arrive | src/bittorrent/StorageWrapper.py:176-178 | an arriving block is stored and disturbs no block that arrived before; it is the last one exactly if all others have arrived, and then the data is what all blocks assemble to |
| Pieces.Rehoused | src/bittorrent/StorageWrapper.py:144-175 | a piece that is moved on disk is as good as before |
| Stores.Complete | src/bittorrent/StorageWrapper.py:83-84 | when nothing is left: no holes, every piece at home and had, each with its expected hash, `finished` called once |
| Stores.EndgameTest | src/bittorrent/StorageWrapper.py:131-133 | `amount_inactive` is 0 exactly if nothing can be requested any more |
| Stores.SomethingLeft | src/bittorrent/StorageWrapper.py:131-133 | endgame begins in time: before it, while a block is outstanding, another one can be requested |
| Stores.FirstHole | src/bittorrent/StorageWrapper.py:144-145 | there is a first hole whenever an unplaced piece needs one |
| Stores.RequestedInv | src/bittorrent/StorageWrapper.py:123-134 | `new_request` keeps the invariant, and the block was neither outstanding nor arrived |
| Stores.LostInv | src/bittorrent/StorageWrapper.py:193-196 | `request_lost` keeps the invariant |
| Stores.MovedInv | src/bittorrent/StorageWrapper.py:144-175 | moving pieces around keeps the invariant and the data of every placed piece |
| Stores.WroteInv | src/bittorrent/StorageWrapper.py:176-178 | storing a block keeps the invariant unless it was the last one; the test for that is exact |
| Stores.LastAssembles | src/bittorrent/StorageWrapper.py:176-179 | the hash is due exactly when every block has arrived, and then the bytes on disk are what the blocks assemble to |
| Stores.Verdict | src/bittorrent/StorageWrapper.py:178-191 | for any arrival: before the last block no hash is taken and the piece is not had; with it the piece is had exactly if what its blocks assemble to has the expected hash |
| Stores.PlacedInv | src/bittorrent/StorageWrapper.py:143-175 | placing a piece, in the way of the source, keeps the invariant and the data of every placed piece |
| Stores.CheckedInv | src/bittorrent/StorageWrapper.py:178-191 | after the last block, either verdict of the hash keeps the invariant |
| Stores.TrustedInv | src/bittorrent/StorageWrapper.py:208-212 | verifying a piece when it is first served keeps the invariant |
| Stores.ServedBytes | src/bittorrent/StorageWrapper.py:213-215 | the bytes served are those of the piece, wherever it sits |
| Stores.AllOutstanding | src/bittorrent/Downloader.py:84-88 | when a piece of which nothing arrived has nothing left to request, all its blocks are outstanding |
| Stores.StepProgress | src/bittorrent/StorageWrapper.py:123-215 | every step that starts where the invariant holds leads to where it holds, and takes nothing back: pieces had stay had with the same bytes, what is left only shrinks, endgame does not end |
| Stores.NeverStuck | src/bittorrent/StorageWrapper.py:123-215 | where the invariant holds no event finds the program stuck: what can be requested has a least block, an outstanding block can be given back, and it can arrive with any bytes, for which there is a place |
| Stores.RunProgress | src/bittorrent/StorageWrapper.py:123-215 | so in any run from a state with the invariant, all states have it, and between any two of them nothing is taken back |
| Stores.RunCompletes | src/bittorrent/StorageWrapper.py:61-84 | in any run that checks hashes, once nothing is left `finished` has been called exactly once, and from then on the disk holds the pieces in order, each with its expected hash |
| Scans.ScanStart | src/bittorrent/StorageWrapper.py:43-48 | the scan's invariant holds at its start |
| Scans.SkippedInv | src/bittorrent/StorageWrapper.py:62-63 | a slot that was not on disk becomes a hole |
| Scans.OwnFound | src/bittorrent/StorageWrapper.py:64-72 | a slot with its own piece credits it, and it was not credited before |
| Scans.ListedFound | src/bittorrent/StorageWrapper.py:73-74 | a slot with another piece's data credits one that was not credited before |
| Scans.LastFound | src/bittorrent/StorageWrapper.py:75-76 | a slot that begins with the last piece credits it, and it was not credited before |
| Scans.UnknownInv | src/bittorrent/StorageWrapper.py:77-78 | an unknown slot is occupied by its own piece, unverified, which had no place before; nothing is left that it could be credited with |
| Scans.MarkedInv | src/bittorrent/StorageWrapper.py:53-59 | crediting a piece with the slot that holds its data keeps the invariant of the scan, and the totals follow, if it is the right piece for the slot |
| Scans.ScanDone | src/bittorrent/StorageWrapper.py:61-84 | when all slots are scanned the invariant of a download holds, every slot that was on disk was searched (its own piece, another one of its length as long as one is left, the last one), and what is had sits in such a slot |
| Scans.NothingListed | src/bittorrent/StorageWrapper.py:73-76 | a slot for which nothing is found on the lists matches no piece that is still to be found, unless the last piece, of another length, has the same hash |
| Scans.SlotStays | src/bittorrent/StorageWrapper.py:61-78 | what a slot was found to hold stays so while other slots are searched |
| Scans.FoundExactly | src/bittorrent/StorageWrapper.py:49-78 | for pairwise different hashes: a piece that was on disk in its own slot is had exactly if that slot holds it; any other one exactly if some slot on disk holds it at its length; and a short last one exactly if some slot on disk begins with it and has no other piece credited |
| StorageWrappers.StorageWrapper.Open | src/bittorrent/StorageWrapper.py:15-84 | refuses exactly the totals that do not go with the number of pieces; otherwise scans the disk and leaves a valid object with the given parameters: every slot that was on disk was searched for its own piece, for another one of its length and hash that was not at home, as long as one is left, and for the last piece |
| StorageWrappers.StorageWrapper.ScanSlot | src/bittorrent/StorageWrapper.py:61-78 | one turn of the scan keeps its invariant, which says what the slots so far were found to hold |
| StorageWrappers.StorageWrapper.MakeInactive | src/bittorrent/StorageWrapper.py:101-109 | the loop cuts the piece into the blocks of the specification |
| StorageWrappers.StorageWrapper.NewRequest | src/bittorrent/StorageWrapper.py:123-134 | hands out the least unrequested block; endgame starts exactly when that was the last one anywhere |
| StorageWrappers.StorageWrapper.RequestLost | src/bittorrent/StorageWrapper.py:193-196 | the block may be requested again; nothing else changes |
| StorageWrappers.StorageWrapper.Place | src/bittorrent/StorageWrapper.py:143-175 | a piece gets a place, by one of the four relocations; no byte of a placed piece changes, and the first hole is used up |
| StorageWrappers.StorageWrapper.PieceCameIn | src/bittorrent/StorageWrapper.py:143-191 | the block is stored; the hash is taken when every block of the piece has arrived, of what they assemble to, and the piece is had exactly if it is the expected one |
| StorageWrappers.StorageWrapper.GetPiece | src/bittorrent/StorageWrapper.py:205-215 | returns exactly the bytes asked for of a piece that is had and verified, and None in every other case |
| PiecePickers.BucketsPartition | src/bittorrent/PiecePicker.py:10-12 | the buckets hold each incomplete piece exactly once, and nothing else |
| PiecePickers.SwappedOut | src/bittorrent/PiecePicker.py:35-39 | taking a piece out of its bucket keeps index and positions inverse to each other |
| PiecePickers.SwappedIn | src/bittorrent/PiecePicker.py:40-49 | putting it anywhere into another bucket does, too |
| PiecePickers.MovedToEnd | src/bittorrent/PiecePicker.py:102-108 | moving it to the end of its bucket does, too |
| PiecePickers.PiecePicker.constructor | src/bittorrent/PiecePicker.py:7-17 | at first all pieces are in the bucket of pieces that nobody has |
| PiecePickers.PiecePicker.GotHave | src/bittorrent/PiecePicker.py:19-26 | counts one more holder of an incomplete piece; a complete one stays uncounted |
| PiecePickers.PiecePicker.LostHave | src/bittorrent/PiecePicker.py:28-33 | counts one less |
| PiecePickers.PiecePicker.ShiftOver | src/bittorrent/PiecePicker.py:35-49 | the piece changes buckets, and the index stays exact |
| PiecePickers.PiecePicker.Requested | src/bittorrent/PiecePicker.py:51-55 | the piece is started; those started for seeds are among the started ones |
| PiecePickers.PiecePicker.Complete | src/bittorrent/PiecePicker.py:57-70 | an incomplete piece becomes complete, once, and leaves all lists |
| PiecePickers.PiecePicker.Bump | src/bittorrent/PiecePicker.py:102-108 | the piece goes last in its bucket; the others keep their order, and no count changes |
| PiecePickers.PiecePicker.AmIComplete | src/bittorrent/PiecePicker.py:99-100 | true exactly if no piece is incomplete |
| PiecePickers.PiecePicker.Next | src/bittorrent/PiecePicker.py:72-97 | follows the source: it raises exactly if the search for the least available does; else a least available wanted started piece if there is one with fewer than 2^30 holders; else before the cutoff the first wanted one in random order, and after it a rarest wanted one with at least one holder and fewer than 2^30 |
| PiecePickers.PiecePicker.NextChooses | src/bittorrent/PiecePicker.py:72-97 | with fewer than 2^30 holders of any piece: the choice is a least available wanted started piece if there is any, or a rarest wanted one, and None only if no wanted piece has a holder |
| PiecePickers.PiecePicker.NeverFails | src/bittorrent/PiecePicker.py:72-97 | with fewer than 2^30 holders of any wanted piece it does not raise |
| PiecePickers.PiecePicker.LeastAvailable | src/bittorrent/PiecePicker.py:73-85 | finds exactly the wanted started pieces with the fewest holders, if those are fewer than 2^30; raises exactly if it comes upon a wanted piece with just 2^30 holders before any with fewer |
| PiecePickers.PiecePicker.RarestOf | src/bittorrent/PiecePicker.py:93-97 | finds a rarest wanted piece in the given buckets |
| Swarms.Ask | src/bittorrent/Downloader.py:147-148 | asking keeps a peer within its backlog, with no block twice, and both sides agree on what is asked for |
| Swarms.Choke | src/bittorrent/Downloader.py:52-55 | a choke makes both sides forget what was asked for |
| Swarms.Settle | src/bittorrent/Downloader.py:69-73 | so does an answer or a cancel, for one block |
| Swarms.TakeExclusive | src/bittorrent/Downloader.py:141-148 | before endgame a new outstanding block is asked of exactly one peer |
| Swarms.DropExclusive | src/bittorrent/Downloader.py:35-39 | a block given back is asked of nobody and not outstanding |
| Swarms.StartEndgame | src/bittorrent/Downloader.py:166-169 | the list made at the switch holds the outstanding blocks, each once, and everything that any peer is asked for |
| Swarms.AskStep | src/bittorrent/Downloader.py:136-148 | asking one peer for a new block keeps the invariant of all peers |
| Swarms.ChokeStep | src/bittorrent/Downloader.py:52-55 | so does a choke, once the blocks were given back |
| Swarms.PieceStep | src/bittorrent/Downloader.py:69-83 | an arriving block was outstanding and, in endgame, listed once; after it, it is neither |
| Swarms.CancelStep | src/bittorrent/Downloader.py:98-107 | cancelling it at another peer in endgame keeps the invariant |
| Swarms.FixStep | src/bittorrent/Downloader.py:173-188 | in endgame a peer may be asked for anything that is outstanding |
| Swarms.Settled | src/bittorrent/Downloader.py:92-107 | once nobody is asked for the block any more, the invariant holds again |
| Swarms.LeaveStep | src/bittorrent/Downloader.py:21-26 | a peer that leaves takes its counts with it, and nothing is left outstanding without a peer |
| Swarms.JoinStep | src/bittorrent/Downloader.py:247-249 | a new peer changes nothing |
| Swarms.CountedMore | src/bittorrent/Downloader.py:190-194 | the picker's count stays the number of peers that have the piece |
| Swarms.ContentReleased | src/bittorrent/Downloader.py:28-40 | after a peer chokes us and its blocks were given back, we are still interested only with reason, in it and in all others |
| Swarms.StillOffers | src/bittorrent/Downloader.py:154-164 | a peer that has none of the pieces whose last block was just asked for has as much to offer as before |
| Swarms.ContentCancelled | src/bittorrent/Downloader.py:98-107 | in endgame a peer that is not asked for the block that arrived needs no change: it is asked for everything listed that it has, as far as the backlog allows |
| Attention.MadeUp | src/bittorrent/Downloader.py:28-50 | if the blocks that were let go have been offered to everybody, nothing was overlooked on the way |
| Attention.AfterFailure | src/bittorrent/Downloader.py:80-93 | when nobody was overlooked before a piece turned out wrong, nobody is afterwards if and only if every peer that choked us before and has a block of the piece left to offer knew of our interest, and the peer that sent the piece is asked for as much as the backlog allows or has nothing more to ask for |
| Downloaders.SingleDownload.ChooseInterest | src/bittorrent/Downloader.py:125-135 | the piece that is chosen is right, by what the peer has, what can be requested, what was started, and how many have it |
| Downloaders.SingleDownload.ChoiceIsRight | src/bittorrent/PiecePicker.py:72-97 | what the picker chooses is right for the peer: its limits on the number of holders play no part |
| Downloaders.SingleDownload.AskFor | src/bittorrent/Downloader.py:136-148 | one turn: the first unrequested block of the right piece is asked of this peer, and the piece counts as started, for a peer that has everything also as started for those |
| Choosing.LedOn | src/bittorrent/Downloader.py:124-150 | right choices after right choices are right choices, each judged by what held when it was made |
| Choosing.AskedOn | src/bittorrent/Downloader.py:41-44 | so it is over several peers, also when one of them leads into endgame, after which nothing is chosen any more |
| Downloaders.SingleDownload.FixDownloadEndgame | src/bittorrent/Downloader.py:173-188 | asks for what is outstanding elsewhere and this peer has, up to the backlog; we are interested exactly if it has anything that is listed |
| Downloaders.SingleDownload.AskForMore | src/bittorrent/Downloader.py:123-150 | asks for blocks until the backlog is full or nothing wanted can be requested, and returns all pieces whose last block it took; each block is the first of the piece that is right at that moment: without given pieces, a least available wanted one of those started, or else the first wanted one in random order up to the cutoff and a wanted one with the fewest holders after it; of given pieces, the first wanted one |
| Downloaders.SingleDownload.RequestMore | src/bittorrent/Downloader.py:117-171 | keeps the invariant of all peers, also when it leads into endgame: requests, counts, and that we are interested only with reason; the peer is then asked for as much as the backlog and the given pieces allow; no piece is newly overlooked at any peer; before endgame only right choices are asked for, and nothing else happens to what choices depend on |
| Downloaders.SingleDownload.Reconsider | src/bittorrent/Downloader.py:154-171 | a peer loses our interest only if it is asked for nothing and has nothing that could be requested, and does lose it then |
| Downloaders.SingleDownload.GiveBack | src/bittorrent/Downloader.py:34-39 | everything this peer was asked for can be requested again, and only that |
| Downloaders.SingleDownload.LetGo | src/bittorrent/Downloader.py:28-40 | afterwards the peer is asked for nothing, before endgame and in it |
| Downloaders.SingleDownload.GotChoke | src/bittorrent/Downloader.py:52-55 | keeps the invariant; for each block given back, every peer that has more of its piece is asked for as much as the backlog allows or, if it chokes us, knows of our interest; no piece is newly overlooked at any peer; before endgame, what is then asked of anybody is the first wanted of the pieces given back |
| Downloaders.SingleDownload.GotUnchoke | src/bittorrent/Downloader.py:57-61 | keeps the invariant; an interesting peer is asked for as much as the backlog allows; no piece is newly overlooked at any peer; only right choices are asked for |
| Downloaders.SingleDownload.GotHave | src/bittorrent/Downloader.py:190-206 | keeps the invariant and counts the piece, once; the peer is asked for it or told of our interest if that is possible; the connection is closed exactly if both sides have everything; no piece is newly overlooked at any peer; of the piece, and of no other one, the peer is asked for blocks |
| Downloaders.SingleDownload.GotHaveBitfield | src/bittorrent/Downloader.py:208-226 | keeps the invariant and counts all pieces of a new peer; we are interested exactly if it has something to ask for; the connection is closed exactly if both sides have everything; no piece is newly overlooked at any peer |
| Downloaders.SingleDownload.GotPiece | src/bittorrent/Downloader.py:69-112 | a block that was not asked for changes nothing; any other is stored exactly once, and the result tells whether its piece is complete; more is asked for, from this peer or, if the piece was wrong, from all that do not choke us; connections are closed exactly if both sides have everything; no piece is newly overlooked, unless one turned out wrong before endgame: then that one may be at other peers, and any at the peer that sent it; before endgame, this peer is asked for right choices only, and after a wrong piece anybody for that piece only |
| Downloaders.SingleDownload.Disconnected | src/bittorrent/Downloader.py:21-26 | keeps the invariant for the peers that are left, and hands them the blocks as after a choke; no piece is newly overlooked at any peer; before endgame, what is asked for is the first wanted of the pieces given back |
| Downloaders.Downloader.constructor | src/bittorrent/Downloader.py:235-245 | the invariant holds for a storage that was just opened |
| Downloaders.Downloader.MakeDownload | src/bittorrent/Downloader.py:247-249 | a new peer keeps the invariant |
| Downloaders.Downloader.SwitchToEndgame | src/bittorrent/Downloader.py:165-171 | the invariant before endgame becomes the one of endgame, and every peer is asked for all it has of what is listed, as far as the backlog allows |
| Downloaders.Downloader.Reassign | src/bittorrent/Downloader.py:41-50 | handing lost blocks to other peers keeps the invariant, and reaches every peer that has them; no piece is newly overlooked at any peer; they are asked for the first wanted of the given pieces |
| Downloaders.Downloader.Relist | src/bittorrent/Downloader.py:81-87 | in endgame all blocks of a piece that failed are outstanding and listed again, and nothing is left to request |
| Downloaders.Downloader.Retry | src/bittorrent/Downloader.py:88-93 | before endgame they are requested again from the peers that do not choke us, and the piece is last among its equals |
| Downloaders.Downloader.Finish | src/bittorrent/Downloader.py:94-107 | the picker is told of a complete piece, once, and in endgame nobody else is asked for the block any more, but for all else that is listed |
| Downloaders.Downloader.CloseSeeds | src/bittorrent/Downloader.py:109-111 | a connection is closed exactly if both sides have everything |
| Sessions.Happen | src/bittorrent/Downloader.py:21-226 | any one event changes who chokes us and who has what as it says, stores a block if one was asked for, keeps the invariant, takes nothing back, and overlooks nobody, with the exact exception of `Sessions.FailureDecides`; an event that cannot occur changes nothing; before endgame it asks for right choices only |
| Sessions.HappenAll | src/bittorrent/Downloader.py:21-226 | any sequence of events from any peers is a chain of such steps, and at every point of it peers are asked only for what they should be, and is asked for right choices, each for what the peers have, what can be requested and what was started at that moment |
| Sessions.Download | src/bittorrent/download.py:167-270 | from the given files on disk and with the given parameters through any run, event by event: pieces complete in place are there from the start, files outside the torrent are never touched, and once nothing is left, `finished` was called exactly once, the flat array is the pieces in order, each with its expected hash, and the files hold just that |
| Sessions.ValidOrderly | src/bittorrent/Downloader.py:117-150 | at any point of a run a peer is asked only for blocks its piece is cut into, outstanding, of a piece it has and we miss, no longer than the request size, no more at a time than the backlog, only while it does not choke us and knows of our interest; before endgame no two peers for the same block; the picker counts for every missing piece how many peers have it, and the complete pieces |
| Sessions.NobodyOverlooked | src/bittorrent/Downloader.py:21-226 | in any run in which no piece turns out wrong, at every point before endgame: what can be requested from a peer is requested from it as far as the backlog allows or, if it chokes us, it knows of our interest |
| Sessions.NotYetOverlooked | src/bittorrent/Downloader.py:21-226 | the same up to the first piece that turns out wrong, in any run |
| Sessions.FailsIf | src/bittorrent/StorageWrapper.py:176-191 | whether a block makes its piece fail is known before it comes: from what has arrived, and the hash |
| Sessions.TakenHeedfully | src/bittorrent/Downloader.py:69-112 | after a block nothing that its sender has is overlooked, and nothing newly of the others; after one that makes its piece fail, that piece was offered to those that do not choke us, and nobody that chokes us was told anything |
| Sessions.StillAttended | src/bittorrent/Downloader.py:21-226 | no event but the failure of a piece makes anybody overlooked |
| Sessions.FailureDecides | src/bittorrent/Downloader.py:80-93 | for every failure of a piece before endgame in a state in which nobody is overlooked, the exact condition of `Attention.AfterFailure` |
| Sessions.OnDisk | src/bittorrent/Storage.py:79-90 | what the state of a download means for the files: others untouched, and with nothing left each file is its stretch of the content, of exactly its length |
| Neglect.OnlyForAReason | src/bittorrent/Downloader.py:21-226 | in every run, at every point before endgame, a peer is overlooked only for pieces that turned out wrong while it choked us and did not know of our interest, or because it sent the last block of such a piece and no other since |
| Neglect.FailureOverlooks | src/bittorrent/Downloader.py:80-93 | a run of seven events from an empty disk, each step of it a step of the program and with the invariants at every point, in which nobody is overlooked until a piece turns out wrong before endgame, and then a peer that chokes us is not told that its blocks are wanted again |
| Distributions.Reproduced | src/bittorrent/btmakemetafile.py:64-126 | hashes made from some content are accepted for a download of that length, and a complete download reproduces the content, unless in some place it has another piece with the same hash |
| Distributions.HoldsIs | src/bittorrent/btmakemetafile.py:68-106 | files hold the joined content, cut at their lengths, if and only if each is as the publisher has it |
| Distributions.BeginsWith | src/bittorrent/StorageWrapper.py:41-84 | on a disk that already holds the files nothing is left to download |
| Distributions.Distribute | src/bittorrent/download.py:167-270 | publishing any files and downloading them to any disk in any run: never refused; other files untouched; once nothing is left every file is exactly as the publisher has it, unless some piece has the hash of another one in the same place |
| Chokers.CandidatesFacts | src/bittorrent/Choker.py:41-44 | the candidates are exactly the interested peers that do not snub us, each once |
| Chokers.FrontFastest | src/bittorrent/Choker.py:45-47 | sorting and cutting leaves the fastest candidates, as many as there are slots but one |
| Chokers.AssignedCounts | src/bittorrent/Choker.py:48-61 | how many further peers the loop serves, from below and above |
| Chokers.SlotBounds | src/bittorrent/Choker.py:40-61 | after every rechoke at most max(max_uploads, min_uploads) interested peers are unchoked, at least min_uploads if that many are interested, and nobody is choked up to the first interested one in the list |
| Chokers.OptimisticSlot | src/bittorrent/Choker.py:54-59 | one interested peer that is not preferred is served as well, if there is one |
| Chokers.RechokedMeans | src/bittorrent/Choker.py:34-61 | a rechoke in terms of what was measured: of the interested peers (that do not snub us, while we download) as many as there are slots but one are preferred, or all, and no other is faster at uploading to us (at downloading from us, once we are done); of the rest, those are choked before which there is already one interested peer that is not preferred, and as many as the minimum asks for |
| Chokers.WaitStep | src/bittorrent/Choker.py:18-27 | a waiting peer never moves back, and every rotation moves it forward |
| Chokers.BoundedWait | src/bittorrent/Choker.py:18-27 | a peer that stays interested is unchoked before the list was rotated as often as its position says, and within three times as many rounds, whatever rates and other peers do |
| Chokers.Choker.ValidIsFine | src/bittorrent/Choker.py:18-80 | what every method of the choker keeps is what bounded waiting starts from, so that it applies to every choker at any time |
| Chokers.Choker.Rechoke | src/bittorrent/Choker.py:40-61 | while we download, the preferred peers are those that upload most to us and do not snub us, and once we are done those that download most from us; the others are choked exactly if enough that are not preferred come before them |
| Chokers.Choker.Rotate | src/bittorrent/Choker.py:22-26 | the list is rotated to the first interested peer that is choked |
| Chokers.Choker.RoundRobin | src/bittorrent/Choker.py:18-27 | a round is a step of the runs that bounded waiting speaks of |
| Chokers.Choker.ConnectionMade | src/bittorrent/Choker.py:63-67 | a new connection goes to the given place, or any, and everybody is rechoked |
| Chokers.Choker.ConnectionLost | src/bittorrent/Choker.py:69-72 | the connection is gone; its slot is given to others if it was served |
| Chokers.Choker.InterestChanged | src/bittorrent/Choker.py:74-80 | everybody is rechoked exactly if the peer was not choked, and nothing changes otherwise |
| Chokers.Choker.GotInterest | src/bittorrent/Uploader.py:21-30 | a change of interest is passed on, and afterwards nobody is choked up to the first interested peer |
| RawServers.SingleSocket.Write | src/bittorrent/RawServer.py:52-56 | what was sent followed by what is queued is everything written, in order |
| RawServers.SingleSocket.TryWrite | src/bittorrent/RawServer.py:58-76 | so it stays under any partial sends; it stops only when the system takes less than offered, and the socket is polled for writing exactly if something is queued |
| RawServers.SingleSocket.Flushed | src/bittorrent/RawServer.py:49-50 | when nothing is queued everything was sent |
| Framing.LengthRoundTrip | src/bittorrent/Encrypter.py:10-15 | `toint` and `tobinary` undo each other, both ways |
| Framing.Chunks | src/bittorrent/Encrypter.py:116-137 | receiving two chunks is receiving their concatenation, if and only if not both a call to the connecter raised an exception in the first, without closing, and more data comes in |
| Framing.RaisedIs | src/bittorrent/Encrypter.py:127-132 | that is so exactly if the connection ends up open but dead |
| Framing.NeverRaised | src/bittorrent/Encrypter.py:116-137 | it never is with a connecter that raises no exceptions |
| Framing.CutMatters | src/bittorrent/Encrypter.py:130-132 | the cut matters on every connection, after any correct handshake, for any message at which the connecter raises an exception and any data after it |
| Framing.CutMattersHere | src/bittorrent/Encrypter.py:130-132 | such a connection |
| Framing.AnyChunking | src/bittorrent/Encrypter.py:116-137 | without exceptions a stream has the same effect however it is cut into chunks, as long as the ids of the other connections stay the same between them |
| Framing.SameMessages | src/bittorrent/Encrypter.py:116-137 | with or without exceptions, the messages delivered do not depend on the cut |
| Framing.Delivered | src/bittorrent/Encrypter.py:48-97 | more data extends what is known of a connection: what came in is a correct handshake, the frames of some messages and the beginning of one more, and exactly the non-empty ones of those messages were delivered, in order |
| Framing.AllDelivered | src/bittorrent/Encrypter.py:48-97 | so that holds at any time, of any connection from its beginning, whatever comes in and in whatever chunks |
| Framing.StreamDelivers | src/bittorrent/Encrypter.py:88-97 | the frames of any messages that are not too long arrive as exactly the non-empty ones, in order |
| Framing.Conversation | src/bittorrent/Encrypter.py:48-97 | a connection of either kind: a correct handshake with the expected id or a free one is accepted and answered, and the messages after it are delivered, in any chunking |
| Framing.PartDelivered | src/bittorrent/Encrypter.py:116-137 | while part of a stream is on its way, a prefix of its messages is delivered |
| Framing.EndToEnd | src/bittorrent/Encrypter.py:113-137 | from one end to the other: whatever part of a handshake and some messages was sent and in whatever chunks it arrives, a prefix of the non-empty messages is delivered, and all of them once all is sent |
| Framing.WrittenIs | src/bittorrent/Encrypter.py:20-34 | a connection with a complete handshake has written its own handshake, whichever side began |
| Framing.IdDecides | src/bittorrent/Encrypter.py:69-86 | an id completes the connection exactly if it is the expected one or, if none is, neither our own nor taken; otherwise the connection is closed and nobody is told |
| Framing.HandshakeDecides | src/bittorrent/Encrypter.py:48-86 | the first 68 bytes decide: the connection is complete exactly if they are 19, the name of the protocol, any eight bytes, what we download, and an id that is the expected one or new to us; otherwise it is closed and nobody is told |
| Framing.HelloGreets | src/bittorrent/Encrypter.py:31-32 | our own handshake is such, with eight zeros |
| Framing.FrameIs | src/bittorrent/Encrypter.py:113-114 | a frame is the length of the message in four bytes, the highest first, and the message |
| Framing.LengthDecides | src/bittorrent/Encrypter.py:88-92 | a length beyond the limit closes the connection, any other is that of the next message |
| Framing.AllTold | src/bittorrent/Encrypter.py:69-111 | what the connecter is told of any connection, whatever comes in: nothing before it is complete; then that it is made, an incoming one with an announcement before; the messages; and once it is closed, its loss, exactly once |
| Encrypters.Connection.constructor | src/bittorrent/Encrypter.py:20-34 | a new connection starts with its handshake, and writes it if it was made from here |
| Encrypters.Connection.Close | src/bittorrent/Encrypter.py:102-111 | closes once, leaves the encoder, and tells the connecter if the handshake was complete |
| Encrypters.Connection.SendMessage | src/bittorrent/Encrypter.py:113-114 | writes the frame of the message |
| Encrypters.Connection.SendAll | src/bittorrent/Encrypter.py:113-114 | several messages, with any partial sends in between, are written as the stream of their frames |
| Encrypters.Connection.SendToPeer | src/bittorrent/Encrypter.py:113-137 | what a connection sends is delivered by the connection at the other end: a prefix of the non-empty messages under any partial sends and any chunking, and all of them once nothing is queued |
| Encrypters.Connection.DataCameIn | src/bittorrent/Encrypter.py:116-137 | the loop terminates, also with messages of no bytes, and has the specified effect |
| Connecters.DecodesEncoded | src/bittorrent/Connecter.py:53-83 | a message is understood as a call if and only if it is what sending that call produces and the call is admissible |
| Connecters.LayoutIs | src/bittorrent/Connecter.py:8-83 | what is sent, byte by byte: the number of the kind of message, and its numbers in four bytes each, the highest first; a bit field with the highest bit first and spare bits zero |
| Connecters.DecodesMeaning | src/bittorrent/Connecter.py:156-223 | a message is understood as a call if and only if its bytes mean that call and it is admissible |
| Connecters.Connecter.GotMessage | src/bittorrent/Connecter.py:156-223 | makes exactly the call that the bytes of the message mean, if it is admissible, and otherwise closes the connection; all connections are sent the number of a piece that is complete |
| Bitfields.BitsOfValue | src/bittorrent/bitfield.py:17-28 | the bits of the number made from given bits are those bits |
| Bitfields.ValueOfBits | src/bittorrent/bitfield.py:24-28 | the number of the bits of a number is that number: the two tables are inverse to each other |
| Bitfields.MakeBooleans | src/bittorrent/bitfield.py:17-22 | testing the high bit and shifting yields the bits, highest first |
| Bitfields.ParsePack | src/bittorrent/bitfield.py:32-70 | parsing and printing undo each other: exactly the strings that are printed are accepted, for every length |
| Bitfields.PackIs | src/bittorrent/bitfield.py:63-70 | bit `k` of the list is bit `k % 8` of byte `k / 8`, the highest first, and spare bits are zero |
| Bitfields.MissingUpdate | src/bittorrent/bitfield.py:52-55 | the number of false bits follows a change of one bit |
| Bitfields.Bitfield.FromString | src/bittorrent/bitfield.py:32-47 | accepts exactly strings with the right number of bytes and no spare bit set; the count of false bits is right |
| Bitfields.Bitfield.Set | src/bittorrent/bitfield.py:52-55 | changes one bit and keeps the count right |
| Bitfields.Bitfield.Complete | src/bittorrent/bitfield.py:72-73 | true exactly if all bits are set |
| Bitfields.Bitfield.ToString | src/bittorrent/bitfield.py:63-70 | prints a string that parses back to the same bits |
| Bencodings.DecimalParses | src/bittorrent/bencode.py:240-241 | a printed number reads back as itself, is what its digits are worth at their places, and has no superfluous zero |
| Bencodings.DigitsPrint | src/bittorrent/bencode.py:4-16 | a token without superfluous zero is the printed form of its value |
| Bencodings.LessIs | src/bittorrent/bencode.py:254-255 | the order of keys is the one by characters: a proper beginning comes first, and otherwise the first difference decides |
| Bencodings.NumberTexts | src/bittorrent/bencode.py:4-16 | a number is accepted exactly if it is plain digits without superfluous zero, with a minus sign in front unless it is zero, and as what its digits are worth at their places |
| Bencodings.StringTexts | src/bittorrent/bencode.py:18-27 | a string is accepted exactly behind its length, without superfluous zero, and a colon |
| Bencodings.NumberExamples | src/bittorrent/bencode.py:282-284 | the repository's own examples of numbers |
| Bencodings.StringExamples | src/bittorrent/bencode.py:286-288 | those of strings |
| Bencodings.EmptyExamples | src/bittorrent/bencode.py:289-292 | the empty list and the empty dictionary |
| Bencodings.ListExamples | src/bittorrent/bencode.py:290-291 | examples of lists |
| Bencodings.DictExample | src/bittorrent/bencode.py:293 | an example of a dictionary, with its keys in order |
| Bencodings.SortedIs | src/bittorrent/bencode.py:254-255 | there is only one ascending order of the keys of a dictionary |
| Bencodings.RoundTrip | src/bittorrent/bencode.py:4-52 | the code of any value is read back as that value, up to exactly its end, whatever stands before and after |
| Bencodings.Back | src/bittorrent/bencode.py:4-52 | any text that is accepted is the code of the value it is read as |
| Bencodings.DecodesCodes | src/bittorrent/bencode.py:62-69 | `bdecode` returns a value if and only if the text is the code of that value |
| Bencodings.PrefixFree | src/bittorrent/bencode.py:276-279 | no code is the beginning of another one |
| Bencodings.BDecodeText | src/bittorrent/bencode.py:62-69 | the parser accepts exactly the codes |
| Bencodings.ReadList | src/bittorrent/bencode.py:29-34 | the loop builds the list of the specification |
| Bencodings.ReadDict | src/bittorrent/bencode.py:36-45 | the loop builds the dictionary of the specification; it is accepted with its keys in order by characters, as they are in the text |
| Bencodings.BEncode | src/bittorrent/bencode.py:276-279 | what is appended, joined, is the code of the value |
| Bencodings.WriteDict | src/bittorrent/bencode.py:252-259 | dictionaries are written with their keys in order by characters, each once and with its value, whatever order they come in |
| Metafiles.PiecesCover | src/bittorrent/btmakemetafile.py:109-113 | the pieces put together are the data; all are full but the last; there are as many as the length needs, rounded up |
| Metafiles.HashFiles | src/bittorrent/btmakemetafile.py:68-106 | for any list of files the hashes are those of the pieces of their concatenation, across the ends of files |
| Metafiles.HashFile | src/bittorrent/btmakemetafile.py:108-123 | for a single file they are the hashes of its pieces |
| Metafiles.CutDoesNotMatter | src/bittorrent/btmakemetafile.py:64-126 | both loops, run on any files with the same contents in total and on a single one, find the same hashes, as many as the pieces needed |
| Getopts.LowBlockDone | src/grub4dos/lib/getopt.c:345-361 | swapping the shorter lower segment with the far end of the upper one leaves the right rotation to do |
| Getopts.HighBlockDone | src/grub4dos/lib/getopt.c:362-378 | so does swapping the shorter upper segment with the near end of the lower one |
| Getopts.Getopt.Exchange | src/grub4dos/lib/getopt.c:307-385 | two adjacent segments change places, each in its old order; nothing else moves; the bounds describe the non-options again |
| Getopts.ExchangeStep | src/grub4dos/lib/getopt.c:562-563 | an exchange keeps what the command line means |
| Getopts.SkipStep | src/grub4dos/lib/getopt.c:569-571 | so does skipping a non-option |
| Getopts.EndMark | src/grub4dos/lib/getopt.c:579-591 | `--` ends the scan, and counts as an option |
| Getopts.ClusterStep | src/grub4dos/lib/getopt.c:758-776 | one option character is decoded; its argument is the rest of the element or the next one |
| Getopts.Getopt.ShortOption | src/grub4dos/lib/getopt.c:758-924 | decodes one option character as specified, and makes progress |
| Getopts.Getopt.Advance | src/grub4dos/lib/getopt.c:547-620 | goes to the next option, returns a non-option, or ends with everything sorted out |
| Getopts.Getopt.GetOpt | src/grub4dos/lib/getopt.c:514-926 | one call keeps the state of the scan, and the last one leaves the command line as specified |
| Getopts.Getopt.ScanAll | src/grub4dos/lib/getopt.c:953-963 | a caller's loop finds exactly the options that the original command line means. A `-` in front of the option string: every other element is returned in order and nothing is moved. A `+`, or else the environment: the scan stops at the first other element and nothing is moved. Otherwise the command line becomes the stable partition, with `optind` at the first other element, and no option in front of a `--` is left behind one |
| Getopts.StablePartition | src/grub4dos/lib/getopt.c:545-620 | the elements are marked one by one as options or others, and neither group is reordered |
| Getopts.KindIs | src/grub4dos/lib/getopt.c:758-776 | the first place where an option character stands decides: one colon behind it asks for an argument, two allow one; a colon is no option |
| Getopts.ClusterMeans | src/grub4dos/lib/getopt.c:758-924 | a cluster, character by character: what is found for each, and whether the next element is taken as an argument |
| Getopts.RolesOf | src/grub4dos/lib/getopt.c:545-620 | each element is options, an argument, the `--`, another element or one that the scan does not come to, as its text and what comes before it say; what is found and what is sorted to the front follows |
| Getopts.ScanMeans | src/grub4dos/lib/getopt.c:396-425 | what a whole scan does in each of the three orders, from the option string and the environment |
| Getopts.PermutedScan | src/grub4dos/lib/getopt.c:545-620 | after a whole permuting scan the command line is the stable partition of the original, with `optind` at the first non-option |
| Getopts.NotPermuted | src/grub4dos/lib/getopt.c:604-613 | in the other orders nothing is moved |
| Getopts.SelectorIsOption | src/grub4dos/lib/getopt.c:527-533 | the first failure: the selecting character taken for an option, but not by the first call |
| Getopts.ColonIsLost | src/grub4dos/lib/getopt.c:940-957 | the second failure: a `:` after the selecting character is honoured by the first call only |
| Getopts.SelectorHarmless | src/grub4dos/lib/getopt.c:527-533 | a scan with a selecting character finds what is meant, which is what the rest of the option string says, if and only if no later call meets the guard of either failure |
| Getopts.SelectorMatters | src/grub4dos/lib/getopt.c:527-533 | the same for the rest of a scan, and then the command line is sorted as is meant, too; otherwise something else is found at some position |
| Sorting.Descend | src/7z/C/Sort.c:5-12 | the hole goes down to the larger child and the heap stays in order around it |
| Sorting.Fill | src/7z/C/Sort.c:12 | where the loop stops the element fits |
| Sorting.HeapSortDown | src/7z/C/Sort.c:5-12 | fills the hole so that the heap is in order, and loses no element |
| Sorting.BelowTheTwo | src/7z/C/Sort.c:41-46 | any node from the second level on is at most as large as one of the root's children |
| Sorting.Promote | src/7z/C/Sort.c:41-46 | the larger child may become the root without being compared with the last element |
| Sorting.TakeRoot | src/7z/C/Sort.c:43 | the root is the largest, so what has been taken out stays sorted |
| Sorting.EndingSorted | src/7z/C/Sort.c:48-57 | the ending sorts a heap of 2 or 3 elements |
| Sorting.HeapSort | src/7z/C/Sort.c:14-58 | for every array the result is sorted and has the same elements |
| Crcs.MessageParts | src/7z/C/7zCrc.c:21-27 | a message may be processed in parts |
| Crcs.BitsAdvance | src/7z/C/7zCrc.c:8-19 | taking the bits of a byte one by one is adding the byte and advancing by as many steps |
| Crcs.LowByte | src/7z/C/7zCrc.h:16 | eight steps look at the low byte only; the others move down |
| Crcs.ByteStep | src/7z/C/7zCrc.h:16 | one table look-up is eight bits of the definition |
| Crcs.FirstEntry | src/7z/C/7zCrc.c:11-18 | entry `b` of the table is byte `b` advanced by 8 bits |
| Crcs.LaterEntry | src/7z/C/7zCrcT8.c:22-27 | entry `b` of table `k` is byte `b` advanced by 8 * (k + 1) bits |
| Crcs.GenerateTable | src/7z/C/7zCrc.c:8-19 | fills the table so |
| Crcs.GenerateTables | src/7z/C/7zCrcT8.c:10-28 | fills the eight tables so |
| Crcs.UpdateByte | src/7z/C/7zCrc.h:16 | continues the bit-by-bit definition by one byte |
| Crcs.CrcUpdate | src/7z/C/7zCrc.c:21-27 | continues the bit-by-bit definition by any data |
| Crcs.CrcCalc | src/7z/C/7zCrc.c:29-32 | is the bit-by-bit CRC-32 of any data |
| Crcs.CheckValue | src/7z/C/7zCrc.c:5-32 | the checksum of "123456789" is 0xCBF43926, the check value of CRC-32 |

## Left out

- Sockets, polling, timers, threads and file handles, and with them IOError, `set_readonly` and `close` of the storage.
- Storage: reading and writing are modelled for requests inside the torrent and a torrent of at least one byte, which is what its callers ask for.
- The progress reports of the scan and of `makeinfo`, and stopping them by a flag.
- Rate measurement, snubbing times, upload rate limits and the scheduler; the choker gets arbitrary rates.
- The upload side of a connection: only its choked and interested flags, and the calls it gets.
- The Connecter's dispatch to uploads and downloads is a record of calls; `Session.dfy` makes the same calls on the downloader.
- Downloaders.SingleDownload.GotHaveBitfield: requires that the bit field is the peer's first message, which the Connecter enforces.
- PiecePickers.PiecePicker.LostHave: requires that the piece was counted before, which the downloader guarantees.
- Downloaders.Downloader.MakeDownload: requires fewer than 2^30 peers, because the picker's search starts from that number.
- Chokers.SlotBounds: requires `max_uploads >= 1`.
- Encoder: starting connections, spare addresses and keep-alive timers.
- Bencodings.DecodesCodes: number tokens are plain digits with an optional minus sign; blanks, plus signs and the like, which Python's `int` accepts, are errors in the model, and so is a minus sign in front of the length of a dictionary's key. Booleans and pre-encoded values are left out.
- Bencodings.NumberTexts: for tokens of plain digits, as above.
- Bencodings.StringTexts: for tokens of plain digits, as above.
- Metafiles.HashFiles: collecting and sorting the files of a directory.
- Getopts.Getopt.GetOpt: long options, `-W` with a semicolon, error messages, environment flags of the C library, and callers that move `optind` anywhere but to 0.
- Sorting.HeapSort: sorts the whole array, of fewer than 2^31 elements, so that doubling an index does not wrap around.
- CrcUpdateT8 is only declared in the repository; its body is not part of this model.
- The tracker, its web pages, the mirror code of urlgrabber, user interfaces, installers and drivers: nothing in them is as hard as the above.
