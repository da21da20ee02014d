# Verified models of the sxe and kit libraries

A Dafny 4.11 model of eight parts of a C toolkit for network services, with proofs of
what each of them promises. `dafny verify dfyconfig.toml` checks all of it.

| part | files | what is proved, in one line |
|---|---|---|
| `sxe-cdb`, an append-only key/value index with counters sorted as they change | `CdbRecord`, `CdbLog`, `CdbSizes`, `CdbIndex`, `CdbSlots`, `CdbCounts`, `CdbOrder`, `CdbWalk`, `CdbPositions`, `CdbRuns`, `CdbInstance`, `CdbUse`, `CdbSession` | every stored key is found with its exact bytes, and its UID resolves for ever, across sheet splits and growth; counters stay sorted and count exactly; a walk lists every key once, by how often it was counted |
| `sxe-list`, `sxe-pool` and their walkers | `SxeList`, `PoolState`, `PoolRuns`, `SxePool` | every element is on exactly one queue, oldest first; a walker misses none that stays while others move; where that fails is shown |
| `kit-counters` | `CounterSteps`, `CounterSlots`, `CounterReads`, `KitCounters`, `CounterNames` | over any interleaving no update is lost or counted twice, but for an exactly stated surplus while threads start and finish; preparing for so many threads lets just so many start |
| `sxe-jitson`, JSON on a flat stack of tokens | `SxeUnicode`, `JsonText`, `JsonLexemes`, `JsonGrammar`, `JsonPrint`, `JsonTight`, `JsonMeaning`, `JitsonTokens`, `JitsonRows`, `JitsonSource`, `JitsonStack`, `Jitson`, `JitsonPrinting` | the parser takes exactly the texts of a grammar and pushes exactly the tokens of what they mean; printing and parsing is a round trip; lazy indexes agree with linear search |
| `kit-sortedarray` | `SortedArray`, `SortedArrayStore` | the divide-and-conquer intersection visits what nested loops would |
| `sxe-md5` | `SxeMd5` | any cutting of a message into updates gives the digest of the whole, padded and counted as RFC 1321 says |
| `kit-base-encode` | `BaseBits`, `BaseSpec`, `BaseNumbers`, `BaseOutcomes`, `BaseEncode`, `BaseAlphabets` | one encoder and decoder for five alphabets is a round trip, with the lengths of RFC 4648; text is the bytes' number in another base, and how decoding ends is told by counting characters |
| `sxe-dict` and `kit_arc4random_uniform` | `SxeDict`, `KitArc4random` | the table is a map across resizes; rejection sampling is exactly even |

`Arithmetic`, `Bytes`, `CStrings` and `Sequences` hold what several parts share.

Each part has two layers. Where the C code updates fields, buffers and links in place, a
class has those fields and methods that take the same branches; their contracts tie the
new state to a function of the old one. What the code promises is then proved of those
functions on plain values: invariants that every step keeps, runs of any length, and
independent definitions (a map, a multiset, a grammar, a number, bits read one by one) that the fast form
agrees with. Linked structures are described locally, by what each node says of its
neighbours, and the lists, chains and walks are derived from that by lemmas.

## Properties that are false of the code

Each with an input on which it fails and, for all inputs, the exact condition under which it
holds.

* `sxe_cdb_instance_put_val` computes with 32-bit lengths and sizes, and its test for a 4 GB
  wrap is evaluated in 64 bits and never fires (`CdbSizes.WrapTestNeverFires`). A length, the
  size field or the used field can wrap (`CdbSizes.LengthWraps`, `CdbSizes.SizeWraps`,
  `CdbSizes.UsedWraps`). Memory and fields come out right if and only if the memory called for
  is less than 4 GB (`CdbSizes.RightIffFits`). `CdbInstance.Instance.PutVal` and all that call
  it say of every put whether they did; where they did not, the model stops.
* `sxe_cdb_instance_inc` tells counters from plain values by their length and first word. A
  plain value can read as a counter (`CdbUse.PlainTakenForCounter`); inc returns 0 for a key
  that is no counter if and only if its value is not twelve bytes or does not begin with the
  number of a count slot (`CdbInstance.Instance.CountNew`).
* `sxe_cdb_instance_walk_pos_is_bad` is to screen positions from anywhere, but adds in 32 bits.
  It accepts position 2^32 - 1, and bytes of a value that look like a header
  (`CdbPositions.LastPositionAccepted`, `CdbPositions.HeaderInValueAccepted`). What it accepts
  lies within the used bytes if and only if none of its three sums reaches 2^32
  (`CdbPositions.InsideIffNoWrap`), and names a count slot unless it names the one behind the
  last (`CdbPositions.SlotUnlessLast`). A plain record is accepted with any slot, and a link is
  then read that is not there (`CdbPositions.PlainRecordAccepted`); what is accepted holds a
  link to the slot if and only if nothing wraps and its value is twelve bytes long
  (`CdbPositions.HoldsLinkIff`).
* Printing an object puts members of one name in reverse, so that with any hash function
  `{"a":1,"a":2}` is printed as `{"a":2,"a":1}` (`JsonMeaning.RepeatedNameComesBackFirst`).
  Parsing what was printed gives an equal value if and only if, in every object that counts,
  first and last members match and no name holds a zero byte (`JsonMeaning.RoundTrip`).
* A member's name ends for the program at its first zero byte: it is printed cut short
  (`JsonMeaning.NulNameIsLost`), and its member cannot be got by its name
  (`Jitson.NulNameNotSeen`). Its size is that of its tokens if and only if no token begins
  behind that byte (`JitsonTokens.KeySizeIsWidth`); `JitsonTokens.NulNameIsCutShort` is a name
  for which it is not.
* Adding to a dictionary that has to grow passes a 32-bit product on as an `int`. It fails, by
  dividing by zero or for want of memory, if and only if that product is 0 or at least 2^31
  (`SxeDict.Dict.AddEntry`, `SxeDict.AddTwice`, `SxeDict.BadGrowth`). A string key added with a
  length is found again, and stays in its bucket when the table grows, if and only if it ends
  at that length (`SxeDict.StringKeyIff`, `SxeDict.ShortStringNotFound`).
* `kit_sortedarray_add_elem` does not notice that the search for a place failed, and writes at
  slot ~0U (`SortedArrayStore.InsertStrays`). Adding comes out right if and only if no failing
  comparison takes an element in order for one out of order, or is on the path of its search
  (`SortedArrayStore.Store.AddElem`).
* A base decoder that skips whitespace gives back one character when the last digit is worth
  nothing, which is that digit if and only if no whitespace was skipped behind it
  (`BaseSpec.GivesBackDigit`, `BaseEncode.SpaceIsGivenBack`).
* A pool walker does not notice that the element it stands at was touched, and may then
  end early; the source has a TODO there. `PoolState.StepFindsFirstAfter` says exactly
  when a step is right, and `PoolRuns.TouchedWalkMissesOne` is a walk that misses an
  element.
* The total of a counter is too high while a thread is between handing its counts to the
  dead threads' counters and letting go of its slot, or between claiming a dynamic slot and
  clearing it: `CounterSteps.FinishingThreadCountsTwice` and
  `CounterSteps.StartingThreadCountsLeftovers`; `CounterSteps.TotalIsNet` gives the surplus. As
  it is read cell by cell, it may also be a number that the total never was
  (`CounterReads.ReadSeesNoTotal`); while threads only add it is between the totals at the
  start and the end of reading (`CounterReads.ReadIsBetween`).
* The comments on sizes in `lib-sxe-cdb/sxe-cdb-private.h:50-54` are out of date; the
  model uses the sizes that its lines 146-158 work out to, and 18 bytes for a packed count node.

## Model

| member | source | states |
|---|---|---|
| `CdbCounts.PushKeyKeeps` | lib-sxe-cdb/sxe-cdb.c:772-783 | putting a key at the head of a node's chain keeps every list ascending and every chain linked, and changes the tally of that key only |
| `CdbCounts.NewNodeKeeps` | lib-sxe-cdb/sxe-cdb.c:857-868 | linking a fresh node between two neighbours whose counts leave room keeps all lists and chains, and gives its one key the new count |
| `CdbCounts.BumpKeeps` | lib-sxe-cdb/sxe-cdb.c:810-818 | raising a lone key's node in place keeps the list strictly ascending and adds exactly one to that key |
| `CdbCounts.UnlinkKeyKeeps` | lib-sxe-cdb/sxe-cdb.c:826-840 | taking a key out of a chain that has others keeps all lists and chains and forgets that key only |
| `CdbCounts.DropNodeKeeps` | lib-sxe-cdb/sxe-cdb.c:842-853 | taking out a node with its only key keeps all lists and chains and forgets that key only |
| `CdbCounts.RoomAfterUnlink` | lib-sxe-cdb/sxe-cdb.c:870-897 | above the node a key left behind, either the next node has exactly the next count, or there is room for one that has |
| `CdbCounts.NextAfterDrop` | lib-sxe-cdb/sxe-cdb.c:842-853 | a node that is emptied always has a successor, with exactly the next count: the branch marked impossible at line 849 is never reached |
| `CdbCounts.LowEnd` | lib-sxe-cdb/sxe-cdb.c:738-784 | the low end of a list tells whether a new key finds a node with count 1 or room for one |
| `CdbOrder.NodesComplete` | lib-sxe-cdb/sxe-cdb.c:704-711 | from counts_lo to counts_hi a list is strictly ascending and holds exactly the live nodes of that list, once each |
| `CdbOrder.CountNamesNode` | lib-sxe-cdb/sxe-cdb-private.h:134-139 | counts are unique within a list |
| `CdbOrder.ChainIsCount` | lib-sxe-cdb/sxe-cdb-private.h:134-145 | the chain of a node holds, once each and newest first, exactly the keys of its list with its count |
| `CdbWalk.StartSeesAll` | lib-sxe-cdb/sxe-cdb.c:968-977 | a walk, in either direction, starts with every key of the list ahead of it |
| `CdbWalk.StepTakesOne` | lib-sxe-cdb/sxe-cdb.c:979-1007 | one call takes exactly the key at its position off what is ahead and leaves a position from which to go on |
| `CdbWalk.WalkVisitsEachKeyOnce` | lib-sxe-cdb/sxe-cdb.c:958-1014 | a whole walk visits every key of its list exactly once, in the order of counts for its direction, newest first within a count |
| `CdbRecord.Header` | lib-sxe-cdb/sxe-cdb.c:358-365 | the header is as long as the class chosen for the key and value lengths |
| `CdbRecord.HeaderLenIs` | lib-sxe-cdb/sxe-cdb.c:358-365 | a record gets a header if and only if its key has 1 to 2^24 - 1 bytes and its value less than 2^32, and then the shortest of 1, 3, 5 and 8 bytes whose fields hold both lengths |
| `CdbRecord.HeaderIsNumber` | lib-sxe-cdb/sxe-cdb-private.h:73-124 | where the lengths are in each of the four layouts, bit by bit: the header as one number, low byte first |
| `CdbRecord.UnpackFindsRecord` | lib-sxe-cdb/sxe-cdb.c:477-497 | unpacking finds the key and value of whatever record was packed: no header is taken for one of another layout |
| `CdbRecord.PackedComesBack` | lib-sxe-cdb/sxe-cdb.c:477-497 | every key of 1 to 2^24 - 1 bytes and every value of less than 2^32 can be stored and is unpacked again |
| `CdbRecord.RecordIsUnique` | lib-sxe-cdb/sxe-cdb.c:429-457 | a position determines its record: no record's bytes begin another's |
| `CdbLog.AppendKeeps` | lib-sxe-cdb/sxe-cdb.c:423-459 | appending a record behind the used bytes keeps the log a concatenation of records |
| `CdbLog.StoreKeeps` | lib-sxe-cdb/sxe-cdb.c:826-836 | overwriting a value in place by one of the same length changes that record and no other |
| `CdbLog.StoreLinkKeeps` | lib-sxe-cdb/sxe-cdb.c:743-751 | storing a chain link in a counter's value keeps the log, the keys and all other records and links |
| `CdbLog.LinkRoundTrip` | lib-sxe-cdb/sxe-cdb-private.h:141-145 | a link is read back from its twelve bytes |
| `CdbLog.LinkIsNumber` | lib-sxe-cdb/sxe-cdb-private.h:141-145 | the slot, the key behind and the key before are the three 32-bit words of a link, low byte first |
| `CdbLog.WholeLogIsRecords` | lib-sxe-cdb/sxe-cdb.c:402-461 | kvdata[1..kvdata_used) is the concatenation of all appended records, in order, and every record is one of them |
| `CdbLog.GrownSizeFits` | lib-sxe-cdb/sxe-cdb.c:406-421 | the grown memory holds the record that called for it |
| `CdbLog.GrownSizeIs` | lib-sxe-cdb/sxe-cdb.c:406-421 | memory grows, by whole pages, only if the record does not fit, and by between one and two pages more than the record |
| `CdbSizes.WrapTestNeverFires` | lib-sxe-cdb/sxe-cdb.c:411-415 | the early out that is to avoid a 4 GB wrap is not taken, whatever the sizes and lengths |
| `CdbSizes.RightIffFits` | lib-sxe-cdb/sxe-cdb.c:402-421 | with lengths summed in 32 bits, growth computed in 64 and fields of 32, the record lies in the mapped memory and both fields come out right if and only if the memory it calls for is less than 4 GB |
| `CdbSizes.SizesThatFit` | lib-sxe-cdb/sxe-cdb.c:404-421 | below 4 GB the sizes are the true ones, with room for the record, in whole pages |
| `CdbSizes.LengthWraps` | lib-sxe-cdb/sxe-cdb.c:404-406 | a failing input: with a value of 2^32 - 1 bytes the sum of the lengths wraps to 8, the memory is not grown and the record runs 4 GB past it |
| `CdbSizes.SizeWraps` | lib-sxe-cdb/sxe-cdb.c:411-421 | a failing input: near 4 GB the size field wraps to less than what is used |
| `CdbSizes.UsedWraps` | lib-sxe-cdb/sxe-cdb.c:411-459 | a failing input: both fields wrap and look right, and the next record would be written over the first ones |
| `CdbSlots.TotalsAddUp` | lib-sxe-cdb/sxe-cdb.c:675-702 | once a page is mapped, used plus free count slots are all slots but slot 0 |
| `CdbSlots.CapacityGrows` | lib-sxe-cdb/sxe-cdb.c:680-693 | every page adds 227 or 228 slots |
| `CdbSlots.CapacityIsMost` | lib-sxe-cdb/sxe-cdb.c:680-693 | as many slots of 18 bytes as fit in the pages, and no more |
| `CdbSlots.ReleaseKeeps` | lib-sxe-cdb/sxe-cdb.c:659-673 | pushing a slot that is not free puts it in front of a free list that is otherwise the same, whatever the stale tail holds |
| `CdbSlots.TakeKeeps` | lib-sxe-cdb/sxe-cdb.c:694-699 | popping leaves the rest of the free list, still as long as counts_free says |
| `CdbSlots.DropKeeps` | lib-sxe-cdb/sxe-cdb.c:845-846 | a released live slot is free and no longer live, and no other changes |
| `CdbIndex.Prepared` | lib-sxe-cdb/sxe-cdb.c:83-105 | the two row hashes of a prepared key differ, whatever the hash function gave; they and the rest of the hash stay what they are if they differed before |
| `CdbIndex.HitIsHome` | lib-sxe-cdb/sxe-cdb.c:499-520 | in the sheet of a key exactly its home cell matches on both hash parts and on the key bytes |
| `CdbIndex.NoHitNoKey` | lib-sxe-cdb/sxe-cdb.c:564-567 | a key that matches in neither of its rows is not stored |
| `CdbIndex.PutKeeps` | lib-sxe-cdb/sxe-cdb.c:423-425 | filling a free cell of one of the key's rows stores the key and disturbs no other |
| `CdbIndex.SplitKeeps` | lib-sxe-cdb/sxe-cdb.c:272-341 | splitting a sheet leaves every key in the sheet that sheets_index names for it, in the same row and cell |
| `CdbIndex.SplitHalves` | lib-sxe-cdb/sxe-cdb.c:294-305 | of the sheet indexes that named the full sheet the first, third and so on still name it, and half of them, rounded down, the added one |
| `CdbRuns.UidRoundTrip` | lib-sxe-cdb/sxe-cdb-private.h:126-132 | the instance and the place of a record can be read back from the number that is its UID, from its lowest 8, next 16, 12 and 4 bits |
| `CdbRuns.LaterIsTransitive` | lib-sxe-cdb/sxe-cdb.h:103-108 | what every operation keeps - keys in their cells, records at their positions, plain values - is kept over any number of operations |
| `CdbRuns.RunIsLater` | lib-sxe-cdb/sxe-cdb.h:103-108 | any two moments of a run are so related |
| `CdbRuns.UidResolvesForEver` | lib-sxe-cdb/sxe-cdb.h:103-108 | a UID, also read back from its number in any instance of an ensemble, resolves to the record of its key at every later moment of any run, across sheet splits and storage growth, with the same key bytes and, unless it is a counter, the same value |
| `CdbRuns.CountersCount` | lib-sxe-cdb/sxe-cdb.c:704-711 | at every moment of any run of puts and increments, failed ones included, over any lists, exactly the keys that were counters or were incremented with success are counters, each ahead of where it began by the times it was |
| `CdbRuns.CountReturned` | lib-sxe-cdb/sxe-cdb.c:710-906 | in any such run a successful increment returns the number of times its key has been counted by then |
| `CdbRuns.HistoryIsRun` | lib-sxe-cdb/sxe-cdb.h:103-108 | such a run keeps what UIDs rely on |
| `CdbInstance.Instance.constructor` | lib-sxe-cdb/sxe-cdb.c:107-158 | a new instance is empty and valid, with sheet indexes that name its sheets in turn |
| `CdbInstance.Instance.InTurn` | lib-sxe-cdb/sxe-cdb.c:123-127 | sheet index i names sheet i modulo the number of sheets |
| `CdbInstance.Instance.ScanRow` | lib-sxe-cdb/sxe-cdb.c:380-383 | the number of used cells of a row and its first free cell |
| `CdbInstance.UsedAreSo` | lib-sxe-cdb/sxe-cdb.c:380-383 | that number is the size of the set of used cells |
| `CdbInstance.Instance.SplitSheet` | lib-sxe-cdb/sxe-cdb.c:272-341 | adds one sheet, splits the sheet indexes and the cells of the full sheet between both, and keeps every key |
| `CdbInstance.Instance.SplitIndex` | lib-sxe-cdb/sxe-cdb.c:294-305 | every second index that named the full sheet names the added one, the others are unchanged |
| `CdbInstance.Instance.SplitRow` | lib-sxe-cdb/sxe-cdb.c:312-332 | each used cell whose index now names the added sheet moves to the same row and cell of it, all others stay |
| `CdbInstance.Instance.FindRoom` | lib-sxe-cdb/sxe-cdb.c:367-400 | terminates with the first free cell of the less used of the key's rows, the second if they are used alike, or with all 8192 sheets there and both rows full; splits only while both are full |
| `CdbInstance.Instance.FillCell` | lib-sxe-cdb/sxe-cdb.c:423-425 | stores the key in a free cell of its rows and no other key moves |
| `CdbInstance.Instance.PutVal` | lib-sxe-cdb/sxe-cdb.c:343-474 | a new key gets the record at the old end of the log and a UID that names its cell, in the less used of its rows unless both were full; it is refused for its length if and only if its key is empty or has 2^24 bytes or more, or its value 2^32; a refusal changes no key and no byte; the sizes come out wrong, unnoticed, only where 4 GB do not do |
| `CdbInstance.Instance.PutRecord` | lib-sxe-cdb/sxe-cdb.c:402-461 | writes the record of a new key and enters it in the free cell, or changes nothing exactly where 4 GB do not do |
| `CdbInstance.Instance.AppendRecord` | lib-sxe-cdb/sxe-cdb.c:402-461 | grows the memory by whole pages if need be and writes the record behind the used bytes, which do not change; not ok exactly where 4 GB do not do |
| `CdbInstance.Instance.CellHolds` | lib-sxe-cdb/sxe-cdb.c:499-520 | whether a cell matches a query, by comparing the bytes of its record |
| `CdbInstance.Instance.FindCell` | lib-sxe-cdb/sxe-cdb.c:564-567 | finds the cell of a key if and only if it is stored |
| `CdbInstance.Instance.GetHkvRaw` | lib-sxe-cdb/sxe-cdb.c:546-572 | the position of the record of a stored key, whose key bytes are the key, and none for any other |
| `CdbInstance.Instance.GetUid` | lib-sxe-cdb/sxe-cdb.c:574-604 | the UID of a stored key, equal to the number that storing it gave, and UID_NONE for any other |
| `CdbInstance.Instance.GetUidHkvRaw` | lib-sxe-cdb/sxe-cdb.c:606-623 | the number made of the UID of a key gives the position of the record of that key |
| `CdbInstance.Instance.FreePush` | lib-sxe-cdb/sxe-cdb.c:659-673 | the slots from..to join the free list and nothing else changes |
| `CdbInstance.Instance.AddPage` | lib-sxe-cdb/sxe-cdb.c:680-693 | a new page of slots is free and live slots do not change |
| `CdbInstance.Instance.FreePop` | lib-sxe-cdb/sxe-cdb.c:675-702 | hands out a slot that is neither 0 nor live, adding a page when none is free |
| `CdbInstance.Instance.LoadLink` | lib-sxe-cdb/sxe-cdb.c:788-797 | the link of a counter key read out of the log |
| `CdbInstance.Instance.StoreLink` | lib-sxe-cdb/sxe-cdb.c:744-746 | writes a link into the log and changes no other record |
| `CdbInstance.Instance.JoinNode` | lib-sxe-cdb/sxe-cdb.c:871-883 | the key gets the count of an existing node and all other tallies stay |
| `CdbInstance.Instance.InsertNode` | lib-sxe-cdb/sxe-cdb.c:884-897 | the key gets a count that no node had, in a fresh node between its neighbours, and all other tallies stay |
| `CdbInstance.Instance.LeaveNode` | lib-sxe-cdb/sxe-cdb.c:824-853 | the key is taken out of its chain, and its node out of the list if it was alone; all other tallies stay |
| `CdbInstance.Instance.ReleaseNode` | lib-sxe-cdb/sxe-cdb.c:845-852 | an emptied node leaves its list and its slot is free again |
| `CdbInstance.Instance.RaiseNode` | lib-sxe-cdb/sxe-cdb.c:810-818 | the lone key of a node gains one in place |
| `CdbInstance.Instance.MoveUp` | lib-sxe-cdb/sxe-cdb.c:820-898 | the key gains exactly one, whichever branch is taken, and all other tallies stay |
| `CdbInstance.Instance.Climb` | lib-sxe-cdb/sxe-cdb.c:805-898 | returns the old count plus one, which is the key's new count, and all other tallies stay |
| `CdbInstance.Instance.Enter` | lib-sxe-cdb/sxe-cdb.c:736-784 | a new key gets count 1 in its list, whichever branch is taken, and all other tallies stay |
| `CdbInstance.Instance.PutCounter` | lib-sxe-cdb/sxe-cdb.c:731-737 | stores a counter key, failing only when it is refused, there is no room, or 4 GB do not do |
| `CdbInstance.Instance.CountNew` | lib-sxe-cdb/sxe-cdb.c:786-806 | for every stored key, inc takes an early out with 0 if and only if the value is not twelve bytes or does not begin with the number of a count slot; for a counter it goes on with the old count plus one |
| `CdbInstance.Instance.Put` | lib-sxe-cdb/sxe-cdb.c:343-474 | storing a plain key adds its record, gives its UID as a number and touches no counter, or changes nothing; it fails only when refused, without room, or where 4 GB do not do |
| `CdbInstance.Instance.Inc` | lib-sxe-cdb/sxe-cdb.c:710-906 | returns the old count plus one of that key, or 0 with nothing at all changed for a stored key that is no counter, or 0 with all counts unchanged for a key that cannot be stored; every other key keeps its tally |
| `CdbInstance.Instance.WalkPosIsBad` | lib-sxe-cdb/sxe-cdb.c:908-956 | for any position whatever, the verdict that sums of 32 bits give; never bad for a counter key and its count |
| `CdbPositions.InsideIffNoWrap` | lib-sxe-cdb/sxe-cdb.c:925-941 | header and record at an accepted position lie within the used bytes if and only if none of the three sums reaches 2^32 |
| `CdbPositions.BadIfNotInside` | lib-sxe-cdb/sxe-cdb.c:908-956 | a position at which no sum wraps is bad if and only if its slot lies beyond the one behind the last, its record is not within the used bytes, or it has a value as long as a link that names another slot |
| `CdbPositions.SlotUnlessLast` | lib-sxe-cdb/sxe-cdb.c:920-923 | an accepted position names a count slot unless it names the one behind the last |
| `CdbPositions.HoldsLinkIff` | lib-sxe-cdb/sxe-cdb.c:925-949 | an accepted position is that of a record within the used bytes whose value is a link to the given slot if and only if none of the three sums reaches 2^32 and the value is twelve bytes long |
| `CdbPositions.PlainRecordAccepted` | lib-sxe-cdb/sxe-cdb.c:943-949 | a failing input: in an instance with one plain record without a value, that record is accepted with any count slot, and the link that walk reads is all behind the used bytes |
| `CdbPositions.LastPositionAccepted` | lib-sxe-cdb/sxe-cdb.c:925-930 | a failing input: position 2^32 - 1 is accepted, as its successor wraps to 0 |
| `CdbPositions.HeaderInValueAccepted` | lib-sxe-cdb/sxe-cdb.c:936-941 | a failing input: in an instance with one record, whose value looks like a header, a record of 4 GB is accepted within eleven used bytes |
| `CdbPositions.RealIsGood` | lib-sxe-cdb/sxe-cdb.c:908-956 | the record of a counter key is accepted with its count, its link is read, and it lies within the used bytes |
| `CdbInstance.Instance.Walk` | lib-sxe-cdb/sxe-cdb.c:958-1014 | from the start, and from every position of a walk, visits the key there with its true count and moves on as the pure walk does; from any other position visits what the screening lets through |
| `CdbUse.OneMore` | lib-sxe-cdb/sxe-cdb.c:710-906 | a successful increment of the next key of a row makes the counters those of one key more; a failed one changes no counter and its key is not stored |
| `CdbUse.CountNext` | lib-sxe-cdb/sxe-cdb.c:710-906 | counts the next key, unless sizes that reach 4 GB, a refusal of its length or full rows prevent it |
| `CdbUse.PlainTakenForCounter` | lib-sxe-cdb/sxe-cdb.c:786-806 | a failing input: from a new instance, a plain key that reads as a counter once another key is counted, so that incrementing it would return a count |
| `CdbUse.CountAll` | lib-sxe-cdb/sxe-cdb.c:704-711 | counting keys as they come leaves exactly those keys as counters, each with the number of times it came |
| `CdbUse.KeyAt` | lib-sxe-cdb/sxe-cdb.c:57-73 | the key bytes of the record at a position |
| `CdbUse.WalkOn` | lib-sxe-cdb/sxe-cdb.c:958-1014 | one call visits the first of what is still to be visited, with its true count, and leaves the rest |
| `CdbUse.WalkAll` | lib-sxe-cdb/sxe-cdb.c:958-1014 | calling walk until it is back at the start visits what the pure walk visits, with true counts |
| `CdbUse.VisitedInOrder` | lib-sxe-cdb/sxe-cdb.c:958-1014 | what was visited is every counter of the list, each once, in the order of counts |
| `CdbUse.Rank` | lib-sxe-cdb/sxe-cdb.c:704-711 | from a new instance to the end of a walk: all keys that were counted are listed once each, by how often they came, with exactly that number |
| `CdbSession.Session.constructor` | lib-sxe-cdb/sxe-cdb.c:107-158 | a session begins with a new, empty instance and no events |
| `CdbSession.Session.Put` | lib-sxe-cdb/sxe-cdb.c:343-474 | putting a plain key adds one event to the session, done or failed, and gives the UID of the key as a number |
| `CdbSession.Session.Inc` | lib-sxe-cdb/sxe-cdb.c:710-906 | an increment that succeeds returns how often its key has been counted in the session |
| `CdbSession.Session.Record` | lib-sxe-cdb/sxe-cdb.h:103-108 | after any puts and increments, the UID that any key had at any moment of the session leads to the record it had then, with the same key and, unless it is a counter, the same value |
| `SxeList.InsertKeeps` | lib-sxe-list/sxe-list.c:60-92 | linking in an element that is on no list keeps all lists doubly linked rings through their sentinels |
| `SxeList.RemoveKeeps` | lib-sxe-list/sxe-list.c:98-120 | unlinking an element keeps all lists so and leaves it on none |
| `SxeList.Lists.constructor` | lib-sxe-list/sxe-list.c:44-54 | all lists are empty |
| `SxeList.Lists.Push` | lib-sxe-list/sxe-list.c:60-73 | the element is the new tail of its list, and no other list changes |
| `SxeList.Lists.Unshift` | lib-sxe-list/sxe-list.c:79-92 | the element is the new head of its list, and no other list changes |
| `SxeList.Lists.Remove` | lib-sxe-list/sxe-list.c:98-120 | the element is taken out, the order of the others stays, and it is on no list |
| `SxeList.Lists.Pop` | lib-sxe-list/sxe-list.c:126-145 | takes the tail off, or nothing from an empty list |
| `SxeList.Lists.Shift` | lib-sxe-list/sxe-list.c:151-170 | takes the head off, or nothing from an empty list |
| `SxeList.Lists.PeekHead` | lib-sxe-list/sxe-list.c:176-203 | the head, or NULL for an empty list |
| `SxeList.Lists.PeekTail` | lib-sxe-list/sxe-list.c:209-236 | the tail, or NULL for an empty list |
| `SxePool.ListWalker.Construct` | lib-sxe-list/sxe-list-walker.c:33-40 | the walker stands before the first element |
| `SxePool.ListWalker.Back` | lib-sxe-list/sxe-list-walker.c:50-64 | goes back to the node before, once |
| `SxePool.ListWalker.Find` | lib-sxe-list/sxe-list-walker.c:73-85 | the node the walker stands at, or NULL at the sentinel |
| `SxePool.ListWalker.Step` | lib-sxe-list/sxe-list-walker.c:95-109 | goes to the next place of the list, the sentinel following the last |
| `PoolState.MovedKeeps` | lib-sxe-pool/sxe-pool.c:386-423 | a move keeps every element on exactly the queue of its state, move counts strictly increasing from head to tail, and queue lengths summing to the number of elements |
| `PoolState.MovedIs` | lib-sxe-pool/sxe-pool.c:404-416 | what a move changes: the state and count of the element, the queue it leaves, in which the order of the others stays, and the tail of the one it joins |
| `PoolState.OnOneQueue` | lib-sxe-pool/sxe-pool.c:81-92 | an element is on the queue its node names, at one place there, and on no other queue |
| `PoolState.HeadIsOldest` | lib-sxe-pool/sxe-pool.c:581-608 | the head of a queue has the least move count of its state; the queue is empty if and only if no element is in the state |
| `SxePool.Pool.constructor` | lib-sxe-pool/sxe-pool.c:124-192 | all elements are in state 0, the last one oldest |
| `SxePool.Pool.SetStateUnlocked` | lib-sxe-pool/sxe-pool.c:386-423 | moves the element to the tail of the new queue under the next count if it is in the old state, and otherwise changes nothing |
| `SxePool.Pool.SetState` | lib-sxe-pool/sxe-pool.c:429-454 | moves an element whose state the caller knows |
| `SxePool.Pool.TryToSetState` | lib-sxe-pool/sxe-pool.c:469-503 | the same, and tells the state the element is in afterwards |
| `SxePool.Pool.SetOldestState` | lib-sxe-pool/sxe-pool.c:511-546 | moves exactly the oldest element of the state, or nothing if the state is empty |
| `SxePool.Pool.Touch` | lib-sxe-pool/sxe-pool.c:552-575 | moves the element to the tail of its own queue |
| `SxePool.Pool.OldestIndex` | lib-sxe-pool/sxe-pool.c:581-608 | the element of the state with the least count, none if and only if there is none |
| `SxePool.Pool.OldestCount` | lib-sxe-pool/sxe-pool.c:616-642 | the least count of the state, or 0 |
| `SxePool.Pool.NumberInState` | lib-sxe-pool/sxe-pool.c:68-78 | the number of elements in a state |
| `SxePool.InStateCount` | lib-sxe-pool/sxe-pool.c:68-78 | the length of a queue is the number of elements in its state |
| `SxePool.PoolWalker.constructor` | lib-sxe-pool/sxe-pool-walker.c:34-53 | the walker stands before the first element with count 0 |
| `SxePool.PoolWalker.StepOn` | lib-sxe-pool/sxe-pool-walker.c:113-115 | goes to the successor of the walker's node |
| `SxePool.PoolWalker.Recover` | lib-sxe-pool/sxe-pool-walker.c:84-112 | goes on from the node before when that is still in the state, and else from the first node that moved no earlier |
| `SxePool.PoolWalker.Rewalk` | lib-sxe-pool/sxe-pool-walker.c:97-111 | finds the first element whose count is at least the walker's last count |
| `SxePool.PoolWalker.Step` | lib-sxe-pool/sxe-pool-walker.c:67-135 | does exactly what the pure walker does: its node, its fallback, its last count and its result |
| `PoolState.StepFindsFirstAfter` | lib-sxe-pool/sxe-pool-walker.c:55-65 | a step finds the first element that moved after the last one, if and only if the node it steps from was not itself moved within the state |
| `PoolState.StepFromSentinel` | lib-sxe-pool/sxe-pool-walker.c:113-115 | from the sentinel a step goes to the head of the queue |
| `PoolRuns.MoveKeepsWalker` | lib-sxe-pool/sxe-pool-walker.c:62-65 | moving any element, even the one a walker stands at, keeps what is known of the walker |
| `PoolRuns.StepKeepsWalker` | lib-sxe-pool/sxe-pool-walker.c:67-135 | so does a step |
| `PoolRuns.RunKeeps` | lib-sxe-pool/sxe-pool-walker.c:66-135 | every reachable moment of a walk keeps its invariant |
| `PoolRuns.WalkMissesNone` | lib-sxe-pool/sxe-pool-walker.c:66-135 | with any moves between steps, none of them back into the walked state, a walk returns distinct elements in strictly increasing move count and misses none that stayed |
| `PoolRuns.ReturnedIsInState` | lib-sxe-pool/sxe-pool-walker.c:117-128 | each element is in the walked state when it is returned |
| `PoolRuns.TouchedWalkMissesOne` | lib-sxe-pool/sxe-pool-walker.c:83-92 | touching the element a walker stands at makes the walk end early: a concrete walk misses an element that was there all the time (the TODO in the source) |
| `CounterSteps.StepConserves` | lib-kit-alloc/kit-counters.c:302-531 | every atomic step changes the count without what is counted twice by exactly what the step adds, modulo 2^64 |
| `CounterSteps.RunConserves` | lib-kit-alloc/kit-counters.c:302-531 | so does any interleaving of steps |
| `CounterSteps.TotalIsNet` | lib-kit-alloc/kit-counters.c:366-407 | at every moment the total is the net sum plus what threads hold that are in the middle of starting or finishing; it is the net sum if and only if that surplus is 0 modulo 2^64 |
| `CounterSteps.QuietTotalIsNet` | lib-kit-alloc/kit-counters.c:366-407 | while no thread is in the middle of starting or finishing the total is exactly the net sum modulo 2^64 |
| `CounterSteps.SlotsHaveOneOwner` | lib-kit-alloc/kit-counters.c:333-340 | in no reachable state do two threads have the same slot |
| `CounterSteps.FinishingThreadCountsTwice` | lib-kit-alloc/kit-counters.c:343-353 | a concrete run in which a reader sees a finishing thread's count twice |
| `CounterSteps.StartingThreadCountsLeftovers` | lib-kit-alloc/kit-counters.c:444-464 | a concrete run in which a reader sees what was left in the slot of a starting thread |
| `CounterReads.ReadIsBetween` | lib-kit-alloc/kit-counters.c:384-394 | a total that is read cell by cell while threads go on adding, without a wrap and with none that starts or finishes, is between the totals when reading begins and when it ends |
| `CounterReads.ReadSeesNoTotal` | lib-kit-alloc/kit-counters.c:384-394 | a concrete run with a decrement in which what is read was the total at no moment |
| `CounterSteps.FirstDynamic` | lib-kit-alloc/kit-counters.c:452-456 | the first slot that is ready for a dynamic thread |
| `CounterSlots.GoneBecomeReady` | lib-kit-alloc/kit-counters.c:478-482 | of the slots that are gone as many as asked for, or else all, become ready, the first ones first, counted as flags |
| `CounterSlots.PreparedAreReady` | lib-kit-alloc/kit-counters.c:467-520 | preparing makes exactly as many more slots ready as were asked for, and adds only those that are missing |
| `CounterSlots.StartTakesOne` | lib-kit-alloc/kit-counters.c:444-464 | a thread that starts takes one ready slot |
| `CounterSlots.StartsIffReady` | lib-kit-alloc/kit-counters.c:444-464 | dynamic threads can be started one after the other if and only if as many slots are ready |
| `CounterSlots.FinishFreesOne` | lib-kit-alloc/kit-counters.c:523-531 | a dynamic thread that finishes leaves a slot that is gone, and as many ready as there were |
| `KitCounters.Counters.constructor` | lib-kit-alloc/kit-counters.c:245-287 | all counters are 0, all slots static, the first one taken by the calling thread |
| `KitCounters.Counters.Add` | lib-kit-alloc/kit-counters.c:410-423 | adds to the thread's own counters if it has any and else to the shared ones; a counter out of range changes nothing |
| `KitCounters.Counters.Incr` | lib-kit-alloc/kit-counters.c:206-219 | the same as adding 1 |
| `KitCounters.Counters.Decr` | lib-kit-alloc/kit-counters.c:222-235 | the same as adding 2^64 - 1 |
| `KitCounters.Counters.Combine` | lib-kit-alloc/kit-counters.c:302-329 | adds to every counter the total of all slots in use, the dead and the shared counters, or just one slot's, as they stand at one instant |
| `KitCounters.Counters.GetData` | lib-kit-alloc/kit-counters.c:366-407 | the total, the shared count or one slot's count at one instant; 0 for a counter out of range |
| `KitCounters.Counters.InitThread` | lib-kit-alloc/kit-counters.c:333-340 | takes the static slot, and nothing else changes |
| `KitCounters.Counters.FiniThread` | lib-kit-alloc/kit-counters.c:343-353 | hands the counts to the dead counters, then clears the slot and lets go of it: the two atomic steps in this order, and their effect on every field |
| `KitCounters.Counters.InitDynamicThread` | lib-kit-alloc/kit-counters.c:444-464 | claims the first slot that is ready, then clears it: the two atomic steps, and their effect on every field; one slot less is ready |
| `KitCounters.Counters.FiniDynamicThread` | lib-kit-alloc/kit-counters.c:523-531 | hands the counts to the dead counters, then lets go of the slot, which is gone until it is prepared again: the two atomic steps, and their effect on every field |
| `KitCounters.Counters.ReuseGone` | lib-kit-alloc/kit-counters.c:478-482 | as many of the slots that are gone as asked for, or else all, become ready, the first ones first, and it tells how many |
| `KitCounters.Counters.PrepareDynamicThreads` | lib-kit-alloc/kit-counters.c:467-520 | exactly as many slots as asked for become ready, counted as flags: those that are gone first, then new ones; no other flag changes |
| `CounterNames.LeTotal` | lib-kit-alloc/kit-counters.c:82-93 | the order of names is total |
| `CounterNames.LeTransitive` | lib-kit-alloc/kit-counters.c:82-93 | and transitive |
| `CounterNames.LeIsAlphabetical` | lib-kit-alloc/kit-counters.c:82-93 | names are ordered by the first place where they differ, and a name comes before those it is the beginning of |
| `CounterNames.InsertKeeps` | lib-kit-alloc/kit-counters.c:82-93 | putting a new counter in at its place keeps the index complete, without repetition, and in the order of names |
| `CounterNames.Registry.constructor` | lib-kit-alloc/kit-counters.c:60-66 | no counter is registered |
| `CounterNames.Registry.AddCounter` | lib-kit-alloc/kit-counters.c:99-117 | the counter gets the next number, and the index lists all counters by name, those of one name by age |
| `CounterNames.Registry.AddToSortedIndex` | lib-kit-alloc/kit-counters.c:82-93 | the counter goes behind all whose names are not greater and the later ones move up by one |
| `SxeUnicode.Utf8RoundTrip` | lib-sxe-jitson/sxe-unicode.c:34-67 | every code point up to 0x10FFFF, surrogates included, is read back from its octets, which are as few as the table of section 3 of RFC 3629 gives for its size |
| `SxeUnicode.UnicodeToUtf8` | lib-sxe-jitson/sxe-unicode.c:34-67 | writes those octets and their number, and none for what is no code point |
| `JitsonSource.Source.constructor` | lib-sxe-jitson/sxe-jitson-source.c:47-76 | the source stands at the start of its text |
| `JitsonSource.Source.GetChar` | lib-sxe-jitson/sxe-jitson-source.c:101-111 | the next character, or 0 at the end |
| `JitsonSource.Source.PeekNonspace` | lib-sxe-jitson/sxe-jitson-source.c:115-126 | skips whitespace and shows what comes after it |
| `JitsonSource.Source.GetNonspace` | lib-sxe-jitson/sxe-jitson-source.c:130-139 | skips whitespace and takes what comes after it |
| `JitsonSource.Source.GetIdentifier` | lib-sxe-jitson/sxe-jitson-source.c:202-209 | takes the longest row of identifier characters |
| `JitsonSource.Source.GetNumber` | lib-sxe-jitson/sxe-jitson-source.c:220-284 | takes a number as section 6 of RFC 8259 has it, leading zeros allowed, and tells whether it is an unsigned integer |
| `JsonLexemes.StringOutcome` | lib-sxe-jitson/sxe-jitson-stack.c:263-341 | behind pieces of a string of all forms, mixed as they may be - plain characters, the eight escapes of section 7 of RFC 8259, codes with digits of either case - a quote ends the string, which is what the pieces mean; the end of the text is an error, and so is a backslash with anything else behind it |
| `JsonLexemes.StringCases` | lib-sxe-jitson/sxe-jitson-stack.c:263-341 | from any place on there are pieces and then one of these three |
| `JsonLexemes.LexemeParses` | lib-sxe-jitson/sxe-jitson-stack.c:556-612 | a number with its sign, fraction and exponent, one of the words null, true and false, or a string is taken for what it means, if no letter, digit, underscore or point follows |
| `JsonLexemes.LexemeIs` | lib-sxe-jitson/sxe-jitson-stack.c:556-612 | what is taken for a value that is no array or object is one of these |
| `JsonGrammar.FormParses` | lib-sxe-jitson/sxe-jitson-stack.c:428-642 | a text that the grammar forms, with whitespace between any tokens, is parsed to what it means wherever it stands, and nothing behind it is used |
| `JsonGrammar.FormIs` | lib-sxe-jitson/sxe-jitson-stack.c:428-642 | what is taken for a value is a text that the grammar forms |
| `JsonGrammar.ParsesIffDenotes` | lib-sxe-jitson/sxe-jitson-stack.c:652-662 | parsing a text uses all of it up and gives a value if and only if the text is whitespace and a form of the grammar that means the value |
| `JsonGrammar.NothingParsed` | lib-sxe-jitson/sxe-jitson-stack.c:439-442 | where there is only whitespace there is no data, and a character that starts no value is an error |
| `JitsonStack.NewMaximumFits` | lib-sxe-jitson/sxe-jitson-stack.c:204-210 | the grown stack has room for what was asked |
| `JitsonStack.NewMaximumIs` | lib-sxe-jitson/sxe-jitson-stack.c:204-210 | it is a whole number of old sizes, or of 4096 tokens from there on, and no more of them than needed |
| `JitsonStack.Stack.constructor` | lib-sxe-jitson/sxe-jitson-stack.c:53-64 | the stack is empty |
| `JitsonStack.Stack.Expand` | lib-sxe-jitson/sxe-jitson-stack.c:200-231 | so many more tokens are in use behind those that were, which do not change |
| `JitsonStack.Stack.ReadHex4` | lib-sxe-jitson/sxe-jitson-stack.c:293-330 | the value of four hexadecimal digits, or failure |
| `JitsonStack.Stack.ReadChar` | lib-sxe-jitson/sxe-jitson-stack.c:263-341 | the bytes of one character, control characters included, or of one of the escapes of section 7 of RFC 8259, or failure |
| `JitsonStack.Stack.Append` | lib-sxe-jitson/sxe-jitson-stack.c:343-355 | adds a character's bytes, taking another token exactly when room runs out, with room for the terminator left |
| `JitsonStack.Stack.LoadString` | lib-sxe-jitson/sxe-jitson-stack.c:238-364 | pushes exactly the tokens of the string the text holds; on failure the stack is as it was |
| `JitsonStack.Stack.LoadMember` | lib-sxe-jitson/sxe-jitson-stack.c:465-480 | pushes exactly the tokens of one member |
| `JitsonStack.Stack.LoadMembers` | lib-sxe-jitson/sxe-jitson-stack.c:464-489 | pushes exactly the tokens of an object with all its members |
| `JitsonStack.Stack.LoadArray` | lib-sxe-jitson/sxe-jitson-stack.c:491-554 | pushes exactly the tokens of an array with all its elements |
| `JitsonStack.Stack.LoadScalar` | lib-sxe-jitson/sxe-jitson-stack.c:556-612 | stores a number or one of true, false and null |
| `JitsonStack.Stack.LoadJson` | lib-sxe-jitson/sxe-jitson-stack.c:428-642 | pushes exactly the tokens of the value that the text holds and uses up exactly its text; on failure the stack is as it was, with the same error |
| `JitsonStack.Stack.ParseJson` | lib-sxe-jitson/sxe-jitson-stack.c:652-662 | the same from the start of a text |
| `JsonPrint.StringBack` | lib-sxe-jitson/sxe-jitson-type.c:355-388 | a printed string is parsed back, whatever bytes it holds |
| `JsonPrint.NumberBack` | lib-sxe-jitson/sxe-jitson-type.c:228-257 | a printed unsigned integer below 2^64 is parsed back |
| `JsonPrint.ValueBack` | lib-sxe-jitson/sxe-jitson-type.c:167-745 | printed text is parsed back to its value wherever it stands in a text |
| `JsonPrint.ParseBuild` | lib-sxe-jitson/sxe-jitson-type.c:915-918 | parsing the text of a value gives the value and uses up the whole text |
| `JsonTight.TightForm` | lib-sxe-jitson/sxe-jitson-type.c:167-745 | what is printed for a value is the text of a form of the grammar that means it, without whitespace, leading zeros, or escapes but for lower-case codes of just the characters that need them |
| `JsonMeaning.OrderedIsPermutation` | lib-sxe-jitson/sxe-jitson-type.c:731-741 | whatever the hash function, going through the buckets meets every member exactly once |
| `JsonMeaning.OrderedByBucket` | lib-sxe-jitson/sxe-jitson-type.c:731-741 | members in lower buckets come first, and in a bucket later members |
| `JsonMeaning.OrderedMeansFirst` | lib-sxe-jitson/sxe-jitson-type.c:731-741 | in bucket order the last member of each name is the one that was first, whatever the hash function |
| `JsonMeaning.ShuffledMeansFirst` | lib-sxe-jitson/sxe-jitson-type.c:716-745 | without zero bytes in names, what is printed means what the value means if of members with one name the first counts |
| `JsonMeaning.FirstsMatchIff` | lib-sxe-jitson/sxe-jitson-type.c:716-745 | what is printed means what the value means if and only if, in every object that counts, no name holds a zero byte and first and last members match |
| `JsonMeaning.RepeatedNameComesBackFirst` | lib-sxe-jitson/sxe-jitson-type.c:716-745 | a failing input: with any hash function {"a":1,"a":2} is printed as {"a":2,"a":1} |
| `JsonMeaning.NulNameIsLost` | lib-sxe-jitson/sxe-jitson-type.c:300-305 | an object with a zero byte in a name is never printed as one that means the same |
| `CStrings.StrlenIsFirst` | lib-sxe-jitson/sxe-jitson-type.c:300-305 | for the program a string ends before its first zero byte |
| `JsonMeaning.RoundTrip` | lib-sxe-jitson/sxe-jitson-type.c:915-918 | parsing the printed text uses up exactly that text, for any hash function, and gives an equal value, objects compared as maps, if and only if first and last members match |
| `JitsonTokens.TokensRep` | lib-sxe-jitson/sxe-jitson-stack.c:428-642 | the tokens the parser pushes stand for the value, if the sizes of its names are computed right |
| `JitsonTokens.SizeIsWidth` | lib-sxe-jitson/sxe-jitson-type.c:872-875 | sxe_jitson_size is the number of tokens, before and after indexing |
| `JitsonTokens.StringWidthIsLeast` | lib-sxe-jitson/sxe-jitson-type.c:325-329 | a string has as few tokens as hold its bytes and a terminator, 8 in the first and 16 in every other |
| `JitsonTokens.KeySizeIsWidth` | lib-sxe-jitson/sxe-jitson-type.c:300-329 | the computed size of a member's name is its number of tokens if and only if no token begins behind its first zero byte; it is for names without one |
| `JitsonTokens.NulNameIsCutShort` | lib-sxe-jitson/sxe-jitson-type.c:300-329 | a name of two tokens for which the computed size is 1 |
| `JitsonRows.ElementRow` | lib-sxe-jitson/sxe-jitson.c:294-297 | element k of an array is where walking k sizes leads |
| `JitsonRows.IndexedArray` | lib-sxe-jitson/sxe-jitson.c:299-304 | an indexed array stands for the same elements |
| `JitsonRows.MembersRow` | lib-sxe-jitson/sxe-jitson.c:200-208 | the value of member k of an object is where walking sizes leads |
| `JitsonRows.LinkKey` | lib-sxe-jitson/sxe-jitson.c:203-205 | linking the next key leaves those before linked and those after untouched |
| `JitsonRows.IndexedObject` | lib-sxe-jitson/sxe-jitson.c:200-215 | an object with all keys linked and the bucket heads stored is indexed and stands for the same members |
| `JitsonRows.ReplaceElement` | lib-sxe-jitson/sxe-jitson.c:251-317 | indexing inside an element leaves the array the same |
| `JitsonRows.ReplaceValue` | lib-sxe-jitson/sxe-jitson.c:164-238 | indexing inside a member's value leaves the object the same |
| `Jitson.Memory.IndexArray` | lib-sxe-jitson/sxe-jitson.c:284-305 | stores the index; the array stands for the same elements and nothing outside it changes |
| `Jitson.Memory.GetElement` | lib-sxe-jitson/sxe-jitson.c:251-317 | element idx by walking sizes, or none beyond the end; the array stays what it is |
| `Jitson.Memory.IndexObject` | lib-sxe-jitson/sxe-jitson.c:190-216 | stores the index and links the keys; the object stands for the same members and nothing outside it changes |
| `Jitson.Memory.LinkMember` | lib-sxe-jitson/sxe-jitson.c:203-205 | links a key to the last one before it in its bucket |
| `Jitson.Memory.FindMember` | lib-sxe-jitson/sxe-jitson.c:225-237 | following links finds the last member in the name's bucket whose name is seen as that name, if there is one |
| `Jitson.Memory.GetMember` | lib-sxe-jitson/sxe-jitson.c:164-238 | the value of the last member that is seen under the name, or none; the object stays what it is |
| `Jitson.LastSeenIsNamed` | lib-sxe-jitson/sxe-jitson.c:225-237 | without zero bytes in names that is the last member with the name, for any hash function |
| `Jitson.NulNameNotSeen` | lib-sxe-jitson/sxe-jitson.c:225-237 | a member with a zero byte in its name cannot be got by that name |
| `JitsonPrinting.BuildString` | lib-sxe-jitson/sxe-jitson-type.c:355-388 | copying plain stretches and escaping the rest gives the quoted string |
| `JitsonPrinting.BuildArray` | lib-sxe-jitson/sxe-jitson-type.c:540-557 | prints the elements in order with commas between; the array stays what it is |
| `JitsonPrinting.BuildBuckets` | lib-sxe-jitson/sxe-jitson-type.c:731-741 | prints the members in bucket order with commas between, names up to their first zero byte |
| `JitsonPrinting.BuildObject` | lib-sxe-jitson/sxe-jitson-type.c:716-745 | prints an object, indexing it first |
| `JitsonPrinting.BuildJson` | lib-sxe-jitson/sxe-jitson-type.c:915-918 | prints exactly the text of the value; its tokens stand for the same value afterwards and nothing outside changes |
| `JitsonPrinting.FoundMemberCounts` | lib-sxe-jitson/sxe-jitson.c:164-238 | without zero bytes in names the member found by name is the one that counts when the object is read as a map |
| `JitsonPrinting.Reparse` | lib-sxe-jitson/sxe-jitson-type.c:915-918 | printing tokens and parsing the text pushes the tokens of an equal value if and only if first and last members match |
| `JitsonPrinting.PlainNamesComeBack` | lib-sxe-jitson/sxe-jitson-type.c:915-918 | without doubles, repeated names and zero bytes in names, for any hash function, the tokens of a value stand for it and parsing what is printed gives an equal value |
| `JitsonPrinting.ParsePrintParse` | lib-sxe-jitson/sxe-jitson-type.c:915-918 | parsing a text, printing what was parsed and parsing that pushes the tokens of an equal value if and only if first and last members match, as they do without repeated names and zero bytes in names |
| `SortedArray.FindKey` | lib-kit/kit-sortedarray.c:137-180 | the place of the matching element, or where the key would have to go; fails if and only if comparing with an element on the path of the search fails |
| `SortedArray.ProbedFew` | lib-kit/kit-sortedarray.c:147-176 | a search among less than 2^k elements looks at no more than k of them, the middle one first |
| `SortedArray.OccursAt` | lib-kit/kit-sortedarray.c:137-180 | the place found tells whether the key occurs |
| `SortedArray.CommonAround` | lib-kit/kit-sortedarray.c:241-278 | the intersection falls into the part before the median, the median, and the part behind it |
| `SortedArray.Intersect` | lib-kit/kit-sortedarray.c:218-279 | visits the elements of left that occur in right, in order and each once, up to the first refused visit or failing comparison: what the nested loops do |
| `SortedArray.IntersectBefore` | lib-kit/kit-sortedarray.c:247-249 | the same for what is before the median |
| `SortedArray.IntersectBehind` | lib-kit/kit-sortedarray.c:251-278 | the same for the median and what is behind it |
| `SortedArray.IntersectRest` | lib-kit/kit-sortedarray.c:258-278 | the same for what is left of both arrays, whether by the direct look-up of a single element or by the tail call |
| `SortedArray.VisitIfFound` | lib-kit/kit-sortedarray.c:228-239 | the same for an array of one element |
| `SortedArrayStore.WithKeeps` | lib-kit/kit-sortedarray.c:106-121 | putting an element in at its place keeps the array strictly increasing |
| `SortedArrayStore.WithoutKeeps` | lib-kit/kit-sortedarray.c:305-307 | so does taking one out |
| `SortedArrayStore.Store.constructor` | lib-kit/kit-sortedarray.c:58-60 | the array is empty, with so many slots |
| `SortedArrayStore.Store.PlaceFor` | lib-kit/kit-sortedarray.c:60-79 | the place of a new element, a duplicate, an element taken to be out of order, or a search that fails, for any failing comparisons |
| `SortedArrayStore.Store.Grow` | lib-kit/kit-sortedarray.c:91-100 | more slots, and the elements stay |
| `SortedArrayStore.Store.MoveUp` | lib-kit/kit-sortedarray.c:106-107 | the elements from a place on move up by one |
| `SortedArrayStore.Store.AddElem` | lib-kit/kit-sortedarray.c:47-123 | adds the element in its place, or changes nothing and tells why; it comes out right if and only if no failing comparison takes the element out of order or is on the path of its search; and tells exactly when it would write at slot ~0U |
| `SortedArrayStore.InsertStrays` | lib-kit/kit-sortedarray.c:60-79 | a failing input: adding to three elements when the comparison with the middle one fails |
| `SortedArrayStore.Store.DeleteElem` | lib-kit/kit-sortedarray.c:292-310 | takes out the one element with the key, if and only if there is one and no comparison on the path of its search fails |
| `SxeMd5.FastFormsAgree` | lib-sxe-md5/sxe-md5.c:49-50 | the rewritten F and G are those of section 3.4 of RFC 1321 on all words |
| `SxeMd5.CountedRight` | lib-sxe-md5/sxe-md5.c:216-219 | the 29-bit low part and the high part stay those of the whole byte count |
| `SxeMd5.CountInBits` | lib-sxe-md5/sxe-md5.c:265-273 | they are, in bits, the two words of the length modulo 2^64 |
| `SxeMd5.FoldSplits` | lib-sxe-md5/sxe-md5.c:91-196 | taking in blocks in two goes is taking them in at once |
| `SxeMd5.Padded` | lib-sxe-md5/sxe-md5.c:250-273 | the padded message is a whole number of blocks |
| `SxeMd5.PaddedIs` | lib-sxe-md5/sxe-md5.c:250-273 | byte |m| is 0x80, zeros follow, fewer than a block of them, and the last eight bytes, low first, are the length in bits modulo 2^64 |
| `SxeMd5.OutputIs` | lib-sxe-md5/sxe-md5.c:277-292 | byte i of a digest is byte i modulo 4, low first, of word i / 4 in the order A, B, C, D |
| `SxeMd5.OutputOfInit` | lib-sxe-md5/sxe-md5.c:199-208 | the initial words are the sixteen bytes that section 3.3 of RFC 1321 lists |
| `SxeMd5.OneBlock` | lib-sxe-md5/sxe-md5.c:91-196 | taking in one block is applying the compression to the words and the block |
| `SxeMd5.Context.constructor` | lib-sxe-md5/sxe-md5.c:199-208 | a fresh context has seen nothing |
| `SxeMd5.Context.Body` | lib-sxe-md5/sxe-md5.c:91-196 | takes in one or more whole blocks |
| `SxeMd5.Context.Count` | lib-sxe-md5/sxe-md5.c:216-221 | adds to the byte count and tells how much of the buffer was filled |
| `SxeMd5.Context.TakeBuffer` | lib-sxe-md5/sxe-md5.c:231-234 | completes the block in the buffer and takes it in |
| `SxeMd5.Context.TakeRest` | lib-sxe-md5/sxe-md5.c:237-242 | takes in what there is of whole blocks and keeps the rest |
| `SxeMd5.Context.Update` | lib-sxe-md5/sxe-md5.c:211-243 | the context has seen the data behind what it had seen |
| `SxeMd5.Context.StartPadding` | lib-sxe-md5/sxe-md5.c:250-261 | puts 0x80 behind the message and fills the block if the length does not fit in it |
| `SxeMd5.Context.Final` | lib-sxe-md5/sxe-md5.c:246-295 | the digest of all that was seen: the fold of the compression over the message padded as sections 3.1 and 3.2 of RFC 1321 say, its four words written A, B, C, D, low byte first |
| `SxeMd5.DigestInParts` | lib-sxe-md5/sxe-md5.c:199-295 | however a message is cut into updates, the digest is that of the whole message |
| `BaseEncode.AllConfigsOk` | lib-kit/kit-base-encode.c:48-187 | in every alphabet each digit is read back as its value, and the equals sign is no digit |
| `BaseAlphabets.Alphabet16` | lib-kit/kit-base-encode.c:48-80 | digits are written and read, in either case, as section 8 of RFC 4648 lists them; P is read as 15 |
| `BaseAlphabets.Alphabet32` | lib-kit/kit-base-encode.c:81-107 | the alphabet of section 6 of RFC 4648, written and read |
| `BaseAlphabets.Alphabet32Hex` | lib-kit/kit-base-encode.c:108-134 | the alphabet of section 7 of RFC 4648, read in either case |
| `BaseAlphabets.Alphabet64` | lib-kit/kit-base-encode.c:135-161 | the alphabet of section 4 of RFC 4648, written and read, with padding |
| `BaseAlphabets.Alphabet64Url` | lib-kit/kit-base-encode.c:162-187 | the alphabet of section 5 of RFC 4648, written and read, without padding |
| `BaseSpec.EncodedLength` | lib-kit/kit-base-encode.c:190-250 | the length that RFC 4648 gives, padding included |
| `BaseNumbers.EncodedIsNumber` | lib-kit/kit-base-encode.c:190-250 | bytes are the digits of a number to base 256, and their text has the digits of that number to base 16, 32 or 64, shifted to fill the last one, and pads behind them |
| `BaseSpec.RoundTrip` | lib-kit/kit-base-encode.c:190-324 | decoding what bytes were encoded as gives the bytes, without an error, and uses up the whole text |
| `BaseSpec.WhitespaceIgnored` | lib-kit/kit-base-encode.c:272-276 | in skip mode whitespace changes neither the decoded bytes nor the outcome |
| `BaseOutcomes.DecodesAsCounted` | lib-kit/kit-base-encode.c:253-324 | by counting characters: decoding overflows if and only if the digits read make more bytes than there is room for, and has then put out just that many; otherwise padding is missing if and only if the encoding is padded and digits and pads do not make whole bytes; the bytes are those of the digits' bits; all that was read is used, but for one character |
| `BaseOutcomes.StopsSomewhere` | lib-kit/kit-base-encode.c:267-313 | how far a text is read is told by which character may be read behind which |
| `BaseOutcomes.CutPads` | lib-kit/kit-base-encode.c:316-318 | a padded encoding with one or more of its pads cut off gives all bytes, and padding is missing |
| `BaseOutcomes.NothingBehind` | lib-kit/kit-base-encode.c:272-283 | outside skip mode nothing from the first whitespace on matters, and in no mode anything from a foreign character on |
| `BaseSpec.GivesBackDigit` | lib-kit/kit-base-encode.c:316-321 | when a last digit is worth nothing, one character is given back, and the digit is not consumed if and only if no whitespace was skipped behind it |
| `BaseEncode.SpaceIsGivenBack` | lib-kit/kit-base-encode.c:316-321 | a failing input: of A followed by a space, in base 16 and skip mode, the space is given back and the worthless digit stays consumed |
| `BaseEncode.FindShift` | lib-kit/kit-base-encode.c:196-199 | the shift found is the width of a digit |
| `BaseEncode.PutDigits` | lib-kit/kit-base-encode.c:222-228 | puts out digits while there are bits for one and room for it |
| `BaseEncode.Finish` | lib-kit/kit-base-encode.c:231-249 | puts out the bits that are left and the padding |
| `BaseEncode.Encode` | lib-kit/kit-base-encode.c:190-250 | the encoded text if it fits with its terminator, and else exactly as much of it as fits |
| `BaseEncode.TakeDigit` | lib-kit/kit-base-encode.c:299-313 | shifts a digit in and a byte out, as the definition of reading says |
| `BaseEncode.TakeOther` | lib-kit/kit-base-encode.c:272-297 | skips whitespace, counts padding or stops, as the definition of reading says |
| `BaseEncode.DecodeText` | lib-kit/kit-base-encode.c:253-324 | bytes, outcome and consumed length are those of reading the text character by character as bits |
| `BaseEncode.EitherCase` | lib-kit/kit-base-encode.c:334-338 | base 16 text in capitals is decoded under the lower-case table |
| `BaseEncode.Bin2Hex` | lib-kit/kit-base-encode.c:343-351 | two digits for every byte, in the case asked for |
| `BaseEncode.Hex2Bin` | lib-kit/kit-base-encode.c:354-362 | the bytes of the digits read |
| `BaseEncode.HexThereAndBack` | lib-kit/kit-base-encode.c:340-362 | bytes come back from their hexadecimal text in either case |
| `SxeDict.Dict.constructor` | lib-sxe-dict/sxe-dict.c:93-103 | the dictionary is empty |
| `SxeDict.Dict.Search` | lib-sxe-dict/sxe-dict.c:263-265 | the node of a key in its bucket, or the end of the bucket |
| `SxeDict.Dict.Find` | lib-sxe-dict/sxe-dict.c:321-346 | the value stored for the key, or NULL |
| `SxeDict.Dict.Reinsert` | lib-sxe-dict/sxe-dict.c:157-177 | puts a node in its new bucket; no other node moves |
| `SxeDict.Dict.MoveBucket` | lib-sxe-dict/sxe-dict.c:193-202 | every node of an old bucket is in its new one |
| `SxeDict.Dict.Resize` | lib-sxe-dict/sxe-dict.c:179-206 | the table has another size and stands for the same entries; a negative size gets no memory, and size 0 leaves nothing to divide by |
| `SxeDict.Dict.NewNode` | lib-sxe-dict/sxe-dict.c:267-270 | a new node behind its bucket adds the key with a NULL value |
| `SxeDict.Dict.AddEntry` | lib-sxe-dict/sxe-dict.c:235-271 | the key is there, with its old value or NULL, no other entry changes, and the table has grown exactly if the bucket was taken and the load reached; nothing changes and adding fails if and only if it has to grow and the product of 32 bits is 0 or at least 2^31 |
| `SxeDict.Dict.Put` | lib-sxe-dict/sxe-dict.c:274-291 | the key has the value, no other entry changes; fails exactly when adding the key does |
| `SxeDict.StoreAll` | lib-sxe-dict/sxe-dict.c:235-291 | after any sequence of stores, with any initial size, load and growth, the dictionary is the map that they make, up to the first store that calls for a table that cannot be had, for keys that are compared as equal values |
| `SxeDict.StringKeyIff` | lib-sxe-dict/sxe-dict.c:157-224 | a string key that is added with a length is found again with it if and only if it ends by then, is hashed alike when the table grows if and only if it does not end before, and, uncopied, if and only if it ends there |
| `SxeDict.ShortStringNotFound` | lib-sxe-dict/sxe-dict.c:208-224 | a failing input: the first three bytes of foobar, added again, are another entry |
| `SxeDict.BadGrowth` | lib-sxe-dict/sxe-dict.c:251-256 | failing inputs: growth 0; growth by 2^31 from size 2 or 1; doubling 2^30 buckets |
| `SxeDict.NewSizeIsProduct` | lib-sxe-dict/sxe-dict.c:251-256 | below 2^31 the new size is the product of size and growth, and it is always that modulo 2^32 |
| `SxeDict.Dict.GrowsIff` | lib-sxe-dict/sxe-dict.c:249-256 | a table grows if and only if the new key's bucket is taken and there are at least `load` entries for every hundred buckets, short of 42949673 entries |
| `SxeDict.AddTwice` | lib-sxe-dict/sxe-dict.c:251-256 | with a load of 0 a second add succeeds if and only if the product is in 1..2^31 - 1, and divides by zero if and only if it is 0 |
| `SxeDict.Walk` | lib-sxe-dict/sxe-dict.c:390-409 | visits the entries bucket by bucket until a visit is refused |
| `Sequences.VisitIs` | lib-sxe-dict/sxe-dict.c:390-409 | what is visited is a beginning of what there is, in order, and all visits but the last are accepted; the last is refused if and only if the walk is cut short |
| `SxeDict.WalkVisitsAll` | lib-sxe-dict/sxe-dict.c:390-409 | a walk that is not cut short visits every entry exactly once |
| `KitArc4random.MinIs` | lib-kit/kit-arc4random.c:165-166 | min is 2^32 modulo the bound, and the accepted draws are a whole number of times the bound |
| `KitArc4random.EquallyManyDraws` | lib-kit/kit-arc4random.c:148-179 | every result below the bound comes from exactly (2^32 - min) / bound accepted draws |
| `KitArc4random.MostAreAccepted` | lib-kit/kit-arc4random.c:168-173 | fewer draws are refused than accepted |
| `KitArc4random.Uniform` | lib-kit/kit-arc4random.c:158-179 | the first accepted draw modulo the bound, and every draw before it was below 2^32 modulo the bound |

## Left out

- CdbInstance.Instance.PutVal: requires that the key is not stored yet, which the code leaves to its callers; goes no further where the sizes wrap (not `ok`), which the code does not notice.
- CdbInstance.Instance.Put: as CdbInstance.Instance.PutVal.
- CdbInstance.Instance.Inc: requires that a counter is always incremented in the same list, that its count stays below the last 48-bit value, and that a plain value does not read as a counter (`CanInc`): what inc does to the links after it has taken one for a counter (`CdbInstance.Instance.CountNew`) is not part of this model. The twelve bytes that a new counter's value holds before its link is written are a parameter.
- CdbUse.Rank: one list, fewer than 2^48 keys, and up to the first key that cannot be counted; the model has 2^20 pages of count slots at most, beyond which the 32-bit sizes of count pages wrap.
- CdbInstance.Instance.GetUidHkvRaw: says what a UID made by the instance resolves to; a made-up UID may name any cell.
- CdbInstance.Instance.Walk: reads behind kvdata and counts give the values of two parameters, where in the program they may not return; copying the visited record is left out.
- PoolRuns.WalkMissesNone: leaves out moves into the walked state of elements that have been in it, touching included, for which it is false.
- SxePool.Pool.SetState: requires the old state to be right, where the code aborts; move counts are unbounded, where the code keeps 64 bits.
- JsonMeaning.RoundTrip: leaves out doubles, which are printed with sixteen digits and lose precision.
- JitsonTokens.TokensRep: requires that the sizes of all names are computed right (`JitsonTokens.KeySizeIsWidth`); for other names walking sizes goes wrong.
- SortedArrayStore.Store.AddElem: a comparison that fails counts as greater, as INT_MAX does; elements are copied in; goes no further where the element is written at slot ~0U.
- SxeDict.Dict.AddEntry: goes no further where it divides by zero, and takes it that memory for no buckets can be had, and for a negative number, which becomes a huge one, cannot.
- CounterSteps.SlotsHaveOneOwner: that a static slot is free is checked and the slot taken in one step (`KitCounters.Counters.InitThread`); the code does both without the lock, so two threads that are given one slot could both pass the check.
- KitCounters.Counters.GetData: reads at one instant; `CounterReads` says what reading cell by cell gives.
- KitCounters.Counters.Combine: as KitCounters.Counters.GetData.
- KitArc4random.Uniform: the loop ends when the given draws do; the source has no end, so in theory the loop need not either.
- BaseEncode.DecodeText: says what is read, not that all foreign characters are rejected: the base 16 table reads P as 15.
- cdb: the ensemble of instances and its locks, copies of records to and from thread-local storage and writing them back, miss statistics, numbers of free cells, mapping and its failure.
- pools: timed pools, timeouts with their callbacks, locks that are not taken, names and logging; lists of objects at an offset from their node.
- counters: `kit_counter_zero`, combine handlers, MIB text, counters registered after initialization, updates before it; increments of the shared invalid counter and of the dead threads' counters count as atomic, which the code does not make them.
- jitson: the flags for optimized arrays, hexadecimal numbers, identifiers, named constants and casts; references, ranges, concatenated and sorted collections, borrowed stacks and the calls that build values by hand; files and line numbers of sources; surrogate pairs, which the parser does not combine but takes as two code points; where a failed parse stops; the lock around indexing.
- jitson tokens: a string's bytes are kept whole with its first token, not sixteen to a token; numbers are kept as values and doubles as their text; lengths and sizes stay below 2^32.
- sorted arrays: keys at an offset in their elements and arrays with repeated elements, for which the fast intersection visits fewer elements.
- md5: the compression function is any function of four words and a block, but for the two rewritten round functions; wiping the context.
- base encodings: the terminator behind the text; how much of the input an overflowing encoder has used.
- SxeDict.StoreAll: keys are of any type with a hash function and equality, which for a string key means that it ends at the length it comes with (`SxeDict.StringKeyIff`), and for a binary key that it is not empty.
- dictionary: freeing.
- random numbers: the ChaCha source, which is a sequence of draws here, and seeding.
- Running out of memory, anywhere.
- Tensors, queues, hashes, timestamps, files, sockets and the other libraries of the repository.
