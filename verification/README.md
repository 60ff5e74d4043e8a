# SPIFFS in Dafny

SPIFFS is a log-structured file system for NOR flash. Programming a flash word can only clear
bits; only a whole block can be erased. A block begins with lookup entries, one for each of its
pages, that hold the object id of the page, or say that it is free or deleted. A file is an object
with an index header page (length, name, first page references), further index pages, and data
pages. Pages are replaced by writing a new one and deleting the old one, and garbage collection
moves the live pages of a block elsewhere before it is erased.

This project models the page store, the allocator, garbage collection, the file layer, the calls
by name and by descriptor, the read and write-back caches, the index map and the consistency
checks, with every flash write an AND into what is stored, and proves that together they
implement a finite map from names to byte sequences.

## How it is built

- `Words`, `Layout`, `Medium`: words and AND, the geometry, the flash and its writes.
- `Directory`: what a consistent medium is (`Linked`), what it means (`Meaning`), and how the
  elementary changes keep the one and change the other. While an index page is being edited in the
  work buffer the medium is consistent *as seen through the buffer*: consistency is stated of the
  flash patched with the buffer.
- `Tally`, `Slack`: counts of entries, where free entries are, and how much room a collection needs.
- `Store`: the file system object, lookup search, allocation, move, delete, descriptors.
- `Collector`, `Candidates`, `Circling`, `Reclaim`: garbage collection.
- `Plans`: which pages a write allocates and in which order, and so where it stops.
- `Files`, `Holding`, `Appending`, `Modifying`, `FileIO`, `Removal`, `EmptyWrite`: files.
- `FileSystem`, `Names`, `Api`, `Mount`, `History`: the file system as its users see it.
- `Window`, `Maps`, `Following`, `IndexMap`: the index map of a descriptor, and what events make of
  windows and positions.
- `Crash`, `ReadCache`, `WriteBack`, `PageCheck`: power loss, caches, checks.
- `Media`, `Stops`, `Flaws`: media and calls that show what the next section lists.

Method contracts come in three layers. What holds on any medium is unconditional (counters, free
entries last in every block, no live page left in a collected block). What holds on a consistent
medium is stated for every directory `dir0` that shows it to be consistent: what a success and what
a failure has made of the files, the descriptors and their windows. A call that stops in the middle
has left behind a `Loss`: nothing, or the body of an index page that was changed in the work buffer
and never stored. With the lost page put back the medium is consistent (`Mended`); without it, it is
consistent with no directory at all (`Directory.LossShows`). And with enough room a call succeeds:
`Spiffs.Spare` is the number of pages that can be allocated for certain, as long as the counter of
free blocks is right: the entries behind the cursor in its block and those of all free blocks but
two, and one more. Each call says how many it needs. Where it stops with fewer is exact as long as no
block can come to be deleted throughout during the call: `Spiffs.Stock` counts the pages that can be
had and how far every block is from that.

## Where the code does not do what it is for

Each of these is kept as the code has it, with the condition under which it is right and a medium or
call on which it is not.

- A collection fails exactly if the free entries outside the block are fewer than the pages to be
  written (`Collector.Clean`); an index page can be lost then, and the object it belongs to with it, no
  other (`Directory.LossBreaks`). On a medium with one free entry and a data page in every block,
  collecting any block does that (`Reclaim.Check`); on one such medium making a file destroys the only
  other one (`Flaws.CreatLoses`).
- The room check counts data pages alone and the allocator stops while a block is free, so a write
  can stop in the middle although there was room (`Flaws.AppendStops`, `Flaws.StopsHere`). It stops
  where `Plans.AppendStop` or `Plans.ModifyStop` says, from the pages that could be had right after the
  room check; where that collects nothing, from those that could be had before the call.
- A collection can lower the number of free entries: it frees the deleted ones of its block, but each index
  page outside the block that refers into it is written anew and its old copy stays, deleted
  (`Slack.SlackGain`, exact). So room that is there can be lost by making it: a room check that collects
  grants room if and only if the estimate before it and the gains of its rounds hold the bytes, and
  refuses room that was there only if some round lost some (`Reclaim.Check`). Five blocks to spare
  guarantee room (`Reclaim.Ample`), just enough does not (`Reclaim.Dwindles`): on `Stops.RoomLost` an
  append for which there is room is refused, and there is none any more.
- An append that stops leaves a file exactly at the stages of `Plans.AppendOrder`
  (`Appending.StoppedExact`). One that stops right after it began a new index page has left one index
  page too many, and no file (`Stops.IndexTooMany`).
- A modification that stops keeps its references exactly at the stages of `Plans.ModifyOrder`
  (`Modifying.Modify`); elsewhere the index page in the work buffer is lost (`Stops.ReferencesLost`).
- An append to an empty file leaves length 0 in the header exactly if no page can be had right after
  the room check (`Appending.Append`), as on a medium where collecting gets nowhere
  (`Stops.LeftAtZero`); later appends under the header page store pages and references, and the length
  stays 0 (`Appending.LengthStuck`, `Stops.StuckHere`).
- A truncation that stops in the middle leaves no file. It succeeds if and only if more pages can be had
  right after the room check than the file has index pages behind its header (`Removal.Truncate`, as
  long as no block can come to be deleted throughout); on `Stops.TruncationStops` it does not.
- Erasing a block that was free already makes the free block counter run ahead of the number of
  free blocks (`Reclaim.EraseEmptied`, exact). Making the first file on a medium of three blocks does
  that (`Flaws.FreshDrifts`).
- An empty write inside a file stores the work buffer as the header of the file, whatever it holds;
  the medium stays right for every buffer if and only if the write is not inside the file
  (`EmptyWrite.AnyBuffer`).
- Events about a header page do not reach a descriptor of score 0 (`Flaws.HeaderMissed`), which
  opening by directory entry or by page gives when the descriptor was never used; after a rename it
  points at a deleted page exactly then (`Flaws.RenameUnder`, `Flaws.OpenedStale`). Agreement of
  descriptors is claimed for the others (`Collector.FdOk` is the invariant).
- Truncating does not tell windows: they agree afterwards exactly if they are empty
  (`Removal.TruncatedMaps`).
- A header event for an empty file resets the position of a descriptor even if the first bytes are
  pending (`WriteBack.RenamePosition`, exact; `WriteBack.RenameOpen`). A read misses the pending bytes
  of a file of which nothing is stored (`WriteBack.Descriptor.Read`, `WriteBack.ReadMissesPending`).
- The lazy deletion of an object writes its flags without reading them, which makes the read cache
  differ from the chip (`ReadCache.Cache.Write`, exact; `ReadCache.BlindFlags`, the bytes).

`dafny verify dfyconfig.toml` checks the project.

## Model

| member | source | states |
|---|---|---|
| History.Run | 示例/IOTTS_EXample/SYSTEM/spiffs/spiffs_hydrogen.c:30-924 | any list of calls on a freshly formatted medium, remounts among them: the answers and the files are those of a finite map from names to byte sequences, every read included; a call that must be refused (no such file, name taken, name too long) never fails or takes place; running out of descriptors, or of room for a new file, a new name or a write that the room check refuses, changes nothing and the history goes on; a call that stops in the middle is the last, and leaves the files in order, a write with the first of its bytes, or one object not in order, which is the one that lost an index page if one was lost, and every other file as it was with all its pages in place; with descriptors, reading and removing are never put off, whatever went before |
| History.Do | 示例/IOTTS_EXample/SYSTEM/spiffs/spiffs_hydrogen.c:184-924 | one call between calls: it takes place as a whole, is refused or finds no room with nothing changed, or fails; a failure leaves everything in order (a write has stored the first of its bytes), or one object not in order: the one that lost an index page, with a page out of place, or one that is no file of any length; every other file is as it was, with all its pages in place on the flash; with enough spare pages, a closed descriptor and a free id (spelled out for each call) it takes place unless it must be refused; a call that finds no room had no descriptor, or the medium was too full for it in the way stated for it; where a descriptor could be had one can be had again |
| History.RunFrom | 示例/IOTTS_EXample/SYSTEM/spiffs/spiffs_hydrogen.c:30-924 | the same from any state in order, so that a history can go on after a failed call that left the files in order |
| History.ExplainedJoin | 示例/IOTTS_EXample/SYSTEM/spiffs/spiffs_hydrogen.c:184-924 | two histories, the second going on where the first ended, are one |
| History.ExplainedOnce | 示例/IOTTS_EXample/SYSTEM/spiffs/spiffs_hydrogen.c:184-924 | as long as no call fails, calls and answers leave no choice what the files are |
| History.HarmedRuins | 示例/IOTTS_EXample/SYSTEM/spiffs/spiffs_hydrogen.c:184-924 | a call that harms an object leaves every other file as it was, with all its pages in place; the harmed object is the one that lost an index page, or no file of any length |
| History.OpenByName | 示例/IOTTS_EXample/SYSTEM/spiffs/spiffs_hydrogen.c:209-288 | opens the named file or says there is none; it changes no file and no page, and is refused a descriptor only if there is none |
| History.Renameable | 示例/IOTTS_EXample/SYSTEM/spiffs/spiffs_hydrogen.c:885-895 | looking both names up tells exactly whether the renaming must be refused |
| History.CreateByName | 示例/IOTTS_EXample/SYSTEM/spiffs/spiffs_hydrogen.c:184-207 | creating by name adds an empty file exactly if the name is free and fits; without room nothing changes; only a collection that stops in the middle can harm a file, and then an index page was not stored; it finds no room only if no id is left, the free entries do not hold a header beside two blocks of them, or no page can be had |
| History.WriteByName | 示例/IOTTS_EXample/SYSTEM/spiffs/spiffs_hydrogen.c:435-455 | open, write and close change the named file like a write to a byte sequence and no other file; a write refused by the room check changes nothing; a failed one has stored the first of its bytes and left everything in order, or one object is not in order - the one that lost an index page if one was lost, and otherwise the named file - and every other one as it was |
| History.ReadByName | 示例/IOTTS_EXample/SYSTEM/spiffs/spiffs_hydrogen.c:370-422 | open, read and close give exactly the bytes of the named file and change nothing |
| History.OpenAndClose | 示例/IOTTS_EXample/SYSTEM/spiffs/spiffs_hydrogen.c:209-288 | opening by name with any of create, exclusive and truncate, and closing, adds an empty file, empties the file, or changes nothing, as the flags and the name ask for, or must be refused; without a descriptor or room for a new file nothing changes; otherwise all files are as they were, or one is not in order and every other one as it was |
| History.OpenedTree | 示例/IOTTS_EXample/SYSTEM/spiffs/spiffs_hydrogen.c:209-288 | what opening did to the files by id is what the flags ask for of the map from names to bytes |
| History.RemoveByName | 示例/IOTTS_EXample/SYSTEM/spiffs/spiffs_hydrogen.c:649-690 | removing takes exactly the named file away, or changes nothing; it cannot fail half way |
| History.RenameByName | 示例/IOTTS_EXample/SYSTEM/spiffs/spiffs_hydrogen.c:873-924 | renaming moves the bytes to the new name, or changes nothing |
| History.TreePut | 示例/IOTTS_EXample/SYSTEM/spiffs/spiffs_nucleus.c:1661-1723 | files by object id with pairwise different names are one map from names to bytes, and stay so when one is written |
| Api.Creat | 示例/IOTTS_EXample/SYSTEM/spiffs/spiffs_hydrogen.c:184-207 | too long a name and a name in use are refused with nothing changed; a success adds one empty file under an id no file had; a failure leaves all files as they were unless a collection stopped in the middle for lack of room, and the error for a full medium always does; on a medium with one free entry and a data page in every block it does lose an index page, on an empty one it counts a free block twice; it fails only if the medium is too full for one more file or a collection found less than it needed; with five blocks to spare it fails only if no page can be had |
| Api.CreateObject | 示例/IOTTS_EXample/SYSTEM/spiffs/spiffs_nucleus.c:912-972 | creating an object makes room, writes one header page to an erased slot, and adds exactly one empty file; where the room check or the allocation refuses, the medium means what it did and descriptors are in step; an index page is lost only if a collection found less than it needed; the room check refuses exactly if the free entries do not hold a page beside two blocks of them, and these two blocks are left after a creation |
| Api.SurvivedSpared | 示例/IOTTS_EXample/SYSTEM/spiffs/spiffs_gc.c:109-196 | a call that stopped at the room check leaves all files as they were, or one object has lost an index page and with that page back every file is as it was |
| Api.PlaceObject | 示例/IOTTS_EXample/SYSTEM/spiffs/spiffs_nucleus.c:925-970 | one allocation and one event put the header of a new object on the medium; it succeeds exactly if a page can be had, and otherwise at most a quick erase happened and nothing else |
| Api.WriteHeader | 示例/IOTTS_EXample/SYSTEM/spiffs/spiffs_nucleus.c:934-962 | the writes of a new header leave on flash exactly the header meant, and the counters tally |
| Api.NameTaken | 示例/IOTTS_EXample/SYSTEM/spiffs/spiffs_nucleus.c:1661-1688 | a header page of a name is found on the medium exactly if some file has that name |
| Api.FindFd | 示例/IOTTS_EXample/SYSTEM/spiffs/spiffs_nucleus.c:2242-2312 | picks a closed descriptor of least score; scores of closed descriptors sink by one, not below one, before a search by name; one is found if and only if some closed descriptor has a score below the largest |
| Api.OpenByPage | 示例/IOTTS_EXample/SYSTEM/spiffs/spiffs_nucleus.c:1172-1207 | a descriptor opened from a header page agrees with the medium, knows its file and length, carries its own number, and stands at position 0 whatever its last user left |
| Api.Open | 示例/IOTTS_EXample/SYSTEM/spiffs/spiffs_hydrogen.c:209-288 | open with any of create, exclusive and truncate: which file is opened, what becomes of it, and the error when it is refused; with a descriptor it succeeds on a file that is there unless creation is exclusive, and makes one that is not there if asked to and there is room and an id; the descriptor stands at position 0, also after a truncation; after a failure all files are as they were, or one object is not in order and every other one is as it was |
| Api.Locate | 示例/IOTTS_EXample/SYSTEM/spiffs/spiffs_hydrogen.c:229-265 | finds the header of the named file, or creates the file where asked to; the error for a file that exists is given exactly if creation is exclusive and it does; a creation succeeds with enough room and an id left, exclusive or not, and one that fails leaves what Creat leaves |
| Api.MakeFile | 示例/IOTTS_EXample/SYSTEM/spiffs/spiffs_hydrogen.c:236-252 | creates an empty file of a name that no file has, under a fresh id; a failure leaves what Creat leaves |
| Api.TruncateOpened | 示例/IOTTS_EXample/SYSTEM/spiffs/spiffs_hydrogen.c:274-283 | truncates the file just opened, and closes the descriptor again if that fails, all files being as they were, or one not in order and every other one as it was |
| Api.WriteFile | 示例/IOTTS_EXample/SYSTEM/spiffs/spiffs_hydrogen.c:435-455 | a write through a descriptor is a write to the byte sequence of its file, whole, or up to the byte where it stopped with everything in order, or with one object not in order: the one that lost an index page if one was lost, and otherwise the file; every other file stays as it was, with all its pages in place; descriptors are in step and windows follow after a success; with enough spare pages it succeeds and leaves the rest of them; it is refused exactly for want of free entries, and fails for a full medium only if they do not hold the bytes and one page or no page can be had |
| Api.ReadFile | 示例/IOTTS_EXample/SYSTEM/spiffs/spiffs_hydrogen.c:370-422 | reads the bytes there are from the position on and reports the end exactly when there are none |
| Api.Remove | 示例/IOTTS_EXample/SYSTEM/spiffs/spiffs_hydrogen.c:649-690 | removes exactly the named file; the only errors are a missing file, no closed descriptor, too long a name, and then all files are as they were |
| Api.Rename | 示例/IOTTS_EXample/SYSTEM/spiffs/spiffs_hydrogen.c:873-924 | the file has its new name and its old bytes, or all files are as they were; what was written is one page move, perhaps after a quick collection; every other descriptor becomes exactly what the event makes of it; each error is given exactly for its reason (a name too long, no such file, a name in use, no descriptor), and otherwise it succeeds exactly if a page can be had |
| Api.StoreName | 示例/IOTTS_EXample/SYSTEM/spiffs/spiffs_nucleus.c:979-1037 | storing a new name in a header moves one page; if that fails the medium means the same as before |
| Api.Stat | 示例/IOTTS_EXample/SYSTEM/spiffs/spiffs_hydrogen.c:753-773 | tells the id and the length of the file of that name, or that there is none |
| FileIO.Read | 示例/IOTTS_EXample/SYSTEM/spiffs/spiffs_nucleus.c:1966-2056 | reading any range inside a file, across data and index pages and through the index map of the descriptor or not, returns exactly that range of the file |
| FileIO.FetchIndex | 示例/IOTTS_EXample/SYSTEM/spiffs/spiffs_nucleus.c:1991-2016 | the index page loaded for reading, by the cursor shortcut or by search, is the live one of its span |
| FileIO.FindPage | 示例/IOTTS_EXample/SYSTEM/spiffs/spiffs_nucleus.c:1983-2027 | the page number taken from the index map or the index is the live data page of the span |
| FileIO.Write | 示例/IOTTS_EXample/SYSTEM/spiffs/spiffs_hydrogen.c:435-455 | writing at an offset turns the file into its bytes in front, the new bytes, and its old bytes behind them; a write that fails leaves the file well-formed with the first bytes written, or one object not in order, the one that lost an index page if one was lost, and otherwise the file, which then is no file of any length; all other objects are as they were on the flash; with enough spare pages it succeeds and leaves the rest of them; the room check refuses it only if the free entries do not hold the bytes and one page beside two blocks, and never with five blocks to spare |
| FileIO.LostHarms | 示例/IOTTS_EXample/SYSTEM/spiffs/spiffs_nucleus.c:1544-1655 | an index page that was never stored harms the object it belongs to: some page of that is out of place; every other object has its pages in place and means what it did |
| FileIO.HarmedExact | 示例/IOTTS_EXample/SYSTEM/spiffs/spiffs_nucleus.c:1544-1655 | an object that is not in order is no file of any length, whatever directory one takes |
| FileIO.NeedParts | 示例/IOTTS_EXample/SYSTEM/spiffs/spiffs_hydrogen.c:435-455 | what the part of a write inside a file and the part behind its end need is not more than what the write needs, though they share a page |
| FileIO.ModifyThenAppend | 示例/IOTTS_EXample/SYSTEM/spiffs/spiffs_hydrogen.c:435-455 | modifying up to the end and then appending the rest is one write of the whole buffer |
| FileIO.SameDataPage | 示例/IOTTS_EXample/SYSTEM/spiffs/spiffs_nucleus.c:2028-2048 | a stretch inside one data page on flash is the same stretch of the file |
| Appending.Append | 示例/IOTTS_EXample/SYSTEM/spiffs/spiffs_nucleus.c:1212-1453 | an append that gets past the room check stops exactly where no page can be had; at which of its allocations that is follows, as long as no block can come to be deleted throughout, from the pages that could be had right after the check, which is the state before the call where the check collects nothing; what is then in place, what length the header says and how many index pages there are follow from the stage, and the file is one of some length if and only if the stage is one of those listed; length 0 is left in the header exactly if the file was empty and no page could be had right after the room check; windows and positions follow; with enough spare pages it succeeds; the room check grants room exactly if the free entries hold the bytes and one page beside two blocks of them |
| Appending.AppendRest | 示例/IOTTS_EXample/SYSTEM/spiffs/spiffs_nucleus.c:1345-1441 | past the room check: stops where the plan of its allocations says; to an empty file nothing is written exactly if no page could be had at first |
| Appending.EndedExact | 示例/IOTTS_EXample/SYSTEM/spiffs/spiffs_nucleus.c:1212-1453 | after an append, stopped or not, the file is well-formed with the length its header says if and only if that is not 0, no reference is lost, there is no index page too many, and all bytes it does not count are erased ones of the same page |
| Appending.StoppedExact | 示例/IOTTS_EXample/SYSTEM/spiffs/spiffs_nucleus.c:1212-1453 | after an append some directory makes it a file of some length if and only if it wrote everything; or stopped in front of a new index page; or at a data page other than the first, under the header of a file that was empty; or at its first data page without having begun an index page for it; or has begun none and written nothing that can be told from erased bytes |
| Appending.LostKeeps | 示例/IOTTS_EXample/SYSTEM/spiffs/spiffs_nucleus.c:1252-1294 | an append that lost the references in the header page has left the old header, and every old byte can be read through it |
| Plans.AppendExact | 示例/IOTTS_EXample/SYSTEM/spiffs/spiffs_nucleus.c:1212-1453 | at the stages listed, and at no other, an append leaves no index page too many and every byte counted by the header or erased in the same page |
| Plans.TurnPage | 示例/IOTTS_EXample/SYSTEM/spiffs/spiffs_nucleus.c:1248-1341 | where an append turns to another index page it stands at the start of a data page, the first under the next index page, and the header will count just what is in place |
| Appending.Step | 示例/IOTTS_EXample/SYSTEM/spiffs/spiffs_nucleus.c:1345-1395 | one round of the loop: to the next index page if need be, and one page; it gets on, and needs at most three allocations |
| Appending.Turn | 示例/IOTTS_EXample/SYSTEM/spiffs/spiffs_nucleus.c:1248-1341 | the full index page is stored before the next one is begun or loaded; where that fails no page can be had, and the append ends there as stated for a stop |
| Appending.TouchedHolds | 示例/IOTTS_EXample/SYSTEM/spiffs/spiffs_nucleus.c:1346-1394 | the pages a write touches hold its bytes |
| Appending.WriteChunk | 示例/IOTTS_EXample/SYSTEM/spiffs/spiffs_nucleus.c:1345-1395 | one step of an append: a new data page, or bytes programmed behind the last byte of a page in place, grows the file by just these bytes |
| Appending.TailExact | 示例/IOTTS_EXample/SYSTEM/spiffs/spiffs_nucleus.c:1366-1370 | programming into a partly filled page leaves exactly old and new bytes, because the page is erased behind its last byte |
| Appending.StoreHeld | 示例/IOTTS_EXample/SYSTEM/spiffs/spiffs_nucleus.c:1252-1294 | storing the index page in the work buffer, the first update of a header in place or a new copy otherwise, makes the flash what the buffer says and tells every cursor and window; it fails exactly if a page is needed and none can be had, and then leaves header and stored pages as they were |
| Appending.StoreLength | 示例/IOTTS_EXample/SYSTEM/spiffs/spiffs_nucleus.c:1284-1292 | the header gets the new length when a further index page has been completed, exactly if a page can be had, and the descriptors know; otherwise nothing changes |
| Appending.Load | 示例/IOTTS_EXample/SYSTEM/spiffs/spiffs_nucleus.c:1295-1341 | the index page an append goes on with is the live one, or a new one written where there was none; it fails exactly if a new one is needed and no page can be had, and then changes nothing |
| Appending.StoreEmpty | 示例/IOTTS_EXample/SYSTEM/spiffs/spiffs_nucleus.c:1425-1441 | an append whose first data page cannot be had programs length 0 into the header |
| Appending.LengthStuck | 示例/IOTTS_EXample/SYSTEM/spiffs/spiffs_nucleus.c:1429-1437 | an append under the header page of a file whose length word is 0 stores the new pages and references, on a consistent medium, and the length stays 0 |
| Files.GrowPage | 示例/IOTTS_EXample/SYSTEM/spiffs/spiffs_nucleus.c:1345-1395 | adding bytes to the last page or as a new last page turns a file that is growing into the next stage of growing |
| Files.GrowExtent | 示例/IOTTS_EXample/SYSTEM/spiffs/spiffs_nucleus.c:1345-1395 | data pages stay contiguous from span 0 and the bytes behind the end stay erased when a file grows |
| Files.AlterPage | 示例/IOTTS_EXample/SYSTEM/spiffs/spiffs_nucleus.c:1544-1623 | replacing bytes within one page changes these bytes of the file and no others, and keeps it well-formed |
| Modifying.Modify | 示例/IOTTS_EXample/SYSTEM/spiffs/spiffs_nucleus.c:1459-1658 | modifying inside a file replaces exactly the given range; it stops exactly where no page can be had; at which of its allocations that is follows, as long as every block has an entry that is neither deleted nor of the file, from the pages that could be had right after the room check, which is the state before the call where the check collects nothing; the stage says whether references are lost, and some directory fits the medium if and only if they are not; windows and positions follow when nothing is lost; with enough spare pages it succeeds; the room check grants room exactly if the free entries hold the bytes and one page beside two blocks of them |
| Modifying.ModifiedExact | 示例/IOTTS_EXample/SYSTEM/spiffs/spiffs_nucleus.c:1459-1658 | a modification, stopped or not, leaves the medium consistent if and only if no index page was left unstored |
| Modifying.ModifyRest | 示例/IOTTS_EXample/SYSTEM/spiffs/spiffs_nucleus.c:1476-1655 | past the room check: stops where the plan of its allocations says, and the stage says whether references are lost |
| Plans.ModifyExact | 示例/IOTTS_EXample/SYSTEM/spiffs/spiffs_nucleus.c:1476-1655 | references are kept if and only if the stop is at the first data page under an index page; between two index pages it is the storing of the one before that loses them |
| Modifying.Conclude | 示例/IOTTS_EXample/SYSTEM/spiffs/spiffs_nucleus.c:1625-1655 | the last index page is stored exactly if a page can be had; otherwise its references are lost exactly if any of them changed |
| Modifying.TurnTo | 示例/IOTTS_EXample/SYSTEM/spiffs/spiffs_nucleus.c:1480-1541 | the index page in the buffer is stored before the next is loaded; this fails exactly if no page can be had, and then changes nothing |
| Modifying.Step | 示例/IOTTS_EXample/SYSTEM/spiffs/spiffs_nucleus.c:1544-1623 | one round of the loop: to the next index page if need be, and one page; it gets on, and fails exactly when no page can be had |
| Modifying.ReplaceChunk | 示例/IOTTS_EXample/SYSTEM/spiffs/spiffs_nucleus.c:1544-1623 | one step of a modification: a new data page takes the place of the old one, the reference follows, and only the given bytes differ |
| Modifying.CopyPage | 示例/IOTTS_EXample/SYSTEM/spiffs/spiffs_nucleus.c:1564-1604 | a partial page update writes a copy with the new bytes in place to an erased slot |
| Modifying.StoreChanged | 示例/IOTTS_EXample/SYSTEM/spiffs/spiffs_nucleus.c:1630-1655 | the changed index page is stored in a new slot and descriptors and windows are told; it fails exactly if no page can be had, and then changes nothing |
| Modifying.LoadChanged | 示例/IOTTS_EXample/SYSTEM/spiffs/spiffs_nucleus.c:1513-1541 | the index page a modification goes on with, by cursor or by search, is the live one |
| EmptyWrite.StoredExact | 示例/IOTTS_EXample/SYSTEM/spiffs/spiffs_nucleus.c:1649-1655 | storing a work buffer as header keeps the meaning of a medium if and only if it is the header that is there |
| EmptyWrite.ModifyNothing | 示例/IOTTS_EXample/SYSTEM/spiffs/spiffs_nucleus.c:1476-1655 | a modification of no bytes moves the header and gives it whatever the work buffer holds |
| EmptyWrite.WriteNothing | 示例/IOTTS_EXample/SYSTEM/spiffs/spiffs_hydrogen.c:435-455 | an empty write at or behind the end does nothing; inside the file the header becomes whatever the work buffer holds |
| EmptyWrite.AnyBuffer | 示例/IOTTS_EXample/SYSTEM/spiffs/spiffs_hydrogen.c:435-455 | an empty write keeps what the medium means for every work buffer if and only if it is not inside the file; inside, a header one byte too long is a buffer that breaks it |
| Holding.HeldReplace | 示例/IOTTS_EXample/SYSTEM/spiffs/spiffs_nucleus.c:1606-1618 | replacing a data page and noting it in the buffered index page keeps the medium consistent as seen through the buffer |
| Holding.HeldAdd | 示例/IOTTS_EXample/SYSTEM/spiffs/spiffs_nucleus.c:1377-1389 | adding a data page and noting it in the buffered index page keeps the medium consistent as seen through the buffer |
| Holding.HeldRef | 示例/IOTTS_EXample/SYSTEM/spiffs/spiffs_check.c:54-79 | an entry of an index page is the live data page of its span, and empty if and only if there is none |
| Holding.HeldHeader | 示例/IOTTS_EXample/SYSTEM/spiffs/spiffs_nucleus.c:979-1037 | a header stored with another name or length changes the name or the length and nothing else |
| Holding.QuickKeeps | 示例/IOTTS_EXample/SYSTEM/spiffs/spiffs_gc.c:32-100 | a quick collection keeps a consistent medium consistent with the same meaning |
| Removal.Truncate | 示例/IOTTS_EXample/SYSTEM/spiffs/spiffs_nucleus.c:1727-1963 | removing cannot fail and allocates nothing: exactly the entries of the object are deleted, every other entry and page is untouched, its descriptors are closed; truncating to nothing leaves an empty file of the same name and no other change, and where it stops in the middle no page could be had and the object is no file of any length while all others are as they were; as long as no block can come to be deleted throughout it succeeds if and only if more pages could be had right after the room check than the file has index pages behind its header; a file that is empty is left as it is |
| Removal.TruncateRoom | 示例/IOTTS_EXample/SYSTEM/spiffs/spiffs_nucleus.c:1738-1742 | the room check of a truncation keeps a consistent medium unless a collection fails; on a medium where collecting gets nowhere no page can be had after it; it grants room exactly if the free entries hold two pages beside two blocks of them |
| Removal.TruncatePages | 示例/IOTTS_EXample/SYSTEM/spiffs/spiffs_nucleus.c:1744-1963 | once there is room, all pages of the file go from the last on and the header is deleted or stored anew; each index page behind the header takes one allocation and so does the header |
| Removal.TruncatedMaps | 示例/IOTTS_EXample/SYSTEM/spiffs/spiffs_nucleus.c:1041-1130 | after a truncation windows agree with the medium if and only if those of the file are empty, as its data pages are gone and no event says so |
| Removal.DeletePages | 示例/IOTTS_EXample/SYSTEM/spiffs/spiffs_nucleus.c:1765-1906 | from the last page on, each data page is deleted with its reference, each index page once nothing is under it, while the medium stays consistent as seen through the buffer; a truncation that stops here could have no page, and the object is no file of any length while the others are as they were |
| Removal.EnterLast | 示例/IOTTS_EXample/SYSTEM/spiffs/spiffs_nucleus.c:1771-1815 | when the last index page is done with it is deleted and the one before loaded; a truncation that cannot store the shorter length stops with this object not in order and no other changed |
| Removal.DropLast | 示例/IOTTS_EXample/SYSTEM/spiffs/spiffs_nucleus.c:1765-1906 | one round of the loop: the last data page goes, and the index page behind it, for which the shorter length takes one page, in place of the one deleted |
| Removal.ShortenHeader | 示例/IOTTS_EXample/SYSTEM/spiffs/spiffs_nucleus.c:1786-1795 | the shorter length is stored in a new header and the descriptors are told; where no page can be had nothing changes |
| Removal.DeleteData | 示例/IOTTS_EXample/SYSTEM/spiffs/spiffs_nucleus.c:1818-1856 | the last data page goes and its entry in the buffered index page with it |
| Removal.DeleteIndex | 示例/IOTTS_EXample/SYSTEM/spiffs/spiffs_nucleus.c:1771-1797 | an index page without entries is deleted, the descriptors are told, and a file that stays gets its shorter length; where that cannot be stored no page can be had |
| Removal.FinishRemoval | 示例/IOTTS_EXample/SYSTEM/spiffs/spiffs_nucleus.c:1912-1922 | deleting the header page removes the object and closes its descriptors |
| Removal.FinishTruncation | 示例/IOTTS_EXample/SYSTEM/spiffs/spiffs_nucleus.c:1923-1931 | the header is stored without references and with an erased length word; where no page can be had nothing changes |
| Removal.MarkHeader | 示例/IOTTS_EXample/SYSTEM/spiffs/spiffs_nucleus.c:1755-1763 | a medium whose header is marked for removal, taken without the mark, is the medium as it was |
| Removal.TrimIndex | 示例/IOTTS_EXample/SYSTEM/spiffs/spiffs_nucleus.c:1771-1797 | after the last index page is gone the object has one index page less and descriptors do not point at it |
| Store.FindEntry | 示例/IOTTS_EXample/SYSTEM/spiffs/spiffs_nucleus.c:124-223 | the wrapping search from any cursor ends, finds the first accepted entry in cyclic order, and reports none exactly if none is accepted; entry after entry is looked at in cyclic order, and a search that finds nothing looks at all entries once, and at those behind the cursor in its block once more |
| Store.FindId | 示例/IOTTS_EXample/SYSTEM/spiffs/spiffs_nucleus.c:485-498 | finds the first entry holding an id from any cursor, or there is none |
| Store.Spiffs.FindIdAndSpan | 示例/IOTTS_EXample/SYSTEM/spiffs/spiffs_nucleus.c:527-562 | finds a finalized, undeleted page of the id and span, or there is none |
| Store.MatchIsFiled | 示例/IOTTS_EXample/SYSTEM/spiffs/spiffs_nucleus.c:501-562 | on a consistent medium the page found by id and span is the same for every cursor: the one the directory has |
| Store.ChecksTell | 示例/IOTTS_EXample/SYSTEM/spiffs/spiffs_nucleus.c:18-58 | what the checks of index and data pages say of a page laid out as its entry says, of an erased and of a deleted one |
| Store.Spiffs.FindFree | 示例/IOTTS_EXample/SYSTEM/spiffs/spiffs_nucleus.c:449-480 | picks the first free entry from the free cursor on, erased and first free of its block, and moves the cursor past it; it succeeds exactly if a page can be had, and takes one entry of the certain room |
| Store.Spiffs.EnsureRoom | 示例/IOTTS_EXample/SYSTEM/spiffs/spiffs_nucleus.c:456-465 | an allocation is refused exactly if fewer than two blocks are free and no fully deleted block makes up for it |
| Store.FoundFirstOfBlock | 示例/IOTTS_EXample/SYSTEM/spiffs/spiffs_nucleus.c:449-480 | what the search for a free entry meets first is the first free entry of its block, so free entries stay a suffix of every block |
| Store.Spiffs.AllocateData | 示例/IOTTS_EXample/SYSTEM/spiffs/spiffs_nucleus.c:753-806 | the ANDed writes of an allocation leave exactly the page meant in a free slot, the counters tally, and it succeeds exactly if a page can be had; it uses up at most one spare page |
| Store.Spiffs.PageMove | 示例/IOTTS_EXample/SYSTEM/spiffs/spiffs_nucleus.c:812-871 | a move leaves the page in the first free slot and the source deleted, is logged write by write, keeps the counters, and during a collection succeeds whenever any entry is free |
| Store.Spiffs.LeftExact | 示例/IOTTS_EXample/SYSTEM/spiffs/spiffs_nucleus.c:449-480 | while no block is deleted throughout, a page can be had if and only if the count of pages that can be had is not 0 |
| Store.QuotaTaken | 示例/IOTTS_EXample/SYSTEM/spiffs/spiffs_nucleus.c:449-480 | taking the entry the search finds first, wherever the free entries are, makes the count of pages that can be had one less |
| Store.HoldDrop | 示例/IOTTS_EXample/SYSTEM/spiffs/spiffs_nucleus.c:876-907 | deleting an entry brings a block at most one closer to being deleted throughout |
| Store.HoldSteady | 示例/IOTTS_EXample/SYSTEM/spiffs/spiffs_gc.c:32-100 | and until that distance is used up there is no block a quick collection could erase |
| Store.MoveRuns | 示例/IOTTS_EXample/SYSTEM/spiffs/spiffs_nucleus.c:812-871 | run as ANDs on an erased target, the writes of a move leave exactly the moved page |
| Store.Spiffs.PageDelete | 示例/IOTTS_EXample/SYSTEM/spiffs/spiffs_nucleus.c:876-907 | marks a page deleted in lookup and header and keeps the counters |
| Store.Spiffs.EraseBlock | 示例/IOTTS_EXample/SYSTEM/spiffs/spiffs_nucleus.c:226-262 | erases a block, stores its erase count and counts one more free block |
| Store.Spiffs.GcQuick | 示例/IOTTS_EXample/SYSTEM/spiffs/spiffs_gc.c:32-100 | erases the first block whose entries are all deleted, if there is one, and no other, and keeps counters and cursor right |
| Store.Spiffs.ObjectEvent | 示例/IOTTS_EXample/SYSTEM/spiffs/spiffs_nucleus.c:1041-1130 | every descriptor of the object is told of a changed index page, header, length, position, pending bytes, cursor and window, and no other is touched |
| Window.UpdateMap | 示例/IOTTS_EXample/SYSTEM/spiffs/spiffs_nucleus.c:606-656 | taking the references of an index page over into a window changes each entry it reaches before the first empty reference, and no other |
| Window.ToldAgrees | 示例/IOTTS_EXample/SYSTEM/spiffs/spiffs_nucleus.c:606-656 | a window that agrees but for the pages under one index page agrees everywhere once it was told that page |
| Maps.MapsTold | 示例/IOTTS_EXample/SYSTEM/spiffs/spiffs_nucleus.c:1117-1130 | the event of a stored index page brings every window of the file back into agreement, those of other files staying so |
| Following.FollowEvent | 示例/IOTTS_EXample/SYSTEM/spiffs/spiffs_nucleus.c:1041-1130 | after the event of a stored index page every window agrees, and the writer stays where it is with its pending bytes |
| Maps.UntouchedEvents | 示例/IOTTS_EXample/SYSTEM/spiffs/spiffs_nucleus.c:1072-1093 | an event that tells the known length leaves every user of the file where it is |
| Store.Spiffs.UpdateIndexHdr | 示例/IOTTS_EXample/SYSTEM/spiffs/spiffs_nucleus.c:979-1037 | a header is stored in a new slot with the fields given, the descriptors are told, and it succeeds exactly if the page is an index header and a slot can be had |
| Tally.PlaceTally | 示例/IOTTS_EXample/SYSTEM/spiffs/spiffs_nucleus.c:466-474 | taking the first free entry of a block keeps free entries last in every block, the cursor right, and moves the counts by one |
| Tally.EraseTally | 示例/IOTTS_EXample/SYSTEM/spiffs/spiffs_gc.c:9-27 | erasing a block keeps free entries last in every block and moves the counts by what the block held |
| Tally.DropTally | 示例/IOTTS_EXample/SYSTEM/spiffs/spiffs_nucleus.c:876-893 | deleting an entry keeps free entries last and moves one entry from used to deleted |
| Tally.CountKinds | 示例/IOTTS_EXample/SYSTEM/spiffs/spiffs_gc.c:113-115 | used, deleted and free entries add up to all entries |
| Tally.TailEntries | 示例/IOTTS_EXample/SYSTEM/spiffs/spiffs_gc.c:113-115 | free entries are those of the free blocks, those behind the cursor in its block, and perhaps others |
| Directory.PutData | 示例/IOTTS_EXample/SYSTEM/spiffs/spiffs_nucleus.c:1606-1618 | a data page written to a free slot with its reference updated keeps the medium consistent and changes the meaning of one key |
| Directory.PutIndex | 示例/IOTTS_EXample/SYSTEM/spiffs/spiffs_nucleus.c:812-871 | an index page stored in another slot, or a new one, keeps the medium consistent and changes the meaning of one key |
| Directory.DropData | 示例/IOTTS_EXample/SYSTEM/spiffs/spiffs_nucleus.c:1818-1846 | a data page deleted with its reference cleared keeps the medium consistent and takes one key from the meaning |
| Directory.DropIndex | 示例/IOTTS_EXample/SYSTEM/spiffs/spiffs_nucleus.c:1775-1781 | an index page without references can be deleted, the header last |
| Directory.Rewrite | 示例/IOTTS_EXample/SYSTEM/spiffs/spiffs_nucleus.c:1259-1283 | a page rewritten in place without changing references keeps the medium consistent |
| Directory.LiveSame | 示例/IOTTS_EXample/SYSTEM/spiffs/spiffs_gc.c:9-27 | what happens to pages that are not live does not change what the medium means |
| Directory.LossShows | 示例/IOTTS_EXample/SYSTEM/spiffs/spiffs_gc.c:377-604 | a medium that lost a changed index page is consistent with no directory at all |
| Directory.LossBreaks | 示例/IOTTS_EXample/SYSTEM/spiffs/spiffs_gc.c:377-604 | a lost index page harms exactly one object: all pages of an object are in place if and only if it is not the owner of that page |
| Medium.ProgramExact | 示例/IOTTS_EXample/SYSTEM/spiffs/spiffs_nucleus.c:1259-1281 | programming a page whose words are erased or already have their value stores exactly that page |
| Medium.RunAppend | 示例/IOTTS_EXample/SYSTEM/spiffs/spiffs_nucleus.c:812-871 | running writes one after the other is running the two parts one after the other |
| Words.AndDigits | 示例/IOTTS_EXample/SYSTEM/spiffs/spiffs_nucleus.c:876-907 | the AND of any two words, whatever their signs, has a one exactly where both have one |
| Words.DigitsSame | 示例/IOTTS_EXample/SYSTEM/spiffs/spiffs_nucleus.c:876-907 | words with the same digits are the same, so that this law leaves no choice what AND is |
| Layout.IxRoundTrip | 示例/IOTTS_EXample/SYSTEM/spiffs/spiffs_check.c:584-594 | index page and entry computed from a span lead back to the span |
| Layout.IxInjective | 示例/IOTTS_EXample/SYSTEM/spiffs/spiffs_check.c:54-69 | no two spans share an index entry |
| Layout.PageNumberRoundTrip | 示例/IOTTS_EXample/SYSTEM/spiffs/spiffs_nucleus.c:876-907 | block and entry can be recovered from a page number, and no lookup entry stands for a lookup page |
| Layout.PageNumberOnto | 示例/IOTTS_EXample/SYSTEM/spiffs/spiffs_check.c:601-602 | every page number that is no lookup page is the page of one lookup entry |
| Collector.Clean | 示例/IOTTS_EXample/SYSTEM/spiffs/spiffs_gc.c:377-604 | on any medium a success leaves no live entry in the block; on a consistent one it succeeds exactly if the free entries outside the block are as many as the pages to be written (those in the block, and the index pages that refer to them), keeps the meaning and what the users of descriptors see; where it fails at most one index page is lost |
| Collector.Step | 示例/IOTTS_EXample/SYSTEM/spiffs/spiffs_gc.c:400-599 | one scan of the block and the switch of states after it keep what the next state relies on, the meaning, and the slack exactly; a failure means there was none; the machine comes closer to its end |
| Collector.MoveGroup | 示例/IOTTS_EXample/SYSTEM/spiffs/spiffs_gc.c:433-590 | a round moves every data page of one index page out of the block and stores the index page; slack is kept, and a failure means there was none |
| Collector.MoveData | 示例/IOTTS_EXample/SYSTEM/spiffs/spiffs_gc.c:433-477 | all data pages of the loaded index page leave the block, the buffer follows, and this makes room for the index page itself |
| Collector.MoveOne | 示例/IOTTS_EXample/SYSTEM/spiffs/spiffs_gc.c:435-476 | one data page is moved or scrapped and the buffered index page follows |
| Collector.StoreIndex | 示例/IOTTS_EXample/SYSTEM/spiffs/spiffs_gc.c:569-590 | storing the buffered index page puts flash, directory and descriptors in step again |
| Collector.LoadIndex | 示例/IOTTS_EXample/SYSTEM/spiffs/spiffs_gc.c:527-561 | finds and loads the index page of a data page; a data page without one is deleted |
| Collector.MoveIndexes | 示例/IOTTS_EXample/SYSTEM/spiffs/spiffs_gc.c:478-519 | every index page left in the block is moved out, the descriptors following |
| Collector.MoveIndex | 示例/IOTTS_EXample/SYSTEM/spiffs/spiffs_gc.c:478-519 | one index page is moved or scrapped and the descriptors are told |
| Collector.RotateOn | 示例/IOTTS_EXample/SYSTEM/spiffs/spiffs_gc.c:478-519 | one more index page of a full block goes to the next entry of the free block in front of the cursor |
| Collector.FindData | 示例/IOTTS_EXample/SYSTEM/spiffs/spiffs_gc.c:408-431 | the scan passes over everything but data pages, so none is left behind the cursor |
| Collector.DataMoveStep | 示例/IOTTS_EXample/SYSTEM/spiffs/spiffs_gc.c:448-474 | copying a data page and updating the buffered index page keeps the meaning |
| Collector.IndexMoveStep | 示例/IOTTS_EXample/SYSTEM/spiffs/spiffs_nucleus.c:812-871 | storing the buffered index page in another slot keeps the meaning of all other pages |
| Slack.RoomForNext | 示例/IOTTS_EXample/SYSTEM/spiffs/spiffs_gc.c:377-604 | with pages to be written and slack there is a free entry for the next; without a free entry there is no slack |
| Slack.DataMoved | 示例/IOTTS_EXample/SYSTEM/spiffs/spiffs_gc.c:433-477 | moving a data page of the index page in the buffer leaves the slack as it is |
| Slack.IndexMoved | 示例/IOTTS_EXample/SYSTEM/spiffs/spiffs_gc.c:478-519 | storing an index page that was to be written leaves the slack as it is |
| Slack.ReserveSuffices | 示例/IOTTS_EXample/SYSTEM/spiffs/spiffs_gc.c:113-121 | two blocks worth of free entries are enough to empty any block, whatever it holds |
| Slack.SlackGain | 示例/IOTTS_EXample/SYSTEM/spiffs/spiffs_gc.c:377-604 | what is free when a block has been emptied and erased is what was free before, and its deleted entries, less the index pages outside it that refer to its data pages |
| Slack.LiveCount | 示例/IOTTS_EXample/SYSTEM/spiffs/spiffs_nucleus.c:320-342 | the count of entries in use is the number of pages a consistent medium means |
| Reclaim.Check | 示例/IOTTS_EXample/SYSTEM/spiffs/spiffs_gc.c:109-196 | makes room for the bytes asked for: without collecting nothing changes; otherwise, where no collection fails, room is granted if and only if the free entries beside two blocks of them hold the bytes in the end; the rounds made are accounted for one by one (the estimate grows by the gain of each block collected, the first being the foremost, and another round follows exactly as stated), so that the answer is that of the last estimate; room that was there before is refused only if some round lost some; with five blocks to spare it is granted; where the five foremost blocks lose room each, just enough room is refused; a consistent medium keeps its meaning and its descriptors whatever the answer, unless a collection failed, and then there was no slack for its block and less than two blocks were free; on a medium where each collection fills the free block and frees the next (Circles), all runs are made and room is granted with one block free and no page to be had |
| Reclaim.SpareIsFree | 示例/IOTTS_EXample/SYSTEM/spiffs/spiffs_gc.c:113-121 | the pages that can be had for certain are part of the estimate of free pages |
| Reclaim.CollectBlock | 示例/IOTTS_EXample/SYSTEM/spiffs/spiffs_gc.c:153-169 | a collected block is entirely free; on a consistent medium the collection succeeds exactly if there is slack for the block, which there is if the estimate of free pages is not negative, and then changes the estimate by exactly the gain of the block: its deleted entries less the index pages outside it that refer into it; otherwise at most one index page is lost, and it is lost if only one entry is free and a data page must move |
| Reclaim.CollectBest | 示例/IOTTS_EXample/SYSTEM/spiffs/spiffs_gc.c:141-180 | collects the block that comes first by its deleted and used entries and its age: that one is free afterwards and has the next erase count, and the estimate changes by its gain; where collections get nowhere it is the one behind the free block |
| Circling.CirclesBest | 示例/IOTTS_EXample/SYSTEM/spiffs/spiffs_gc.c:254-362 | with no entry deleted and fewer entries in a block than the weight of an erase count, the block erased longest ago scores highest |
| Circling.CirclesOn | 示例/IOTTS_EXample/SYSTEM/spiffs/spiffs_gc.c:109-196 | a block of index pages moved to the free block and erased leaves a medium on which the next collection does the same one block on |
| Circling.IdleStock | 示例/IOTTS_EXample/SYSTEM/spiffs/spiffs_gc.c:32-100 | with one block free and no entry deleted no page can be had, and a block comes to be deleted throughout only when all its entries are |
| Circling.DrainsGain | 示例/IOTTS_EXample/SYSTEM/spiffs/spiffs_gc.c:109-196 | collecting a block of nothing but data pages lowers the number of free entries |
| Circling.DrainsBest | 示例/IOTTS_EXample/SYSTEM/spiffs/spiffs_gc.c:254-362 | of blocks without deleted entries, the one erased longest ago comes first, if blocks have at most four entries and it is full of data pages |
| Reclaim.EraseEmptied | 示例/IOTTS_EXample/SYSTEM/spiffs/spiffs_gc.c:9-27 | erasing an emptied block settles the counters exactly; the free block counter runs ahead by one if and only if the block was free already |
| Reclaim.ErasePageStats | 示例/IOTTS_EXample/SYSTEM/spiffs/spiffs_gc.c:199-233 | takes exactly the used and deleted entries of the block out of the statistics |
| Reclaim.FreePagesCount | 示例/IOTTS_EXample/SYSTEM/spiffs/spiffs_gc.c:113-115 | the estimate of free pages is the number of free entries less two blocks |
| Candidates.FindCandidate | 示例/IOTTS_EXample/SYSTEM/spiffs/spiffs_gc.c:236-345 | the table holds the best blocks: distinct, by falling score, ties by block number, and no block left out goes before one kept; in terms of what the blocks hold: with equal erase counts more deleted and fewer used entries come first, one deleted entry outweighs four used ones and five are worth the same; unless the medium is crammed the longer unerased of two alike comes first, one erase outweighs nine deleted entries or forty-nine used ones, and ten deleted ones are worth the same; on a crammed medium age makes no difference |
| Candidates.RankedTop | 示例/IOTTS_EXample/SYSTEM/spiffs/spiffs_gc.c:295-315 | a table in the order of the scores is in that order of deleted and used entries and ages |
| Candidates.Insert | 示例/IOTTS_EXample/SYSTEM/spiffs/spiffs_gc.c:316-335 | a block goes in front of the first entry that is empty or scores less; the entries behind move down and the last falls out |
| Candidates.InsertKeepsTop | 示例/IOTTS_EXample/SYSTEM/spiffs/spiffs_gc.c:316-335 | a table of the best so far stays one when the next block is put in |
| Candidates.CountBlock | 示例/IOTTS_EXample/SYSTEM/spiffs/spiffs_gc.c:266-293 | stopping at the first free entry counts all used and deleted entries of the block |
| Names.FindByName | 示例/IOTTS_EXample/SYSTEM/spiffs/spiffs_nucleus.c:1691-1723 | finds a finalized header of that name that is not being removed, or there is none |
| Names.NameUnique | 示例/IOTTS_EXample/SYSTEM/spiffs/spiffs_nucleus.c:1691-1723 | when names differ the header found does not depend on the cursor |
| Names.FindFreeId | 示例/IOTTS_EXample/SYSTEM/spiffs/spiffs_nucleus.c:2133-2169 | returns the lowest id no live entry carries; reports full if every id of the bitmap is taken, and a conflict if and only if the name is in use |
| Names.MarkIds | 示例/IOTTS_EXample/SYSTEM/spiffs/spiffs_nucleus.c:2066-2097 | a bit is set if and only if some live entry carries its id |
| FileSystem.StoredName | 示例/IOTTS_EXample/SYSTEM/spiffs/spiffs_nucleus.c:945-947 | a path that fits is read back from its stored form |
| FileSystem.OneChanged | 示例/IOTTS_EXample/SYSTEM/spiffs/spiffs_nucleus.c:912-972 | if one object became or stayed a well-formed file and no other changed, one file of the file system changed |
| Mount.Scan | 示例/IOTTS_EXample/SYSTEM/spiffs/spiffs_nucleus.c:320-444 | the scan counts free blocks, deleted and used entries as the invariant has them |
| Mount.Format | 示例/IOTTS_EXample/SYSTEM/spiffs/spiffs_hydrogen.c:30-61 | every entry is free and every page erased afterwards |
| Mount.NextCount | 示例/IOTTS_EXample/SYSTEM/spiffs/spiffs_nucleus.c:380-405 | the next erase count is one more than the largest on the medium, or than the smallest where the counts have wrapped around |
| Mount.Mount | 示例/IOTTS_EXample/SYSTEM/spiffs/spiffs_hydrogen.c:71-153 | mounting establishes counters, the free cursor and the next erase count from a scan and, on a consistent medium, everything calls rely on |
| Crash.MoveAtomic | 示例/IOTTS_EXample/SYSTEM/spiffs/spiffs_nucleus.c:812-871 | wherever the writes of a move are cut off, in the middle of a write included, a search for the page finds one, and every page it can find holds exactly the old or the new content |
| Crash.RenameAtomic | 示例/IOTTS_EXample/SYSTEM/spiffs/spiffs_nucleus.c:979-1037 | wherever a rename is cut off the file is found under its old or its new name, and every other header is as it was |
| Crash.RenameInterrupted | 示例/IOTTS_EXample/SYSTEM/spiffs/spiffs_hydrogen.c:873-924 | the same for what a rename really wrote, the quick collection that may come first included |
| ReadCache.CopyAfterWrite | 示例/IOTTS_EXample/SYSTEM/spiffs/spiffs_cache.c:184-225 | a cached copy written through stays a true copy if and only if the write only cleared bits |
| ReadCache.BlindFlags | 示例/IOTTS_EXample/SYSTEM/spiffs/spiffs_check.c:156-176 | marking a header for deletion with a byte of ones but for one bit sets bits in the cached copy that the chip does not have |
| ReadCache.Cache.PageGet | 示例/IOTTS_EXample/SYSTEM/spiffs/spiffs_cache.c:14-30 | finds the copy of a page if and only if there is one, and counts as an access |
| ReadCache.Cache.PageFree | 示例/IOTTS_EXample/SYSTEM/spiffs/spiffs_cache.c:33-59 | gives up one cache page and leaves the others as they are |
| ReadCache.Cache.RemoveOldest | 示例/IOTTS_EXample/SYSTEM/spiffs/spiffs_cache.c:62-89 | gives up the copy not accessed for longest, only when all pages are in use, and never one with pending bytes |
| ReadCache.Cache.Allocate | 示例/IOTTS_EXample/SYSTEM/spiffs/spiffs_cache.c:92-110 | takes a free cache page into use; fails only if there is none |
| ReadCache.Cache.Drop | 示例/IOTTS_EXample/SYSTEM/spiffs/spiffs_cache.c:113-118 | forgets the copy of one page and no other |
| ReadCache.Cache.Read | 示例/IOTTS_EXample/SYSTEM/spiffs/spiffs_cache.c:123-181 | with a coherent cache a read gives what the chip holds, on a hit, a miss, or past the cache, and keeps the cache coherent and pending bytes in place; afterwards the page is cached unless every cache page holds pending bytes, and at most one other copy was given up for it, the one not accessed for longest, when all were in use |
| ReadCache.Cache.Fetch | 示例/IOTTS_EXample/SYSTEM/spiffs/spiffs_cache.c:150-181 | a page is taken into the cache exactly if there is room, for which at most the oldest copy is given up, and read from it, otherwise read from the chip |
| ReadCache.Cache.Write | 示例/IOTTS_EXample/SYSTEM/spiffs/spiffs_cache.c:184-225 | the chip gets the AND of what it held and what is written; a coherent cache stays coherent if and only if the page is not cached, or is dropped, or the write only clears bits; no copy of another page changes, and the page stays cached unless it is dropped |
| ReadCache.Cache.EraseBlock | 示例/IOTTS_EXample/SYSTEM/spiffs/spiffs_nucleus.c:226-262 | erase, write the count past the cache, drop every page of the block: the cache is coherent again, and no copy of another page was dropped |
| ReadCache.Serve | 示例/IOTTS_EXample/SYSTEM/spiffs/spiffs_cache.c:123-225 | any history of reads, writes and erases whose writes only clear bits or drop the page: the chip is written, and every read gives, what it would be without a cache |
| ReadCache.StoresExactly | 示例/IOTTS_EXample/SYSTEM/spiffs/spiffs_cache.c:184-225 | a write stores exactly what it writes if and only if it only clears bits |
| WriteBack.Descriptor.Write | 示例/IOTTS_EXample/SYSTEM/spiffs/spiffs_hydrogen.c:458-595 | every write, gathered or not, is a plain write to the bytes of the file as the user knows them; gathered bytes stay one gap-free range in one cache page; a failed one ends as a failed write to the stored file does, at the write back, which drops the pending bytes, or at the write itself; bytes that fit in with the pending ones, or small ones when a cache page can be had, only go to the cache page; with enough spare pages for the pending bytes and the new ones it succeeds; the position ends behind what was written, for an appending descriptor counted from the stored length |
| WriteBack.Descriptor.Place | 示例/IOTTS_EXample/SYSTEM/spiffs/spiffs_hydrogen.c:481-500 | an appending write goes to the end of what the user wrote, pending bytes included |
| WriteBack.Descriptor.MakeWay | 示例/IOTTS_EXample/SYSTEM/spiffs/spiffs_hydrogen.c:507-583 | pending bytes are written back if and only if the next ones do not fit in with them; with enough spare pages that succeeds and leaves the rest of them |
| WriteBack.Descriptor.Gather | 示例/IOTTS_EXample/SYSTEM/spiffs/spiffs_hydrogen.c:544-563 | bytes put into the cache page follow or overwrite the pending ones |
| WriteBack.Descriptor.TryGather | 示例/IOTTS_EXample/SYSTEM/spiffs/spiffs_hydrogen.c:530-567 | a cache page is taken if one can be had, and the write lands in it |
| WriteBack.Descriptor.Dump | 示例/IOTTS_EXample/SYSTEM/spiffs/spiffs_hydrogen.c:516-523 | writing back makes the stored file what the user wrote; where it fails the pending bytes are dropped and the stored file is as a failed write leaves it; with enough spare pages it succeeds |
| WriteBack.Descriptor.Flush | 示例/IOTTS_EXample/SYSTEM/spiffs/spiffs_hydrogen.c:802-832 | after a flush the stored file is what the user wrote and nothing is pending; after a failed one nothing is pending either; with enough spare pages it succeeds |
| WriteBack.Descriptor.Seek | 示例/IOTTS_EXample/SYSTEM/spiffs/spiffs_hydrogen.c:597-645 | seeking flushes, whatever the outcome, and stops at the end of the file; with enough spare pages the flush succeeds |
| WriteBack.Descriptor.Read | 示例/IOTTS_EXample/SYSTEM/spiffs/spiffs_hydrogen.c:370-422 | a read gives what the user wrote, except from a file of which nothing is stored yet, where it gives nothing even if bytes are pending; with enough spare pages the flush succeeds, and the end is reported exactly if nothing is stored or the position is at the end |
| WriteBack.OpenNew | 示例/IOTTS_EXample/SYSTEM/spiffs/spiffs_hydrogen.c:209-288 | a file just opened by name is handed to its user at its start with nothing pending, and what the user sees is what is stored, nothing if it was made or truncated |
| WriteBack.RenamePosition | 示例/IOTTS_EXample/SYSTEM/spiffs/spiffs_nucleus.c:1072-1093 | the event of a rename leaves the position of a descriptor where it is if and only if something is stored of the file or the position is 0 |
| WriteBack.RenameOpen | 示例/IOTTS_EXample/SYSTEM/spiffs/spiffs_hydrogen.c:873-924 | renaming a file that is open: what its user wrote stays, pending bytes included; the position goes back to 0 exactly if nothing is stored |
| WriteBack.ReadMissesPending | 示例/IOTTS_EXample/SYSTEM/spiffs/spiffs_hydrogen.c:370-423 | bytes gathered for an empty file, then a rename, then a read: the position is back at 0 and the read finds nothing |
| IndexMap.Populate | 示例/IOTTS_EXample/SYSTEM/spiffs/spiffs_nucleus.c:665-744 | populating finds every index page of the range: each entry is the live page of its span, and populated if the file has one |
| IndexMap.Open | 示例/IOTTS_EXample/SYSTEM/spiffs/spiffs_hydrogen.c:1245-1277 | a window opened on a descriptor agrees with the medium and has every page of the range that the file has; refused exactly if there is one already |
| IndexMap.SpanHolds | 示例/IOTTS_EXample/SYSTEM/spiffs/spiffs_hydrogen.c:1245-1277 | the first data page of a window is the one that holds the byte it was opened at |
| IndexMap.ShiftDown | 示例/IOTTS_EXample/SYSTEM/spiffs/spiffs_hydrogen.c:1337-1346 | the overlapping move to the front in place keeps every entry that stays inside and empties the rest |
| IndexMap.ShiftUp | 示例/IOTTS_EXample/SYSTEM/spiffs/spiffs_hydrogen.c:1347-1357 | the overlapping move to the back in place keeps every entry that stays inside and empties the rest |
| IndexMap.Remap | 示例/IOTTS_EXample/SYSTEM/spiffs/spiffs_hydrogen.c:1302-1363 | a window moved by less than its length agrees with the medium again, and is full if it was |
| IndexMap.Unmap | 示例/IOTTS_EXample/SYSTEM/spiffs/spiffs_hydrogen.c:1279-1300 | closing a window takes it from the descriptor and changes nothing else; refused exactly if there is none |
| PageCheck.Check | 示例/IOTTS_EXample/SYSTEM/spiffs/spiffs_check.c:522-861 | whatever the window size, the check ends quietly if and only if every reference is good, no page is referred to twice, and every used data page is referred to |
| PageCheck.ScanWindow | 示例/IOTTS_EXample/SYSTEM/spiffs/spiffs_check.c:530-727 | without trouble each page of the window has exactly the bits used, referenced and index that it deserves; trouble means a bad or a double reference |
| PageCheck.ScanPage | 示例/IOTTS_EXample/SYSTEM/spiffs/spiffs_check.c:544-722 | one page and, if it is a live index page, all its entries are noted |
| PageCheck.Judge | 示例/IOTTS_EXample/SYSTEM/spiffs/spiffs_check.c:724-815 | finds a page that is used, not referred to and no index page, if there is one |
| PageCheck.CheckLookup | 示例/IOTTS_EXample/SYSTEM/spiffs/spiffs_check.c:458-510 | looks at every lookup entry and is quiet if and only if each agrees with its page header |
| PageCheck.ValidateExact | 示例/IOTTS_EXample/SYSTEM/spiffs/spiffs_check.c:179-455 | nothing is found exactly if entry and header agree: deleted entries have pages marked deleted, free ones unused pages, others finished pages of their object and kind; and what is found is so |
| PageCheck.LinkedPasses | 示例/IOTTS_EXample/SYSTEM/spiffs/spiffs_check.c:522-861 | a consistent medium passes the page check |
| PageCheck.CheckedExact | 示例/IOTTS_EXample/SYSTEM/spiffs/spiffs_check.c:522-861 | on a medium whose pages are laid out as their entries say some directory fits if and only if the page check finds nothing, no index page is there twice, and every index page has a header beside it |
| PageCheck.PassedLinked | 示例/IOTTS_EXample/SYSTEM/spiffs/spiffs_check.c:522-861 | then the directory is the one that has each live page where it is |
| PageCheck.ReachedPasses | 示例/IOTTS_EXample/SYSTEM/spiffs/spiffs_check.c:488-876 | between calls of any history neither check has anything to mend |
| Flaws.CreatLoses | 示例/IOTTS_EXample/SYSTEM/spiffs/spiffs_gc.c:109-196 | a medium of four blocks with one file on which making any other file destroys the first: no directory makes it a file afterwards |
| Flaws.FreshDrifts | 示例/IOTTS_EXample/SYSTEM/spiffs/spiffs_gc.c:9-27 | making the first file on any freshly formatted medium of three blocks leaves the counter of free blocks above their number |
| Flaws.AppendStops | 示例/IOTTS_EXample/SYSTEM/spiffs/spiffs_nucleus.c:1212-1453 | an append that passes the room check, but needs more pages with its index pages than fit beside one free block, stops in the middle |
| Flaws.StopsHere | 示例/IOTTS_EXample/SYSTEM/spiffs/spiffs_nucleus.c:1212-1453 | a medium of five blocks on which writing nine bytes to an empty file stops in the middle though eleven pages are counted as free |
| Stops.IndexTooMany | 示例/IOTTS_EXample/SYSTEM/spiffs/spiffs_nucleus.c:1212-1453 | a medium of five blocks with five empty files: writing five bytes to the first passes the room check and leaves four bytes counted by the header with one index page too many, so that no directory makes it a file |
| Stops.ReferencesLost | 示例/IOTTS_EXample/SYSTEM/spiffs/spiffs_nucleus.c:1459-1658 | a medium of ten blocks with a file of six bytes and six empty ones: changing five of its bytes passes the room check, replaces all of them and loses the last references, so that no directory fits the medium |
| Stops.LeftAtZero | 示例/IOTTS_EXample/SYSTEM/spiffs/spiffs_nucleus.c:1425-1441 | a medium of eight blocks on which five collections get nowhere: writing a byte to an empty file passes the room check, writes nothing and leaves length 0 in the header, which no length can be stored over and no file has |
| Stops.StuckHere | 示例/IOTTS_EXample/SYSTEM/spiffs/spiffs_nucleus.c:1429-1437 | no length programmed over length 0 changes it |
| Stops.TruncationStops | 示例/IOTTS_EXample/SYSTEM/spiffs/spiffs_nucleus.c:1727-1963 | the same medium: emptying its file of one byte passes the room check and stops with the file no file of any length |
| Stops.RoomLost | 示例/IOTTS_EXample/SYSTEM/spiffs/spiffs_gc.c:109-196 | a medium of seventeen blocks with a file of five bytes: appending four, for which there is room, is refused, because the room check collects five blocks and loses a free entry with each; the files are as they were |
| Stops.QuotaBehind | 示例/IOTTS_EXample/SYSTEM/spiffs/spiffs_nucleus.c:449-480 | how many pages can be had at the end of a medium: all free entries up to the next block and in the blocks behind but for two, and one more |
| Flaws.HeaderMissed | 示例/IOTTS_EXample/SYSTEM/spiffs/spiffs_nucleus.c:1060-1071 | a descriptor learns of a header move exactly if its score is not 0 |
| Flaws.RenameUnder | 示例/IOTTS_EXample/SYSTEM/spiffs/spiffs_nucleus.c:1060-1093 | after a rename an open descriptor knows where the header is if and only if its score is not 0; otherwise it points at a deleted page |
| Flaws.OpenedStale | 示例/IOTTS_EXample/SYSTEM/spiffs/spiffs_nucleus.c:1172-1207 | a file opened by its page while descriptors are left that were never used, and then renamed: the descriptor points at a deleted page |

## Left out

- History.Run: a history ends with a call that leaves a file not in order; calls on a medium that has lost an index page are the business of the repair branches, which are not modelled.
- History.Do: what is enough for a call to succeed is sufficient, not necessary; when a single allocation, page move, collection or header update succeeds is exact. Windows and open descriptors of several files at once are treated at the level of the calls in Api, not in a history, where every call closes what it opened.
- Modifying.Modify: where a modification stops is not foreseen when some block has nothing but deleted entries and pages of the file, so that it can be erased during the call; and where the room check collects, it is foreseen from the medium the check leaves.
- Appending.Append: likewise not foreseen when some block has no more entries that are not deleted than the append deletes copies of the header, or from before a room check that collects.
- Removal.Truncate: whether a truncation stops is not foreseen when some block has no more entries, beside deleted ones and the file's own, than the truncation stores headers, or from before a room check that collects. Only truncation to nothing, the only one that is called; truncating needs a descriptor that events reach, removing does not.
- Reclaim.Check: room granted after a collection is counted in free entries; that later allocations then succeed is claimed only of a medium with spare pages, because each needs two entirely free blocks however many free entries there are.
- FileIO.Write: empty buffers are excluded here and treated in the module EmptyWrite; a descriptor of an empty file is taken to stand at position 0, where seeking leaves it. After a write that fails, positions and windows of descriptors of the same file are not described.
- WriteBack.Descriptor.Write: one cached descriptor for a file; several cached ones together with truncation, and direct and cached ones mixed, are not part of the claim.
- WriteBack.Descriptor.Read: what is read after a write back that failed.
- WriteBack.OpenNew: a descriptor closed with bytes pending or with a window; closing flushes.
- WriteBack.Descriptor.Seek: seeking to an absolute position alone; the page that seeking looks up for the cursor is looked up when it is needed.
- Api.FindFd: the name hash, which prefers a closed descriptor whatever its score and presets the search cursor; a hit on a descriptor that was never opened presets it to the entry before the first.
- Api.OpenByPage: the score of a descriptor and its number are set here rather than when it is chosen.
- IndexMap.Remap: moving a window by its full length or more.
- Mount.Mount: blocks marked by the magic number and the erasing of one that is not.
- Names.FindFreeId: the compacting branch for more ids than the bitmap holds; the number of ids is required to fit.
- Store.FindEntry: the flag that forbids wrapping around, and lookup pages read one at a time; entries are numbered through. The scans of mounting, of the id bitmap, of windows and of the checks are loops of their own.
- Crash.MoveAtomic: erases are taken to happen or not, a byte of flags likewise.
- PageCheck.Check: what the repair branches do to a damaged medium; the model stops where they would start. The bound on page numbers in the program lets one number too many pass; the model takes the exact bound.
- ReadCache.Serve: that every write of the page store is one that only clears bits is shown of its records (Store.MoveRuns, Store.PlaceRuns), not of bytes.
- Object types, meta data, directory streams, the magic number, mount probing, file callbacks, locking, statistics and visual dumps.
- Hardware errors: each write or erase succeeds; power loss is the subject of the module Crash alone.
- 32-bit overflow of sizes and offsets; words on flash are integers whose all-ones value is -1.
- A descriptor's cursor without an index page, and an unpopulated window entry, are the erased word; the program has page number 0, a lookup page, there.
- Lookup pages themselves: a lookup entry and its page share one slot number, which Layout.PageNumberRoundTrip and Layout.PageNumberOnto justify. Page bytes are records; the read cache alone works on bytes.
- Quick collection with an allowance of free pages, and collection on demand of the user.
- The object index consistency check, which runs between the lookup check and the page check; it and the repair branches of the other two are not modelled.
