# Models of the libraries beneath the set-top-box GUI

Dafny models of six parts of the repository that compute, store or transport data, and proofs of what they are for.
`dafny verify dfyconfig.toml` checks the whole project. Code that works by changing things step by step is modelled by
classes, arrays and loops; every such method is tied to functions on values, about which the laws are proved.

**Teletext cache** (`TxtTables`, `TxtPage`, `Hamming24`, `PacketX28`, `TxtPlain`, `TxtRefine`, `TxtCache`, `TxtSent`,
`PageWalk`, `TopTable`). The decoder keeps one live buffer per magazine in front of a table of compressed pages, writes
a page back when the next header of its magazine arrives, and reloads pages it has seen before. `TxtPlain` says what
this is for: a map from page and subpage to the rows last received. `TxtRefine` proves that the cache stands for that
map after every packet and hence after every run from a cleared cache, and that its index tables stay sound; `TxtCache`
is the packet loop itself; `TxtSent` starts from the bytes of a transmitter and says in digits and characters what the
map then holds. Around it: the run compressor and why its masks are minimal, Hamming 8/4 and 24/18 with the equivalence
of the table decoder and the bit-serial one, packets 28 and 29, the cycle of the decimal pages, the basic TOP table and
the FLOF links.

**MD5** (`Md5Spec`, `Md5`, `Md5Vector`). The streaming implementation with its carry buffer equals RFC 1321 for every
way of cutting the message, and for every schedule of short reads of a stream; the digest of "abc" is proved as the RFC
has it.

**/etc/network/interfaces** (`NetLines`, `Interfaces`, `InterfacesFile`, `InterfacesText`). What is written for an
interface is read back, other interfaces do not change, and writing twice is writing once, each with the exact
condition; comments and the stanzas of others stay.

**Common Interface** (`LengthFields`, `Transport`, `Sessions`, `CommonInterface`). Length fields, TPDUs, reassembly,
SPDUs, APDUs and the session table, joined into one statement from the APDUs sent to what the session objects have
received.

**DVB subtitles** (`PixelCodes`, `Subtitles`, `Palettes`, `BitReader`, `PesReader`, `ListBase`). Run-length coded fields
end up in the bitmap as their rows, palettes are taken over with a bounded loss, bit slices and time stamps are read
back, the packet reader finds every packet that was sent under short reads, and the intrusive list stays well linked.

**Configuration file** (`ConfigFile`). Saving and loading, and vectors kept in one value.

## What the code does and the documentation does not say

- An interfaces file can be damaged for readers: where a setting follows an auto line that names only the interface being
  written, the auto line is erased and the setting joins the stanza above it. `Interfaces.ReadBackExactlyWhen`,
  `Interfaces.EntryReadBackExactlyWhen`, `Interfaces.WritingTwice` and `Interfaces.OthersReadAsBefore` give the exact
  conditions, `Interfaces.AutoLineMatters` a family of such files.
- The two Hamming 24/18 decoders are offered as alternatives, but they differ exactly on the triplets whose tests point
  beyond the word: the table decoder rejects them, the bit-serial one returns the data as they are
  (`Hamming24.DecodersAgree`). Up to two flipped bits never lead there (`Hamming24.FewErrorsAgree`); three can
  (`Hamming24.ThreeErrorsDivide`).
- The magazine of a FLOF link is taken from two bytes that are not examined for bit errors, so that a damaged packet can
  turn a link into a wrong page (`TopTable.DamagedMagazine`; `TopTable.DecodeFlof` has the exact condition under which a
  link is overwritten).
- A packet 28 or 29 with a damaged triplet behind the second one overwrites part of a structure that was received
  before, and takes back that it was received (`PacketX28.DecodeP2829`; `PacketX28.StoredPart` says which part).
- The linking table behind the basic TOP table may name pages up to DFF, which are then used as indexes into tables that
  end at 8FF (`TopTable.LinkBeyond`; `TopTable.LinksInBounds` has the exact condition under which that does not happen).
- `tuxtxt_GetSubPage` need not end when it starts above subpage 79 (`PageWalk.EndsExactlyWhen`).
- A configuration line starting with '#' is not a comment: the length of its value wraps around and the line is read as an
  entry. Therefore a value may hold '#' exactly if its key does (`ConfigFile.SavedIsRestored`).
- After a bit error in the basic TOP table the code marks only its local copy of the page, so that the cache itself still
  looks complete (`TopTable.BasicTop.DecodeBtt` states which entries have been set by then).
- `sendData` keeps the length of a TPDU in one byte, which is right for packets of at most 126 bytes and for no others
  (`CommonInterface.FrameIsWalked`).
- A 2-to-4-bit map table in a subtitle's pixel data has two bytes in EN 300 743; the decoder passes over four
  (`Subtitles.AfterOther`).
- `cListBase::Del` without deletion leaves the count too high, and `Sort` relies on the count (`ListBase.List.Del`).
- `cListBase::Move` of an object onto itself loses the object without counting it out (`ListBase.List.MoveObject`).

## Model

| member | source | states |
|---|---|---|
| `TxtRefine.RunRefines` | lib/libtuxtxt/tuxtxt_common.h:586-1018 | from a cleared cache, after every sequence of packets and page turns, the index tables are sound and the cache stands for the plain page map replayed packet by packet |
| `TxtRefine.RunReads` | lib/libtuxtxt/tuxtxt_common.h:642-706 | after any such run every page and subpage reads as the plain map has it: the live buffer while its magazine receives it, the decompressed entry otherwise, spaces if it never came |
| `TxtRefine.StepRefines` | lib/libtuxtxt/tuxtxt_common.h:601-1018 | one packet, whatever its bytes: opening, closing on a bit error, erasing, overwriting a row and writing back keep the cache standing for the plain map |
| `TxtRefine.HeaderRefines` | lib/libtuxtxt/tuxtxt_common.h:621-735 | a header packet: write-back, the three ways to close a magazine, allocation, reload and erase bit together mean what a header means to the plain map |
| `TxtRefine.TextRefines` | lib/libtuxtxt/tuxtxt_common.h:750-773 | a text packet overwrites exactly its own forty bytes of its magazine's page, after parity or Hamming decoding as the page number asks |
| `TxtRefine.FlushKeeps` | lib/libtuxtxt/tuxtxt_common.h:1010-1012 | writing a live buffer back to the table changes nothing that a reader sees |
| `TxtRefine.EventReachable` | lib/libtuxtxt/tuxtxt_common.h:642-691 | every step keeps: an open magazine has its entry allocated, a set subpagetable entry names an allocated page, cached_pages counts the entries, every FLOF link is 0 or a decimal page between 100 and 899 |
| `TxtRefine.WatchLinksKeeps` | lib/libtuxtxt/tuxtxt_common.h:782-806 | packet 27/0 of an open page changes no text of any page |
| `TxtRefine.LinksReachable` | lib/libtuxtxt/tuxtxt_common.h:785-806 | packet 27/0 writes inside the link table and leaves sound links in it, whatever its bytes |
| `TxtRefine.MeaningIsUnique` | lib/libtuxtxt/tuxtxt_common.h:586-1018 | a cache state stands for no more than one page map, so the refinement pins down what is read |
| `TxtSent.HeaderOpensPage` | lib/libtuxtxt/tuxtxt_common.h:601-735 | a header sent after section 9.3.1 of ETS 300 706, with up to one flipped bit in each byte of its numbers, opens the page and subpage it names; the page is blank exactly if C4 is set, its headline is what was sent, no other page changes |
| `TxtSent.HeaderCloses` | lib/libtuxtxt/tuxtxt_common.h:625-675 | two bit errors in one of its numbers, or page FF, end what the magazine was receiving |
| `TxtSent.TextArrives` | lib/libtuxtxt/tuxtxt_common.h:748-773 | packet n puts its forty characters at 40 (n - 1) of the open page: stripped of parity on decimal pages, decoded on pages FE, as they are on other hex pages; packets 24 and 25 go to the two extra rows |
| `TxtSent.PassedOver` | lib/libtuxtxt/tuxtxt_common.h:601-616 | two bit errors in the address, packets above 25, and packets for a magazine that receives nothing change no page |
| `TxtSent.PesIsRead` | lib/libtuxtxt/tuxtxt_common.h:585-599 | the rows in a PES packet of 46-byte units are found, in order, between units of other kinds, with the bits of every byte mirrored |
| `TxtCache.Cache.constructor` | lib/libtuxtxt/tuxtxt_common.h:350-415 | a new cache is cleared |
| `TxtCache.Cache.Clear` | lib/libtuxtxt/tuxtxt_common.h:350-415 | a cache in use is cleared; the page on display and the row buffers of the thread survive |
| `TxtCache.Cache.ProcessPes` | lib/libtuxtxt/tuxtxt_common.h:567-1018 | one read from the demultiplexer: the lines that carry teletext are replayed in order; a read that is not a multiple of 184 bytes is dropped |
| `TxtCache.Cache.ProcessLine` | lib/libtuxtxt/tuxtxt_common.h:588-599 | a line is taken if its two identifying bytes match, with the bits of every byte mirrored |
| `TxtCache.Cache.ProcessRow` | lib/libtuxtxt/tuxtxt_common.h:601-1018 | the imperative packet step on arrays and heap entries is the step of the refinement |
| `TxtCache.Cache.ProcessHeader` | lib/libtuxtxt/tuxtxt_common.h:621-735 | the header branch in place: write-back first, then the new page, then the write-back for the page on display |
| `TxtCache.Cache.ReadHeader` | lib/libtuxtxt/tuxtxt_common.h:625-691 | page and subpage numbers, in the order in which their bit errors are looked for |
| `TxtCache.Cache.OpenPage` | lib/libtuxtxt/tuxtxt_common.h:680-733 | subpage table, allocation, reload, erase and headline |
| `TxtCache.Cache.StoreText` | lib/libtuxtxt/tuxtxt_common.h:748-773 | rows 1 to 23 go to the live buffer, 24 and 25 to the entry, and no other magazine or entry changes |
| `TxtCache.Cache.StoreLinks` | lib/libtuxtxt/tuxtxt_common.h:785-806 | the links of the open page, and nothing else, change as the refinement says |
| `TxtCache.Cache.WatchDisplay` | lib/libtuxtxt/tuxtxt_common.h:1009-1012 | only the page on display is written back, and only while its subpage is known |
| `TxtCache.Cache.AllocateCache` | lib/libtuxtxt/tuxtxt_common.h:518-534 | an entry is made and counted once |
| `TxtCache.Cache.LoadPage` | lib/libtuxtxt/tuxtxt_common.h:90-127 | the buffer of the magazine becomes the decompressed entry |
| `TxtCache.Cache.ErasePage` | lib/libtuxtxt/tuxtxt_common.h:699-709 | the erase bit blanks the entry and the live buffer together |
| `TxtCache.Cache.ShowPage` | lib/libtuxtxt/tuxtxt_common.h:1010-1010 | turning to another page changes nothing but which page is written back early |
| `PageCodec.ExpandUndoesCompress` | lib/libtuxtxt/tuxtxt_common.h:63-120 | decompressing what was compressed gives the page back, for every page of 920 bytes |
| `PageCodec.HeadsLength` | lib/libtuxtxt/tuxtxt_common.h:69-80 | as many bytes are stored as bits are set in the mask |
| `PageCodec.CompressIsMinimal` | lib/libtuxtxt/tuxtxt_common.h:69-76 | any mask and data that decode to the same page set every bit that compression sets, except possibly the first |
| `PageCodec.CompressIsShortest` | lib/libtuxtxt/tuxtxt_common.h:63-82 | no mask and data for the same page have fewer bits set, but for that first one |
| `PageCodec.SetMaskBit` | lib/libtuxtxt/tuxtxt_common.h:73-73 | setting bit i of the byte mask sets exactly that flag |
| `CachedPages.CachedPage.Compress` | lib/libtuxtxt/tuxtxt_common.h:63-85 | the entry decompresses to the buffer afterwards |
| `CachedPages.CachedPage.Decompress` | lib/libtuxtxt/tuxtxt_common.h:108-120 | the buffer becomes the page that the entry stands for |
| `CachedPages.CachedPage.ZipSize` | lib/libtuxtxt/tuxtxt_common.h:25-33 | the size is the mask plus the number of set bits |
| `CachedPages.CachedPage.Erase` | lib/libtuxtxt/tuxtxt_common.h:699-704 | an entry with an empty mask decompresses to spaces |
| `TxtTables.DehammingCorrects` | lib/libtuxtxt/tuxtxt_def.h:115-133 | a nibble coded after section 8.2 of ETS 300 706 survives any single bit error |
| `TxtTables.DehammingAccepts` | lib/libtuxtxt/tuxtxt_def.h:115-133 | a byte is accepted as a nibble only if it is at most one bit away from that nibble's code |
| `TxtTables.DehammingDetects` | lib/libtuxtxt/tuxtxt_def.h:115-133 | two bit errors are reported |
| `TxtTables.DeparityChecks` | lib/libtuxtxt/tuxtxt_def.h:135-155 | bytes of odd parity lose their top bit, all others become spaces |
| `TxtTables.ReversedMirrors` | lib/libtuxtxt/tuxtxt_common.h:542-550 | the two nibble tables together mirror a byte |
| `TxtTables.ReversedTwice` | lib/libtuxtxt/tuxtxt_common.h:594-599 | mirroring twice gives the byte back |
| `Hamming24.OneErrorIsCorrected` | lib/libtuxtxt/tuxtxt_def.h:305-316 | every 18-bit value coded after section 8.3 of ETS 300 706 is recovered from the clean word and from every word with one flipped bit |
| `Hamming24.TwoErrorsAreDetected` | lib/libtuxtxt/tuxtxt_def.h:279-316 | every two flipped bits give a negative result |
| `Hamming24.FlipTests` | lib/libtuxtxt/tuxtxt_def.h:187-278 | the parity tables are linear: flipping bit k changes the test word by column k, whatever the rest of the triplet |
| `Hamming24.FlipData` | lib/libtuxtxt/tuxtxt_def.h:279-316 | flipping a bit changes the gathered data by what the correction table undoes |
| `Hamming24.TestsBelow64` | lib/libtuxtxt/tuxtxt_def.h:187-313 | the test word always stays within the correction tables |
| `Hamming24.CountParity` | lib/libtuxtxt/tuxtxt_def.h:321-327 | clearing the lowest set bit until none is left counts the parity |
| `Hamming24.DecodersAgree` | lib/libtuxtxt/tuxtxt_def.h:305-316 | the table decoder and the bit-serial one below it (lines 346-369) agree on every triplet, both in accepting and in the value, exactly if the test word is below 56; above, only the table decoder rejects |
| `Hamming24.ThreeErrorsDivide` | lib/libtuxtxt/tuxtxt_def.h:305-369 | flipping bits 7, 15 and 23 divides the decoders on every word: the table decoder rejects it, the bit-serial one returns the data, which are right |
| `Hamming24.FewErrorsAgree` | lib/libtuxtxt/tuxtxt_def.h:305-369 | on words with at most two flipped bits they agree |
| `PacketX28.FieldsRoundTrip` | lib/libtuxtxt/tuxtxt_common.h:450-496 | thirteen triplets of payload laid out after section 9.4.2 of ETS 300 706 hold every field and all 16 colours |
| `PacketX28.DecodeP2829` | lib/libtuxtxt/tuxtxt_common.h:438-497 | a damaged triplet 0 or 1 leaves the structure alone; otherwise it is created if there is none, the fields of the first two triplets and the colours in front of the first damaged one are stored, and it counts as received, with the rest stored, exactly if no triplet is damaged |
| `PacketX28.StoredPart` | lib/libtuxtxt/tuxtxt_common.h:457-489 | with the first damaged triplet behind the second, which colours are replaced and which fields keep their old values |
| `PacketX28.DecodeColours` | lib/libtuxtxt/tuxtxt_common.h:466-492 | sixteen 12-bit colours out of 18-bit triplets, up to the first damaged one, reading exactly up to byte 41 of the row |
| `PacketX28.TripletRecovered` | lib/libtuxtxt/tuxtxt_common.h:438-466 | a triplet with at most one flipped bit gives its payload |
| `PacketX28.PacketRecovered` | lib/libtuxtxt/tuxtxt_common.h:438-497 | a whole packet with at most one flipped bit in each triplet gives every field and all colours |
| `PacketX28.PacketRejected` | lib/libtuxtxt/tuxtxt_common.h:438-497 | a triplet with exactly two flipped bits makes the packet fail |
| `PageWalk.PagesAreNumbered` | lib/libtuxtxt/tuxtxt_common.h:128-154 | the decimal pages are numbered 0 to 799 |
| `PageWalk.NumbersArePages` | lib/libtuxtxt/tuxtxt_common.h:156-159 | and every decimal page has its number |
| `PageWalk.NextDec` | lib/libtuxtxt/tuxtxt_common.h:128-140 | from any decimal page to the next one of the 800, the last leading to the first |
| `PageWalk.PrevDec` | lib/libtuxtxt/tuxtxt_common.h:142-154 | to the previous one in the same cycle |
| `PageWalk.ThereAndBack` | lib/libtuxtxt/tuxtxt_common.h:128-154 | the two undo each other in either order |
| `PageWalk.NextHex` | lib/libtuxtxt/tuxtxt_common.h:161-176 | terminates, with the nearest cached page further round the ring that is not decimal, or with the page itself if there is none; from below page 100 with the first such page below 100, or with page 100 |
| `PageWalk.GetSubPage` | lib/libtuxtxt/tuxtxt_common.h:317-343 | from wherever the loop ends, with any offset: the subpage itself or a cached one; with steps of one the nearest cached one in that direction, all the way round |
| `PageWalk.EndsExactlyWhen` | lib/libtuxtxt/tuxtxt_common.h:317-343 | with steps of one the loop ends from every subpage up to 79; from 7A to 7F exactly if one of 0 to 79 is cached, or on the way up from 7A |
| `TopTable.BasicTop.DecodeBtt` | lib/libtuxtxt/tuxtxt_common.h:182-245 | each decimal page gets the code of its own byte up to the first bit error, no other entry changes, and the table counts as decoded only without errors; nothing happens while page 1F0 is not in the cache |
| `TopTable.BasicTop.DecodeEntries` | lib/libtuxtxt/tuxtxt_common.h:196-212 | the loop through the 800 pages in step with the 800 bytes |
| `TxtSent.EntryIsRead` | lib/libtuxtxt/tuxtxt_common.h:196-212 | an entry of the basic TOP table with up to one flipped bit is its number, a space is 0, two flipped bits are an error |
| `TopTable.BasicTop.DecodeLinks` | lib/libtuxtxt/tuxtxt_common.h:213-244 | the page linking table up to its end mark or its first error |
| `TxtSent.TopLinkIsRead` | lib/libtuxtxt/tuxtxt_common.h:213-239 | an undamaged link of type 2 is collected as its three digits |
| `TxtSent.TopLinkIsSkipped` | lib/libtuxtxt/tuxtxt_common.h:213-239 | the end mark ends the table, unused links and links of other types are skipped |
| `TopTable.LinksInBounds` | lib/libtuxtxt/tuxtxt_common.h:213-239 | at most ten pages are collected; they lie within the tables of the cache exactly if the first digit of every collected link is at most 8 |
| `TopTable.LinkBeyond` | lib/libtuxtxt/tuxtxt_common.h:213-239 | an undamaged link with a first digit of 9 to D is collected as a page above 8FF |
| `TopTable.LinkIsRead` | lib/libtuxtxt/tuxtxt_common.h:799-802 | a link coded after section 9.6.1 of ETS 300 706, with its magazine relative to the page's own, is read back whatever subcode it carries |
| `TopTable.DamagedMagazine` | lib/libtuxtxt/tuxtxt_common.h:799-802 | an uncorrectable byte with magazine bits goes unnoticed: the link keeps its magazine exactly if all the bits in question were set |
| `TopTable.DecodeFlof` | lib/libtuxtxt/tuxtxt_common.h:785-806 | a link is overwritten exactly if byte 0 decodes and both digit bytes decode to decimal digits, and stays as it was otherwise; the bytes with the magazine are not examined. Every link stays 0 or a decimal page between 100 and 899 |
| `TxtSent.LinkArrives` | lib/libtuxtxt/tuxtxt_common.h:785-806 | a decimal FLOF link sent after section 9.6.1, with its magazine relative to the page's, is stored as its page |
| `Md5.OneBlock` | lib/libmd5sum/md5.c:281-406 | the four unrolled rounds are the sixty-four steps of section 3.4 of RFC 1321 |
| `Md5Vector.Digested` | lib/libmd5sum/md5.c:180-196 | the digest of "abc" is the one that section A.5 of RFC 1321 gives, through all sixty-four steps |
| `Md5Spec.WordIsNumber` | lib/libmd5sum/md5.c:296-299 | the words of a block have their low-order byte first |
| `Md5Spec.LowFirstIsNumber` | lib/libmd5sum/md5.c:110-112 | so have the two words of the length |
| `Md5Spec.WordBytesAreWord` | lib/libmd5sum/md5.c:73-85 | and the four words of the result |
| `Md5Spec.InitBytes` | lib/libmd5sum/md5.c:56-67 | the initial registers are the bytes of section 3.3 |
| `Md5Spec.RotateIsRotation` | lib/libmd5sum/md5.c:296-308 | the rotation by each of the sixteen amounts |
| `Md5.OpF` | lib/libmd5sum/md5.c:296-308 | a line of the first round, with its function in the form with one operation less, is one step of the RFC |
| `Md5.OpI` | lib/libmd5sum/md5.c:335-344 | a line of the other rounds is one step of the RFC (OpG and OpH likewise) |
| `Md5.DoubleWordIncrement` | lib/libmd5sum/md5.c:275-277 | the carry test after the addition makes the two words count modulo 2^64 |
| `Md5.Context.constructor` | lib/libmd5sum/md5.c:56-67 | the initial registers of section 3.3, nothing counted, nothing waiting |
| `Md5.Context.ProcessBlock` | lib/libmd5sum/md5.c:258-413 | the registers take in the blocks one by one and the counters their length |
| `Md5.Context.TopUp` | lib/libmd5sum/md5.c:206-226 | filling up the carry buffer: either all input is used or nothing waits afterwards |
| `Md5.Context.ProcessBytes` | lib/libmd5sum/md5.c:199-243 | the context stands for the message so far and the new bytes; at most one full block waits, although the comparison lets a full block wait |
| `Md5.Finished` | lib/libmd5sum/md5.c:97-115 | padding and the two length words complete the message to what sections 3.1 and 3.2 ask for |
| `Md5.Context.FinishCtx` | lib/libmd5sum/md5.c:92-118 | the result is the RFC 1321 digest of all that was fed |
| `Md5.Md5Pieces` | lib/libmd5sum/md5.c:199-243 | for every way of cutting a message into pieces the digest is that of the whole |
| `Md5.Md5Buffer` | lib/libmd5sum/md5.c:180-196 | the digest of the buffer |
| `Md5.Md5Stream` | lib/libmd5sum/md5.c:123-174 | under any schedule of short reads: status 1 exactly if the stream raised its error mark, and otherwise the digest of the whole stream |
| `NetLines.WordsOfJoined` | lib/libnet/network_interfaces.cpp:76-98 | words written with blanks between them are extracted again one by one |
| `NetLines.LinesOfText` | lib/libnet/network_interfaces.cpp:36-63 | lines written with endl are collected again by getline |
| `Interfaces.WrittenIsRead` | lib/libnet/network_interfaces.cpp:100-309 | where no setting strays, reading an interface after writing it gives exactly the automatic flag, family, method and attributes with a value that were written |
| `Interfaces.ReadBackExactlyWhen` | lib/libnet/network_interfaces.cpp:162-195 | whatever attributes are written are read back if and only if erasing auto lines leaves no setting stray behind a stanza of the interface |
| `Interfaces.EntryReadBackExactlyWhen` | lib/libnet/network_interfaces.cpp:162-195 | one given entry is read back as written if and only if each stray setting that is the last assignment of its key repeats the value written for that key |
| `Interfaces.OnlyFittingIsRead` | lib/libnet/network_interfaces.cpp:217-309 | no file at all reads as a name, family, method, key or value that is not one word of the right kind, or as an attribute without a value, so these conditions on the arguments are necessary |
| `Interfaces.OthersReadAsBefore` | lib/libnet/network_interfaces.cpp:111-195 | another interface reads as it did before if and only if every stray setting that is the last one for its key repeats the interface's own last value of that key |
| `Interfaces.HarmlessIsExact` | lib/libnet/network_interfaces.cpp:275-305 | dropping the stray ones from a row of assignments changes the resulting map if and only if one of them is the last for its key and differs from the last one that is not stray |
| `Interfaces.NoStraysNoHarm` | lib/libnet/network_interfaces.cpp:162-195 | in a file without stray settings every assignment is an interface's own |
| `Interfaces.AutoLineMatters` | lib/libnet/network_interfaces.cpp:127-143 | where a setting follows an auto line, writing one interface hands that setting to another one |
| `Interfaces.OrderlyHasNoStrays` | lib/libnet/network_interfaces.cpp:162-195 | files whose settings stand in iface and mapping stanzas only have no stray settings |
| `Interfaces.WritingTwice` | lib/libnet/network_interfaces.cpp:100-214 | writing the same entry again changes nothing if and only if no setting strays |
| `InterfacesText.RemarksAreNotRead` | lib/libnet/network_interfaces.cpp:284-290 | a line of white space or with '#' as its first other character makes no difference to any reader, wherever it stands |
| `InterfacesText.RemarksStay` | lib/libnet/network_interfaces.cpp:175-195 | all such lines are in the written file, in their order, and no others |
| `InterfacesText.ForeignStanzaStays` | lib/libnet/network_interfaces.cpp:106-214 | a mapping stanza or one of another interface survives with everything behind it up to the next stanza of the interface written, but for that name in auto lines |
| `InterfacesText.ForeignStanzaIsNotRead` | lib/libnet/network_interfaces.cpp:240-305 | and no setting or header is read from it |
| `InterfacesText.StanzaIsRead` | lib/libnet/network_interfaces.cpp:255-305 | the stanza of an interface gives family, method and its settings up to the next stanza or auto line, later ones winning |
| `InterfacesFile.RemoveInterfaceFromLine` | lib/libnet/network_interfaces.cpp:76-98 | the shortened auto line, empty if no name is left |
| `InterfacesFile.AddAttributes` | lib/libnet/network_interfaces.cpp:65-74 | one line for each attribute, in front of the position |
| `InterfacesFile.EditOther` | lib/libnet/network_interfaces.cpp:111-160 | lines outside the interface's own stanza stay, except auto lines that name it |
| `InterfacesFile.RemoveSettings` | lib/libnet/network_interfaces.cpp:175-195 | old settings go; blank lines and comments stay; the loop ends at the line that starts something else |
| `InterfacesFile.EditLines` | lib/libnet/network_interfaces.cpp:106-214 | the list editor with its iterators is the rewriting of the lines |
| `InterfacesFile.TextFile.WriteInterface` | lib/libnet/network_interfaces.cpp:100-215 | the file afterwards, and nothing if it cannot be written |
| `InterfacesFile.ReadSettings` | lib/libnet/network_interfaces.cpp:275-305 | the inner loop of the reader |
| `InterfacesFile.TextFile.ReadInterface` | lib/libnet/network_interfaces.cpp:217-309 | the reader with its pushed-back line is the reading of the lines |
| `InterfacesFile.WriteThenRead` | lib/libnet/network_interfaces.cpp:100-309 | on the text of the file, for every orderly file: read back as written, all others unchanged, writing twice like writing once |
| `InterfacesFile.StaticAttributesComeBack` | lib/libnet/network_interfaces.cpp:311-366 | getInetAttributes after setStaticAttributes gives the same addresses, any of them possibly empty, and leaves the addresses of every other interface as they were |
| `InterfacesText.StaticText` | lib/libnet/network_interfaces.cpp:346-360 | the text that setStaticAttributes writes into a new file, character by character |
| `ListBase.WalksAgree` | lib/libdvbsub/tools.cpp:102-135 | a chain is determined by its first object and by its last: forward and backward walks meet the same objects |
| `ListBase.ListObject.Unlink` | lib/libdvbsub/tools.cpp:114-121 | the chain closes over the gap in both directions |
| `ListBase.ListObject.Index` | lib/libdvbsub/tools.cpp:123-133 | counting backwards gives the position |
| `ListBase.List.Add` | lib/libdvbsub/tools.cpp:148-162 | the object stands behind the given one, or last |
| `ListBase.List.Ins` | lib/libdvbsub/tools.cpp:164-178 | the object stands before the given one, or first |
| `ListBase.List.Del` | lib/libdvbsub/tools.cpp:180-191 | the object is gone from the chain; the count follows only if it is deleted as well |
| `ListBase.List.MoveObject` | lib/libdvbsub/tools.cpp:198-220 | the object ends up at the position of the other one, in either direction, at the ends and in the middle; moved onto itself it drops out of the list, linked to itself, while the count stays |
| `ListBase.List.Move` | lib/libdvbsub/tools.cpp:193-196 | moving by positions; nothing happens unless both exist |
| `ListBase.MovedBack` | lib/libdvbsub/tools.cpp:198-220 | all other objects keep their order, and the reverse move undoes it |
| `ListBase.List.Get` | lib/libdvbsub/tools.cpp:233-241 | the object at the index, null outside |
| `ListBase.List.Clear` | lib/libdvbsub/tools.cpp:222-231 | an empty list |
| `ListBase.List.RequeueAt` | lib/libdvbsub/tools.cpp:261-265 | one round of re-adding: the old and the new chain stay disjoint and well formed, and together hold all objects |
| `ListBase.List.Sort` | lib/libdvbsub/tools.cpp:250-266 | the list is the sorted permutation that qsort gives, well linked, with its count |
| `LengthFields.ParseLengthField` | lib/libazbox/dvbci_session.cpp:57-80 | the loop computes the big-endian value in a 32-bit int |
| `LengthFields.FieldIsParsed` | lib/libazbox/dvbci_session.cpp:27-80 | for every length below 65535 both parsers undo buildLengthField and take exactly its bytes |
| `LengthFields.DecodeIsParse` | lib/libazbox/dvb-ci.cpp:128-156 | asn_1_decode agrees with parseLengthField wherever it accepts, and it accepts exactly the fields of at most three bytes that are complete and not 0x80 |
| `LengthFields.WriteLengthField` | lib/connection/messagetools.cpp:26-55 | the shortest big-endian form behind its byte count |
| `LengthFields.WrittenBytes` | lib/connection/messagetools.cpp:26-55 | the bytes of the four forms |
| `LengthFields.ReadLengthField` | lib/connection/messagetools.cpp:57-80 | the value modulo 2^32 |
| `LengthFields.WriteThenRead` | lib/connection/messagetools.cpp:26-96 | for every length below 2^24 the parser undoes the writer, whose byte count is get_length_field_size |
| `Transport.WireIsWalked` | lib/libazbox/dvb-ci.cpp:515-551 | any well-formed concatenation of TPDUs is taken apart into exactly those TPDUs, in order |
| `Transport.WalkTakesThePrefix` | lib/libazbox/dvb-ci.cpp:515-551 | whatever was received: the TPDUs found are the front of the buffer, and no sound TPDU follows where the loop stops |
| `Transport.Slot.Walk` | lib/libazbox/dvb-ci.cpp:513-551 | the loop terminates on every buffer and has the effect of its TPDUs one after the other |
| `Transport.Slot.ProcessTpdu` | lib/libazbox/dvb-ci.cpp:324-393 | a fragment is appended, the last one is delivered with all before it |
| `Transport.Reassembled` | lib/libazbox/dvb-ci.cpp:324-393 | from any state and over any run each T_DATA_LAST delivers the concatenation of all fragments since the previous one |
| `Transport.OnlyDataMatters` | lib/libazbox/dvb-ci.cpp:324-420 | TPDUs about status and connections, wherever they stand in a run, change no message |
| `Transport.ChainArrives` | lib/libazbox/dvb-ci.cpp:324-393 | however a message is cut, and whatever other TPDUs stand before, between and behind its fragments, it arrives whole and nothing of it stays behind |
| `Transport.ChainsArrive` | lib/libazbox/dvb-ci.cpp:324-393 | so do several messages in a row, each cut in its own way |
| `CommonInterface.FrameIsWalked` | lib/libazbox/dvb-ci.cpp:211-277 | a packet that sendData wraps is walked as that packet exactly if it has at most 126 bytes |
| `CommonInterface.FrameBytes` | lib/libazbox/dvb-ci.cpp:211-277 | the bytes queued by sendData: objects tagged 0x80 to 0x87 as they are, everything else behind slot, connection and T_DATA_LAST |
| `CommonInterface.ReadsDoNotMatter` | lib/libazbox/dvb-ci.cpp:506-551 | how the TPDUs are spread over reads makes no difference |
| `CommonInterface.ApdusArrive` | lib/libazbox/dvbci_session.cpp:82-136 | a list of APDUs in one SPDU, cut into any fragments with any form of length field, with status TPDUs around them, and read in any groups, is one message that carries that list for that session |
| `CommonInterface.Receive` | lib/libazbox/dvb-ci.cpp:506-551 | the walking loop, the reassembly and receiveData together: for any number of messages to any sessions, however cut, mixed with status TPDUs and spread over reads, each open session has received in addition exactly the APDUs addressed to it, in order, and nothing else in the table has changed |
| `CommonInterface.ReceiveBytes` | lib/libazbox/dvb-ci.cpp:506-551 | the whole way byte by byte: one read with an SPDU in two fragments and status TPDUs between them hands its APDU to the session whose number stands in it, and to no other |
| `Sessions.ListIsReceived` | lib/libazbox/dvbci_session.cpp:399-430 | any list of APDUs coded as in sendAPDU is received as that list up to the end of the packet, and no APDU is stretched by the workaround |
| `Sessions.SurplusIsAddedOn` | lib/libazbox/dvbci_session.cpp:411-419 | the workaround adds one or two surplus bytes to the last APDU, and only there |
| `Sessions.SpduIsSplit` | lib/libazbox/dvbci_session.cpp:110-136 | the receiver finds tag, session number and APDUs of every packet that sendSPDU builds |
| `Sessions.PacketBytes` | lib/libazbox/dvbci_session.cpp:317-393 | tag, one-byte length, session number with its high byte first, rest |
| `Sessions.ApduBytesAreRead` | lib/libazbox/dvbci_session.cpp:399-430 | three bytes of tag, one-byte length, data |
| `Sessions.Session.HandOver` | lib/libazbox/dvbci_session.cpp:399-430 | the loop hands over every APDU once and in order, up to the end of the packet or the first read beyond it, and notes if one asks for action |
| `Sessions.Table.CreateSession` | lib/libazbox/dvbci_session.cpp:194-274 | the lowest free number of 1 to 255 for a known resource; otherwise the status says why and the table is as before |
| `Sessions.Table.DeleteSessions` | lib/libazbox/dvbci_session.cpp:179-192 | exactly the sessions of the slot go |
| `Sessions.Table.ReceiveForSession` | lib/libazbox/dvbci_session.cpp:350-431 | only the addressed session takes part, if it is open and the tag is known |
| `Sessions.Table.ReceiveOpenRequest` | lib/libazbox/dvbci_session.cpp:337-348 | the answer carries the status and the new number, the session has the lowest free number and starts, and no other session changes |
| `Sessions.Table.ReceiveData` | lib/libazbox/dvbci_session.cpp:317-432 | a request opens a session and is answered before its length is looked at, every other packet reaches the addressed session only; packets in which the first bytes read lie beyond the end are outside the model |
| `Sessions.Request` | lib/libazbox/dvbci_session.cpp:194-348 | a request byte by byte: for each of the five resources of the host the lowest free number is given away, the session starts and the answer carries number and identifier; everything else is answered with the reason and number 0 |
| `Sessions.ChangeState` | lib/libazbox/dvbci_session.cpp:350-393 | the packets with tags 0x94 and 0x95, byte by byte: the addressed session starts with that status or is to be deleted, and no other changes |
| `Sessions.Table.PollAll` | lib/libazbox/dvbci_session.cpp:289-315 | the lowest session with something to do gets its turn, which may change its state, and only that one; a closing session is answered and leaves the table |
| `PixelCodes.StringIsTraced` | lib/libdvbsub/dvbsubtitle.cpp:283-327 | a string of 4-bit pixel codes after section 7.2.5.2 of EN 300 743 is decoded as those codes, and decoding stops right behind its end |
| `PixelCodes.CodeBytes` | lib/libdvbsub/dvbsubtitle.cpp:283-327 | the seven forms of a 4-bit code, byte by byte |
| `PixelCodes.LineIsDrawn` | lib/libdvbsub/dvbsubtitle.cpp:161-205 | the strings of one line are drawn one behind the other |
| `PixelCodes.FieldIsDrawn` | lib/libdvbsub/dvbsubtitle.cpp:161-205 | any coding of a field, with each row cut into any number of strings and the last line closed or not, is drawn as its rows, two lines apart |
| `PixelCodes.PlainStandsForRow` | lib/libdvbsub/dvbsubtitle.cpp:283-327 | every row of pixels has a code string |
| `Subtitles.FieldIsPainted` | lib/libdvbsub/dvbsubtitle.cpp:207-215 | the strokes of a field leave exactly its picture, and leave every other pixel alone |
| `Subtitles.Bitmap.SetIndex` | lib/libdvbsub/osd.cpp:170-183 | one pixel changes, if it is inside |
| `Subtitles.SubtitleObject.DrawLine` | lib/libdvbsub/dvbsubtitle.cpp:207-215 | exactly the pixels of the run, unless the color is the one that does not modify |
| `Subtitles.SubtitleObject.Get4Bits` | lib/libdvbsub/dvbsubtitle.cpp:228-240 | the next half byte, the high one first |
| `Subtitles.SubtitleObject.ReadCode` | lib/libdvbsub/dvbsubtitle.cpp:283-323 | run, color and end mark of one code |
| `Subtitles.SubtitleObject.DecodeSubBlock` | lib/libdvbsub/dvbsubtitle.cpp:161-205 | the bitmap after the block is the old one with the strokes of the block painted over it |
| `Subtitles.AfterOther` | lib/libdvbsub/dvbsubtitle.cpp:161-205 | map tables of tags 0x20, 0x21 and 0x22 are passed over with 4, 4 and 16 bytes, an end of line leads two lines down, unknown tags are one byte |
| `Subtitles.SubtitleObject.DecodeField` | lib/libdvbsub/dvbsubtitle.cpp:161-205 | into whatever strings its rows were cut and however these were coded, the rows of a field are in the bitmap, on even lines for the top field and on odd lines for the bottom field, and no other pixel changes |
| `Palettes.Palette.ClosestColor` | lib/libdvbsub/osd.cpp:134-154 | the first of the nearest colors, or -1 if none is near enough |
| `Palettes.Palette.Index` | lib/libdvbsub/osd.cpp:44-63 | earlier entries stay; the result is the first exact match, or at most 4 away, or, in a full palette, the nearest |
| `Palettes.Palette.Take` | lib/libdvbsub/osd.cpp:91-105 | a palette with enough room never runs out, and every color is found at most 4 away |
| `Palettes.CopyRegion` | lib/libdvbsub/dvbsubtitle.cpp:1198-1203 | every pixel of the copy with a defined color has a color whose components differ from the region's by 2 altogether at most |
| `Palettes.DrawAll` | lib/libdvbsub/osd.cpp:224-232 | every pixel goes through the table of indexes |
| `PesReader.Sync` | lib/libdvbsub/dvbsub.cpp:177-208 | the reader stops right behind the first start code, however the bytes come in |
| `PesReader.ReadPacket` | lib/libdvbsub/dvbsub.cpp:211-245 | header and body, complete unless the reader is paused |
| `PesReader.ReaderThread` | lib/libdvbsub/dvbsub.cpp:152-258 | for every stream and every schedule of short reads and time-outs the packets pushed are those that one pass over the bytes taken finds, in order |
| `PesReader.SentIsFound` | lib/libdvbsub/dvbsub.cpp:177-245 | every packet of up to 65529 bytes behind its header is found, in order, whatever bytes without a start code stand between packets and whatever follows |
| `PesReader.NothingIsFound` | lib/libdvbsub/dvbsub.cpp:177-245 | the beginning of a packet is not yet a packet |
| `PesReader.ReadSent` | lib/libdvbsub/dvbsub.cpp:152-258 | the reader thread on such a stream: under any schedule of reads that takes it all, exactly the packets sent |
| `PesReader.Demux.Read` | lib/libdvbsub/dvbsub.cpp:190-190 | what a read may deliver |
| `BitReader.GetBits` | lib/libdvbsub/helpers.cpp:6-34 | for every buffer, offset and length of 1 to 24 the big-endian value of that slice of bits |
| `BitReader.ShiftAndMask` | lib/libdvbsub/helpers.cpp:32-33 | shifting off the bits behind a slice and masking those before it leaves the slice |
| `BitReader.ReadStamp` | lib/libdvbsub/dvbsub.cpp:320-327 | the time stamp of a packet whose flags announce one, 0 otherwise |
| `BitReader.StampIsRead` | lib/libdvbsub/dvbsub.cpp:320-327 | every 33-bit time stamp coded after sections 2.4.3.6 and 2.4.3.7 of ISO/IEC 13818-1 is read back |
| `BitReader.StampOf` | lib/libdvbsub/dvbsub.cpp:320-327 | a packet with announced time stamp, byte by byte, gives that stamp |
| `ConfigFile.SavedIsRestored` | lib/libconfigfile/configfile.cpp:52-115 | loading what was saved restores the map if and only if every entry fits its line |
| `ConfigFile.LineIsParsed` | lib/libconfigfile/configfile.cpp:69-76 | a line that fits is read as its key and value |
| `ConfigFile.OneEntry` | lib/libconfigfile/configfile.cpp:52-85 | a line key=value in a file, character by character, is that entry |
| `ConfigFile.Remarks` | lib/libconfigfile/configfile.cpp:69-76 | what follows a '#' behind the '=' is cut off, a '#' in front of it belongs to the key |
| `ConfigFile.VectorComesBack` | lib/libconfigfile/configfile.cpp:273-415 | a vector comes back if and only if no element holds the delimiter, the last one is not empty and the joined value has at most 65535 characters; with a longer one the 16-bit index never arrives at the end |
| `ConfigFile.IndexNeverArrives` | lib/libconfigfile/configfile.cpp:273-303 | the 16-bit index of the loop stays in front of the end of a value, however often it is counted up, exactly if the value has more than 65535 characters |
| `ConfigFile.ConfigObject.LoadConfig` | lib/libconfigfile/configfile.cpp:52-85 | the map holds what the lines say, later lines winning |
| `ConfigFile.ConfigObject.SaveConfig` | lib/libconfigfile/configfile.cpp:92-115 | one line for every entry, each key once; loading the file restores the map if and only if every entry fits its line; false and no file if it cannot be opened |
| `ConfigFile.ConfigObject.SetStringVector` | lib/libconfigfile/configfile.cpp:403-415 | the elements with delimiters between them; no other key changes |
| `ConfigFile.ConfigObject.GetStringVector` | lib/libconfigfile/configfile.cpp:273-303 | the pieces of the value; a missing key is made; the unknown-key flag is raised exactly if the value is empty or ends with the delimiter |
| `ConfigFile.ConfigObject.SetThenGet` | lib/libconfigfile/configfile.cpp:273-415 | storing a vector and fetching it again, within the length that the index can count |

## Left out

- Threads, mutexes and condition variables: the packet loop and the reader are sequential over their input; a pause of the reader comes when it would wait for more data.
- Memory: allocation is assumed to succeed, writing to an opened file likewise, and freed objects are simply no longer reachable.
- Teletext: the contents of packets 26, 27/4, 28 and 30, the page information flags (boxed, national set, function), time string, update notifications, the adip texts and the copy of the last two FLOF links for them; they do not touch the page store.
- Teletext: restarting the thread on the same pid, where current_page survives while the live buffers are new; the refinement starts from a cleared cache.
- Teletext: the compiled-out ham24 encoder, whose parity bits have the opposite sense of what the decoder accepts; the encoder of the model follows section 8.3 of ETS 300 706.
- CachedPages.CachedPage.Compress: the mask is a sequence in a field that is reassigned, not a byte array updated in place.
- TxtCache.Cache.AllocateCache: the table of 0x900 by 0x80 pointers is a map field that is reassigned.
- PageWalk.NextHex: a start above page 8FF, where the loop need not end.
- PageWalk.GetSubPage: starts and offsets with which the loop never ends; for offsets of more than one step the condition for its end is not worked out.
- Md5.Context.ProcessBytes: one call takes fewer than 2^32 bytes, as size_t has 32 bits on these devices; the counters are exact modulo 2^64 beyond.
- InterfacesFile.TextFile.WriteInterface: the attributes are listed in whatever order the caller's map is walked; nothing depends on it.
- Sessions: what the resource classes do with an APDU; receivedAPDU records it and answers by a given function, and doAction is a given function of number and state as well, whose own APDUs are not recorded.
- Sessions.Session.HandOver: in packets whose length fields point beyond their end the code goes on in adjacent memory; the model stops there.
- Sessions.Table.ReceiveData: packets that end in front of the resource identifier of a request, or of the session number or status of another packet; the code reads adjacent memory, the model does nothing.
- Sessions.SpduIsSplit: packets of more than 4096 bytes, which sendSPDU writes beyond its buffer.
- CommonInterface.Receive: the pollAll that follows each message; `Sessions.Table.PollAll` is a step of its own.
- Transport.Slot.ProcessTpdu: the answers to T_SB and T_C_T_C_REPLY, the send queue, which is a priority queue with equal priorities, and the polling states of the slot.
- ListBase.List.Sort: qsort belongs to the C library and enters as a function that yields a sorted permutation.
- LengthFields.WriteLengthField: lengths of 2^24 and above, where the shift reaches the width of the type.
- Subtitles.SubtitleObject.DecodeSubBlock: strings of 2-bit and 8-bit codes, which do not follow EN 300 743; the model stops in front of them. Three bytes behind the block are taken to be readable, as a code cut off by the end reads on.
- Subtitles.Bitmap.SetIndex: the dirty rectangle.
- Subtitles.SubtitleObject.ReadCode: the source leaves the order of the two reads in the sum for a run of 25 and more to the compiler; the model takes the left one first, as EN 300 743 has it.
- Palettes.CopyRegion: DrawBitmap with an offset, with Overlay or with ReplacePalette; colors of blended text.
- PesReader.ReaderThread: packets of more than 65529 bytes behind their header, whose size wraps to less than the header; the model stops there.
- ConfigFile.ConfigObject.GetStringVector: values of 65536 characters and more, where the 16-bit index never arrives at the end; `ConfigFile.VectorComesBack` counts them as not coming back.
- ConfigFile.ConfigObject.SetStringVector: an empty vector, which the code walks past its end; the other value types and their defaults.
- Menus, settings, sockets, the event server, device drivers, frame buffer drawing and the CLUT conversion.
