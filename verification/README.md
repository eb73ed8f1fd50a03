# Proofs about course and contest programs in C and C++

Eleven programs of the repository, modelled in Dafny in the form they have, and the properties that make
them correct. Code that changes arrays, linked nodes or the fields of a record is a method on arrays or on
heap objects here, and its contract ties the new state to a function of the old one; the properties are lemmas
about those functions. `dafny verify dfyconfig.toml` checks everything.

| program | modules | main results |
|---|---|---|
| file Huffman coder, `coursedesign/zip/program/huffman.c` | MergeCost, MergeTree, HuffmanTree, HuffmanBuild, HuffmanForest, HuffmanCalc, HuffmanCode, HuffmanFile, HuffmanSize, HuffmanEncode, HuffmanTrie, HuffmanPartial, HuffmanDecode, HuffmanRoundTrip, HuffmanSample | no prefix code is shorter; the table rebuilds the tree; exactly when a file comes back; what any other file decodes to |
| fence repair, `acm/pccb/ch2/2.2.4.2.cpp` | MergeCost, MergeTree, FenceRepair | the greedy answer is the least |
| packet swallow filter, `tcplognke.c` | SwallowQueue, SwallowProtocol, SwallowPackets, SwallowProgress, SwallowExact, SwallowOrder, SwallowOvertake | safety, no lost wakeup, no deadlock, no livelock; when the order is kept and when it breaks |
| HTTP parser, `inlonlife/pcap/http_parser.c` | HttpSpec, HttpTables, HttpSplit, HttpBody, HttpLoss, HttpHeaders, HttpConnection, HttpLines, HttpMessages, HttpLimit, HttpParser | it does not matter how the input is cut, and exactly when it does; what any header lines say is what is recorded; whole messages arrive; lengths are the numbers written |
| LZ77, `algorithms/maic/lz77.c` and `bit.c` | Lz77Bits, Lz77, Lz77Layout, Lz77Greedy, Lz77Codec | decompressing gives every input back; the tokens are the greedy ones |
| page replacement, `experiment/os/exp5/page.c` | PagingPolicy, PagingOrder, Paging | which pages are held; FIFO and LRU are conservative and k-competitive; more frames never harm LRU |
| memory allocator, `experiment/os/exp4/memory.c` | MemoryTable, MemoryManager | the table stays a tiling; when requests are refused; free undoes allocate |
| tree diameter, `acm/lanqiao/t32.cpp` | TreeMetric, RoadNetwork, TreeSweep | two sweeps find the greatest distance in every connected network of n - 1 roads |
| list sort, `coursedesign/exam/exam/slist.c` | MergeSort, SlistSort | the same nodes, ordered, stable |
| scheduler, `experiment/os/exp3/priority.c` | Scheduling, TaskList | ends, never preempts, loses no time, blocks once; all fields after any part of a run |

Sums and BitBytes hold what several modules share: sums over sequences, and bytes as bits.

## How the programs are modelled

- **Huffman.** Nodes are heap objects with parent and child pointers, the frequency table is an array that is
  sorted in place, bit strings are packed bytes. How qsort orders equal counts is left open: the results use only that
  its result is sorted and a permutation, and the decoder is proved for table entries in any order. A file is its
  bytes and a position.
- **Packet filter.** Every region between taking and releasing `g_swallowQ_mutex` is one step of a state machine, and so is
  every call into the kernel; msleep releases the lock and sleeps in the same step; a sleeper may also wake up by itself.
  Any number of producers, detaching threads and disconnecting events interleave with the timer. SwallowQueue proves that
  the loops of the regions do what the steps say.
- **HTTP.** HttpSpec reads one byte at a time. HttpParser is the loop over a buffer, with marks, jumps, re-examined bytes and
  several bytes taken at once, and is proved to do the same. What the first line of a message says is a parameter.
- **LZ77.** An unsigned long has 32 bits, as the layout of a token assumes (with 64, lz77.c:133 would look for the bits of a
  token beside the 32 that htonl returns), and the machine is little-endian.
- **Paging, trees, memory.** Any number of pages, frames, references, cities, blocks. The roads come in any order; a
  tree is grown from them, vertex by vertex, only for the proof.
- **List sort.** The compare function looks at the data of two nodes only, which sorting does not change.
- **Scheduler.** qsort is called with a comparison that contradicts itself on a blocked and a finished task, so only this is
  used: the running task comes first, then the ready ones by falling priority. At most one task is running at the start, and no
  task has a negative time that keeps it from finishing; one that has keeps the program running for ever.

## Where code and promise differ

- Huffman: a file with one byte value decodes to an empty file, and the empty file makes the encoder dereference NULL
  (`HuffmanTrie.RoundTrip`, `HuffmanEncode.EncodeFile`).
- HTTP: when a call fails, the bytes since the mark that was open are never delivered, while a call that ended earlier has
  delivered its part of them. So the data can depend on the cut; `HttpLoss.LostData` says exactly when, and there is an example.
- HTTP: a call without data means the end of the connection, so input must not be cut into empty pieces (`HttpSplit.EmptyCall`).
- HTTP: a chunk size between 2^64 - 16 and 2^64 - 1 is refused although it fits (`HttpBody.ChunkSizeValue`).
- HTTP: the `unhex` table has entries for 128 bytes only, so bytes from 128 on read as the digit 0 (`HttpBody.HighByteIsZero`).
- HTTP: a Connection header that is a list can lose words: behind an element that is empty or the beginning of one of the words the
  comma is swallowed, so "c,close" and "x,,close" do not close the connection. `HttpConnection.ConnectionNoted` says for every value
  what is recorded, `HttpConnection.RegularIsHeard` exactly when every element counts.
- Packet filter: the disconnecting event can overtake the timer (`SwallowOvertake.EventBreaksOrder`), and so can it whenever
  two threads hold packets of a socket (`SwallowOvertake.NotSoleCanOvertake`).
- Memory: best fit passes over a block of the size INT_MAX (`MemoryTable.BestFitRefuses`); erasing one past the end loses
  the last block (`MemoryManager.MemMan.EraseBlock`).
- Huffman: when a code leads through a leaf, the decoder takes the symbol, which shares its place with the children, for a pointer;
  no archive that the encoder wrote does that (`HuffmanTrie.ReadTable`). A cut archive decodes to a beginning of the text
  without an error (`HuffmanPartial.CutInData`).
- List sort: its comment calls it a quicksort; it is a merge sort.
- Scheduler: a task whose time to block comes in the slice in which it finishes blocks all the same, becomes ready and
  needs another slice to finish (`Scheduling.Ran`). A negative time can keep it running for ever (`Scheduling.NeverEnds`).

## Model

| member | source | states |
|---|---|---|
| MergeCost.MergeTwoSmallest | acm/pccb/ch2/2.2.4.2.cpp:15-40 | If two smallest weights are merged into one, a lower bound on the cost of all code lengths for the rest, plus the two weights, is a lower bound for the whole: the greedy step loses nothing |
| MergeCost.PairAtBottom | acm/pccb/ch2/2.2.4.2.cpp:15-16 | Any code lengths that satisfy the Kraft inequality can be changed, at no extra cost, so that two given smallest weights are both deepest |
| MergeCost.ShortenLonely | acm/pccb/ch2/2.2.4.2.cpp:15-16 | A word that is alone at the greatest length can be shortened and the Kraft inequality still holds |
| MergeTree.CostIsWeightedDepth | acm/pccb/ch2/2.2.4.2.cpp:15-15 | The cost of all merges of a tree is the sum of weight times depth over its leaves, as the comment in the program says |
| MergeTree.NoTreeBeatsBound | acm/pccb/ch2/2.2.4.2.cpp:15-42 | A bound on all code lengths is a bound on the cost of every merge tree over the items |
| MergeTree.PrefixCodeFits | coursedesign/zip/program/huffman.c:221-249 | The word lengths of every prefix code satisfy the Kraft inequality |
| MergeTree.JoinedAtLast | coursedesign/zip/program/huffman.c:231-243 | When merging has left one tree, it is a tree over exactly the items and no tree over them is cheaper |
| FenceRepair.FindTwoShortest | acm/pccb/ch2/2.2.4.2.cpp:21-32 | The scan finds two different positions of two smallest boards, whatever ties there are |
| FenceRepair.Solve | acm/pccb/ch2/2.2.4.2.cpp:18-42 | The answer is the least total cost over all binary merge trees of the boards (0 for no boards), although the array is overwritten in place |
| HuffmanTree.GetBitIsBit | coursedesign/zip/program/huffman.c:45-49 | get_bit reads bit i of a byte string, counted from the least significant bit of its first byte |
| HuffmanTree.ReverseBits | coursedesign/zip/program/huffman.c:51-68 | The first len bits are reversed in place, and the bits after them are zero |
| HuffmanTree.NewCode | coursedesign/zip/program/huffman.c:70-99 | Climbing from a leaf to the root gives, packed into bytes, the path from the root to the leaf |
| HuffmanBuild.BuildSymcode | coursedesign/zip/program/huffman.c:208-219 | Exactly the leaves below a node get entries, each with its path from the root of the whole tree; other entries stay as they are |
| HuffmanBuild.SortTable | coursedesign/zip/program/huffman.c:178-194 | After sorting the first n entries they are a permutation in the order of sfcmp, null last; nothing more is used about the order of equal counts |
| HuffmanForest.AdoptedShapes | coursedesign/zip/program/huffman.c:117-126 | Two linked trees, put under a new node, are the linked form of the joined tree |
| HuffmanForest.MergeLightest | coursedesign/zip/program/huffman.c:234-240 | The two trees in front are replaced by their join, the lighter one as its zero child: the forest is still well linked, holds the same leaves, and its cost is still part of a cheapest tree |
| HuffmanCalc.MergeAll | coursedesign/zip/program/huffman.c:232-243 | The loop leaves one tree, and every bound that held for the forest holds for it; with no symbol its unsigned bound is 2^32 - 1 and it goes through a null pointer |
| HuffmanCalc.CalcCode | coursedesign/zip/program/huffman.c:221-249 | The table holds exactly the root-to-leaf paths of a tree over the counted symbols, and no merge tree over them is cheaper; it crashes exactly if there is no symbol |
| HuffmanCode.CodesPrefixFree | coursedesign/zip/program/huffman.c:208-219 | No code is a prefix of that of another symbol |
| HuffmanCode.PathExtends | coursedesign/zip/program/huffman.c:208-219 | Every path in the tree can be completed to a code, so no code word is wasted |
| HuffmanCode.HeightBelowLeaves | coursedesign/zip/program/huffman.c:70-99 | A tree is less deep than it has leaves |
| HuffmanCode.LighterEverywhere | coursedesign/zip/program/huffman.c:234-240 | If every join put the lighter tree first, then at every path of the tree the zero child is not heavier than the one child |
| HuffmanCode.TreeCostIsCodedLength | coursedesign/zip/program/huffman.c:221-249 | The cost of the tree is the number of bits in which its code writes the items |
| HuffmanCode.NoPrefixCodeIsShorter | coursedesign/zip/program/huffman.c:221-249 | No prefix code at all writes the items in fewer bits than the code of such a tree |
| HuffmanSize.NoPrefixCodeWritesLess | coursedesign/zip/program/huffman.c:360-385 | The bits written for a text are not more than under any code in which no word of a symbol of the text is a prefix of another |
| HuffmanEncode.GetSymfreq | coursedesign/zip/program/huffman.c:161-176 | A fresh leaf with the right count for exactly the bytes that occur; the total wraps at 32 bits |
| HuffmanEncode.DepthFitsByte | coursedesign/zip/program/huffman.c:280-283 | Codes are at most 255 bits long, so their length fits the one-byte field |
| HuffmanEncode.WriteCodeTable | coursedesign/zip/program/huffman.c:251-290 | Number of codes and of bytes in network order, then symbol, length and packed code of every symbol |
| HuffmanEncode.DoFileEncode | coursedesign/zip/program/huffman.c:360-385 | The codes of all bytes, packed from the least significant bit of each byte on, with the last byte padded with zeros |
| HuffmanEncode.EncodeFile | coursedesign/zip/program/huffman.c:387-409 | Every non-empty file becomes an archive of itself, in as few bits as any prefix code could write it, for whatever order qsort chose among equal counts, and at every node of the tree the zero child is not heavier than the one child; the empty file, and only that, dereferences NULL |
| HuffmanEncode.AllEntries | coursedesign/zip/program/huffman.c:274-290 | The table lists the code of every symbol once, by rising symbol |
| BitBytes.IndexIsNumber | coursedesign/zip/program/huffman.c:45-49 | The bits of a byte, the first one the least significant, write the number that the byte is |
| HuffmanSample.OneTree | coursedesign/zip/program/huffman.c:221-249 | For the text "abbcccc" there is one cheapest tree with the lighter child first |
| HuffmanSample.SampleArchive | coursedesign/zip/program/huffman.c:251-290 | So its archive is, byte for byte, 00000003 00000007, 61 02 00, 62 02 02, 63 01 01, e8 03 in hexadecimal |
| HuffmanTrie.ParseWritten | coursedesign/zip/program/huffman.c:274-333 | A written table entry reads back as its symbol, length and code bytes |
| HuffmanTrie.ReadTable | coursedesign/zip/program/huffman.c:292-358 | Reading the written entries, in any order, gives a trie that holds exactly the codes of all symbols, and never walks through a leaf |
| HuffmanTrie.TrieIsTree | coursedesign/zip/program/huffman.c:335-354 | The rebuilt trie has the positions of the encoder's tree, no others, and the same symbols at the leaves |
| HuffmanTrie.FeedText | coursedesign/zip/program/huffman.c:423-435 | Walking through the trie along the codes of a text writes the text and stops there, whatever padding follows |
| HuffmanTrie.DecodeTree | coursedesign/zip/program/huffman.c:411-438 | An archive with at least two symbols decodes to the text, up to what the 32-bit count in it announces |
| HuffmanTrie.DecodeLeaf | coursedesign/zip/program/huffman.c:411-438 | An archive with one symbol decodes to nothing: its codes are empty |
| HuffmanTrie.RoundTrip | coursedesign/zip/program/huffman.c:360-438 | Decoding gives the text back if and only if it has two different bytes and fewer than 2^32 bytes |
| HuffmanPartial.InsertIs | coursedesign/zip/program/huffman.c:335-354 | Any code, into any trie: it cannot be added exactly if a leaf is on its way; otherwise exactly the missing nodes on its way are made, and its end is labelled unless there was a node already |
| HuffmanPartial.DecodesWords | coursedesign/zip/program/huffman.c:422-435 | Any data with any table: bits that spell words decode to their symbols up to the announced number; data that ends within a word ends the output there; bits that lead off the trie crash the program |
| HuffmanPartial.Divides | coursedesign/zip/program/huffman.c:422-435 | All data divides in one of these three ways |
| HuffmanPartial.Continued | coursedesign/zip/program/huffman.c:411-438 | Bytes behind an archive change nothing, but behind one of a single byte value they crash the program |
| HuffmanPartial.CutInTable | coursedesign/zip/program/huffman.c:292-333 | An archive that is cut off before its table ends is refused |
| HuffmanPartial.CutInData | coursedesign/zip/program/huffman.c:422-438 | One that is cut off later decodes, without any error, to the longest beginning of the text whose codes are there completely |
| HuffmanDecode.InsertCode | coursedesign/zip/program/huffman.c:335-354 | The walk makes the missing nodes in place, as the trie function says; it stops only where the program would take the symbol of a leaf for its children |
| HuffmanDecode.ReadCodeTable | coursedesign/zip/program/huffman.c:292-358 | The linked nodes are the trie that the table bytes describe, for any bytes, with every early end of the file |
| HuffmanDecode.DecodeData | coursedesign/zip/program/huffman.c:422-435 | The masks, nodes and counter do what feeding the bits one by one does, also when bits lead nowhere |
| HuffmanDecode.DecodeFile | coursedesign/zip/program/huffman.c:411-438 | For every file of bytes: status 1 for a bad table, a crash, or status 0 with the decoded text |
| HuffmanRoundTrip.CompressDecompress | coursedesign/zip/program/huffman.c:387-438 | The two programs one after the other give the file back if and only if it has two different byte values and a length below 2^32 |
| SwallowQueue.KeepSplits | inlonlife/socks5exp/tcplognke1/tcplognke.c:650-667 | Taking the matching packets out of the queue neither loses nor doubles one |
| SwallowQueue.AddAllCounts | inlonlife/socks5exp/tcplognke1/tcplognke.c:662-663 | The counts of an entry grow by exactly its packets in the list |
| SwallowQueue.Globals.MoveToInject | inlonlife/socks5exp/tcplognke1/tcplognke.c:645-669 | The region moves every matching packet, in its order, to the private list, counts it, and keeps the others in their order |
| SwallowQueue.Globals.FreeDeferredData | inlonlife/socks5exp/tcplognke1/tcplognke.c:576-607 | The region frees every packet of the socket and keeps the others in their order |
| SwallowQueue.Globals.FinishPacket | inlonlife/socks5exp/tcplognke1/tcplognke.c:713-725 | The count goes down, and a wakeup follows exactly if detach has announced itself and the count is not positive |
| SwallowQueue.Globals.DetachDone | inlonlife/socks5exp/tcplognke1/tcplognke.c:990-1007 | Detach is done exactly when the count is zero; otherwise it announces itself and sleeps under the same lock |
| SwallowQueue.Globals.TimerDone | inlonlife/socks5exp/tcplognke1/tcplognke.c:754-766 | The timer ends exactly if nobody asked for it while it was draining |
| SwallowQueue.Globals.SetPending | inlonlife/socks5exp/tcplognke1/tcplognke.c:1382-1400 | The timer is pending afterwards, and bsd_timeout is called exactly if it was inactive |
| SwallowProtocol.TimerKept | inlonlife/socks5exp/tcplognke1/tcplognke.c:742-768 | Every step keeps the link between gTimerState and the number of timer activations |
| SwallowProtocol.OneActivation | inlonlife/socks5exp/tcplognke1/tcplognke.c:1374-1400 | At most one activation of data_timer is outstanding, and there is none exactly when the state is inactive |
| SwallowProtocol.QueueKept | inlonlife/socks5exp/tcplognke1/tcplognke.c:742-768 | Every step keeps this: while a packet is queued, its producer has still to check the timer, or a drain of the whole queue is ahead |
| SwallowPackets.CountKept | inlonlife/socks5exp/tcplognke1/tcplognke.c:658-726 | Every step keeps numPktInDefer the exact number of packets of the entry in private lists or under injection |
| SwallowPackets.SleepKept | inlonlife/socks5exp/tcplognke1/tcplognke.c:716-721 | Every step keeps a wakeup ahead of every sleeper: none is lost |
| SwallowPackets.PlaceKept | inlonlife/socks5exp/tcplognke1/tcplognke.c:634-732 | Every step keeps each swallowed packet in exactly one place: queue, one private list, injected or freed |
| SwallowPackets.DetachKept | inlonlife/socks5exp/tcplognke1/tcplognke.c:981-1011 | Every step keeps what detach has established, if no new packet of its socket comes in |
| SwallowPackets.InvariantAlways | inlonlife/socks5exp/tcplognke1/tcplognke.c:576-768 | All of these hold after every interleaving of any number of producers, timers, events and detaches, with spurious wakeups |
| SwallowPackets.Safety | inlonlife/socks5exp/tcplognke1/tcplognke.c:576-768 | The same, spelt out for every state that can be reached from the start |
| SwallowPackets.DetachSafety | inlonlife/socks5exp/tcplognke1/tcplognke.c:981-1014 | When detach has returned, no packet of its entry is queued or in an inject list: all were injected or freed |
| SwallowExact.KeptAt | inlonlife/socks5exp/tcplognke1/tcplognke.c:650-667 | Every packet goes to its side of the scan, behind exactly those of its side that were before it |
| SwallowExact.OnlyItsOwn | inlonlife/socks5exp/tcplognke1/tcplognke.c:576-607 | On every run, a disconnecting event holds only packets of its socket, and only packets of sockets that were detached are freed |
| SwallowExact.TakesAllOfThem | inlonlife/socks5exp/tcplognke1/tcplognke.c:645-669 | A drain takes all queued packets of its sockets and no other; a detach frees all of its socket and no other |
| SwallowExact.WakesAtTheLast | inlonlife/socks5exp/tcplognke1/tcplognke.c:713-725 | Counting a packet down calls wakeup exactly if a detach of its entry is announced and that was the last packet of the entry in flight |
| SwallowExact.SleepsWhileInFlight | inlonlife/socks5exp/tcplognke1/tcplognke.c:990-1007 | A detach returns exactly if no packet of its entry is in flight, and changes nothing then; otherwise it is announced and sleeps |
| SwallowExact.AnnouncedBySleep | inlonlife/socks5exp/tcplognke1/tcplognke.c:990-1007 | Nothing else announces a detach, and nothing takes that back |
| SwallowProgress.StepsCost | inlonlife/socks5exp/tcplognke1/tcplognke.c:634-768 | Every step of a thread takes something away from a natural number |
| SwallowProgress.RunsEnd | inlonlife/socks5exp/tcplognke1/tcplognke.c:634-768 | So no run of the threads alone goes on for ever: no livelock between timer, detach and wakeups |
| SwallowProgress.RestIsComplete | inlonlife/socks5exp/tcplognke1/tcplognke.c:634-768 | When no thread can go on, none is asleep: the queue is empty, the timer inactive, and every packet injected or freed. There is no deadlock |
| SwallowProgress.EverythingIsDone | inlonlife/socks5exp/tcplognke1/tcplognke.c:634-768 | Both together, from every reachable state on |
| SwallowOrder.SoleKeepsOrder | inlonlife/socks5exp/tcplognke1/tcplognke.c:671-691 | While no two threads hold packets of a socket, its packets are injected in the order in which they were swallowed |
| SwallowOrder.TimerKeepsOrder | inlonlife/socks5exp/tcplognke1/tcplognke.c:742-768 | With data_timer as the only re-injector that is always so, on every run |
| SwallowOrder.InOrderIsNotOut | inlonlife/socks5exp/tcplognke1/tcplognke.c:671-691 | While the order is kept, no packet has overtaken an earlier one that is still to come |
| SwallowOvertake.NotSoleCanOvertake | inlonlife/socks5exp/tcplognke1/tcplognke.c:1191-1196 | Conversely, from every state in which two threads hold packets of a socket, the threads alone can bring them out of order |
| SwallowOvertake.EventBreaksOrder | inlonlife/socks5exp/tcplognke1/tcplognke.c:1191-1196 | A run from the start in which the disconnecting event overtakes the timer |
| HttpSpec.RunAppend | inlonlife/pcap/http_parser.c:689-693 | Reading a + b byte by byte is reading a and then b, with everything the parser remembers in its fields |
| HttpSplit.StepIsOrderly | inlonlife/pcap/http_parser.c:665-686 | Every byte fails, or joins the open mark, or closes it, or finds none: data callbacks never overlap |
| HttpSplit.SplitIndependence | inlonlife/pcap/http_parser.c:624-2078 | Cutting the input into two calls with data changes neither the state nor the fields nor the notifications; without a failure the data of all callbacks is the same too |
| HttpLoss.LostData | inlonlife/pcap/http_parser.c:665-686 | One call and two calls deliver the same data if and only if the second call does not break what the first has left open, which the fields and the next bytes tell: a name that does not end in a colon, a length that is not one or too great, a chunk with something else than a line end behind it |
| HttpLoss.ContinuedIsDecimal | inlonlife/pcap/http_parser.c:1584-1610 | Going on with a number that was cut is the same as reading it all at once |
| HttpLoss.LostDataExample | inlonlife/pcap/http_parser.c:2037-2043 | A chunk whose line end is wrong: one call loses the body byte that two calls deliver |
| HttpSplit.AnyCutting | inlonlife/pcap/http_parser.c:624-2078 | Any number of calls with data is as good as one, as long as the parser does not fail |
| HttpSplit.EmptyCall | inlonlife/pcap/http_parser.c:643-663 | A call without data is the end of the connection; it changes nothing exactly when no message is being read |
| HttpTables.TokenIs | inlonlife/pcap/http_parser.c:181-213 | The token table has exactly the visible characters of ASCII without the separators of section 2.2 of RFC 2616, in lower case |
| HttpTables.LowerIs | inlonlife/pcap/http_parser.c:411-411 | Setting the bit 0x20 makes a letter of exactly its two cases; a hyphen is also made of a carriage return, which never gets that far |
| HttpTables.UnhexIs | inlonlife/pcap/http_parser.c:215-224 | The hexadecimal table, both ways |
| HttpTables.Refused | inlonlife/pcap/http_parser.c:665-2065 | Which byte is refused with which error in which state, and that a refusal changes neither the callbacks nor the length |
| HttpTables.TakenIs | inlonlife/pcap/http_parser.c:624-2088 | The number of bytes taken is the place where the parser stopped or the byte that it refused |
| HttpTables.AfterClose | inlonlife/pcap/http_parser.c:697-703 | After a message that closes the connection, line ends are skipped and anything else is an error |
| HttpBody.ContentLengthValue | inlonlife/pcap/http_parser.c:1497-1504 | A Content-Length value is accepted exactly if it begins with a digit, holds digits and spaces and passes the test against overflow; the length is then the number written, below 2^64 - 1 |
| HttpBody.ChunkSizeValue | inlonlife/pcap/http_parser.c:1938-1987 | A hexadecimal size is accepted exactly up to 2^64 - 17, and is then the number written: it never wraps |
| HttpBody.HighByteIsZero | inlonlife/pcap/http_parser.c:1938-1987 | A byte from 128 on passes for the digit 0 of a chunk size, because the table has no entry for it |
| HttpTables.PrintedLength | inlonlife/pcap/http_parser.c:1497-1610 | Content-Length with the decimal digits of n gives n up to 2^64 - 7, and is refused above |
| HttpBody.PartOfBody | inlonlife/pcap/http_parser.c:1886-1921 | While bytes of a body are missing, none is delivered twice or out of turn, and exactly the rest is still to come |
| HttpBody.WholeBody | inlonlife/pcap/http_parser.c:1886-1921 | After exactly the announced bytes the whole body has been delivered, then message_complete once |
| HttpBody.EofBodyRuns | inlonlife/pcap/http_parser.c:1923-1927 | A body that ends with the connection takes every byte |
| HttpBody.ChunkRuns | inlonlife/pcap/http_parser.c:1938-2051 | A chunk announces its size, delivers its data, announces its end, and the next size line follows |
| HttpBody.ChunkedBody | inlonlife/pcap/http_parser.c:1938-2051 | Chunks, the zero chunk and an empty trailer: the callbacks in order and the state after the message, as section 3.6.1 of RFC 2616 asks |
| HttpBody.ChunkedRoundTrip | inlonlife/pcap/http_parser.c:1938-2051 | However a chunked body is cut into calls, on_body delivers exactly the concatenation and message_complete comes once, at the end |
| HttpBody.LengthRoundTrip | inlonlife/pcap/http_parser.c:1886-1921 | However a body of known length is cut into calls, its bytes arrive, and message_complete comes, after them, if and only if all have arrived |
| HttpBody.PrintedHex | inlonlife/pcap/http_parser.c:1953-1987 | Printing a number in hexadecimal and reading it gives the number back |
| HttpBody.PrintedRoundTrip | inlonlife/pcap/http_parser.c:1938-2051 | Any list of non-empty pieces, printed as chunks and cut anywhere, arrives as their concatenation |
| HttpHeaders.HeaderName | inlonlife/pcap/http_parser.c:1282-1457 | For every name of token characters up to the colon, the header state is that of content-length, transfer-encoding, upgrade or connection if and only if the whole name is that word, in any case: the character-by-character matcher is right |
| HttpHeaders.ChunkedValue | inlonlife/pcap/http_parser.c:1623-1672 | Transfer-Encoding says chunked if and only if the value is that word, in any case, with only spaces after it |
| HttpConnection.ConnectionNoted | inlonlife/pcap/http_parser.c:1505-1747 | A Connection value on one line sets close, keepAlive and connUpgrade exactly for the words that are heard among its comma-separated elements, in any case, and changes no other flag |
| HttpConnection.RegularIsHeard | inlonlife/pcap/http_parser.c:1623-1699 | Every element is heard if and only if no element before the last is empty or the beginning of one of the words: behind such an element the comma does not separate |
| HttpConnection.RegularValue | inlonlife/pcap/http_parser.c:1505-1747 | In such a list exactly the words that are elements are recorded, with blanks before them, except at the beginning, and spaces after them |
| HttpConnection.CloseIsMissed | inlonlife/pcap/http_parser.c:1642-1662 | In "c,close" and ",close" the word close is not recorded |
| HttpConnection.CloseIsLost | inlonlife/pcap/http_parser.c:1623-1640 | Nor in "x,,close", where an empty element ends the listening |
| HttpLines.LineRuns | inlonlife/pcap/http_parser.c:1282-1786 | Every header line: blanks and line ends before the value, CR LF or LF, an empty value, a value that goes on over several lines. What it says about the connection, an upgrade, the coding or the length is recorded, and nothing else is |
| HttpLines.LinesRun | inlonlife/pcap/http_parser.c:1282-1786 | So do any lines, one after the other, with exactly their names and values delivered |
| HttpLines.ToldTogether | inlonlife/pcap/http_parser.c:1716-1786 | Together they set exactly the flags that one of them sets |
| HttpLines.LengthTold | inlonlife/pcap/http_parser.c:1497-1610 | And the length is that of the last line that gives one |
| HttpMessages.BodyFollows | inlonlife/pcap/http_parser.c:1788-1884 | Which body follows the empty line, in all cases: none for CONNECT, or if the caller asks for none; chunks before a length, a length unless it is zero or absent, else the end of the connection if a body may follow at all, else none, and the message is complete; as section 4.4 of RFC 2616 asks. And when the connection is upgraded |
| HttpMessages.NextMessage | inlonlife/pcap/http_parser.c:2091-2127 | The connection is closed after a message exactly if its end was the end of the connection, or close was said under HTTP/1.1, or keep-alive was not said under 1.0 |
| HttpMessages.HeadRuns | inlonlife/pcap/http_parser.c:1282-1884 | Any lines and the empty line: the state, flags, length, upgrade and callbacks after the head, from what the lines say |
| HttpMessages.ChunkedMessage | inlonlife/pcap/http_parser.c:1282-2051 | Any header lines, with chunked coding among them, the end of the head, a chunked body and a trailer of any lines, cut in any way: the body arrives, the message is complete once, and the connection stays open or closes as the lines say: with HTTP/1.1 exactly close ends it, with 1.0 exactly keep-alive keeps it |
| HttpMessages.LengthMessage | inlonlife/pcap/http_parser.c:1282-1921 | The same with Content-Length; complete if and only if all of the body has arrived |
| HttpMessages.ClosedMessage | inlonlife/pcap/http_parser.c:643-663 | A response without chunked coding, length and upgrade and with a status other than 1xx, 204 and 304 goes on until the connection ends: all its bytes arrive, cut in any way, and the closing empty call completes it, once (http_message_needs_eof; section 4.4 of RFC 2616) |
| HttpMessages.BodilessMessage | inlonlife/pcap/http_parser.c:1839-1884 | Any other message is complete with its head, and the callbacks are exactly the names and values of its lines and the two ends |
| HttpMessages.WordIsGiven | inlonlife/pcap/http_parser.c:1505-1747 | A Connection line with one of the words alone says it: so HTTP/1.1 with close ends the connection |
| HttpHeaders.SoundKept | inlonlife/pcap/http_parser.c:1886-2051 | Every byte keeps what the assert calls of the program demand of lengths, flags and indexes into the names (nread is with Execute) |
| HttpHeaders.AssertionsHold | inlonlife/pcap/http_parser.c:1282-2051 | So the assertions hold throughout a message, from its first header on |
| HttpParser.Execution.ScanName | inlonlife/pcap/http_parser.c:1332-1457 | The inner loop over a name does what its bytes do one at a time |
| HttpParser.Execution.ScanValue | inlonlife/pcap/http_parser.c:1531-1715 | So does the one over a value, with its jump to the next line end |
| HttpParser.Execution.StateBodyIdentity | inlonlife/pcap/http_parser.c:1886-1921 | Taking as much of a body at once as there is data for does what its bytes do one at a time |
| HttpParser.Execution.StateChunkData | inlonlife/pcap/http_parser.c:2015-2035 | The same for the data of a chunk |
| HttpParser.Execution.EndOfCall | inlonlife/pcap/http_parser.c:2054-2078 | The open mark is delivered at the end of a call, from where it was set |
| HttpLimit.CountAppend | inlonlife/pcap/http_parser.c:150-156 | The count of header bytes, and whether it stays within 80 KiB, do not depend on the cut |
| HttpParser.Execution.Execute | inlonlife/pcap/http_parser.c:624-2088 | With its marks, jumps, re-examined bytes and counters, one call does exactly what the byte-by-byte reading says, also an empty one, and returns how many bytes were taken. It goes on only while at most 80 KiB of header bytes are read in a row, and stops for that only if they exceed it, or reach it where a call ends within a name or value and the program counts a byte twice. The assertions hold, also that nread is 1 after the first byte of a size line |
| Lz77Bits.BitGet | algorithms/maic/bit.c:14-23 | bit_get reads bit pos, counted from the most significant bit of the first byte |
| Lz77Bits.BitSet | algorithms/maic/bit.c:26-39 | bit_set sets that bit and changes no other |
| Lz77Bits.Net32Bits | algorithms/maic/lz77.c:121-122 | htonl lays the 32 bits of a token out in order, most significant first |
| Lz77Bits.Host32Value | algorithms/maic/lz77.c:252-253 | ntohl reads them back |
| Lz77.TokenRoundTrip | algorithms/maic/lz77.c:100-120 | A token of 9 or 26 bits reads back as itself, and the bits after it are left over |
| Lz77.DecodeApplies | algorithms/maic/lz77.c:214-378 | Decoding written tokens does what they say, whatever bits follow |
| Lz77Layout.TokenLayout | algorithms/maic/lz77.c:100-120 | Which bit of a token is which digit of its offset, length and byte |
| Lz77Layout.FlatDigit | algorithms/maic/bit.c:14-39 | Bit k of a byte string is a binary digit of the number in its byte, the most significant first |
| Lz77Layout.HeaderLayout | algorithms/maic/lz77.c:84-87 | The header is the size with its lowest byte first |
| Lz77Layout.NothingAnnounced | algorithms/maic/lz77.c:193-214 | A size that is zero or negative decompresses to nothing |
| Lz77Greedy.GreedyIsUnique | algorithms/maic/lz77.c:21-71 | For a window and a buffer there is one greedy choice |
| Lz77Greedy.FactorsAreUnique | algorithms/maic/lz77.c:96-165 | So for an input there is one list of tokens |
| Lz77Greedy.ZerosShrink | algorithms/maic/lz77.c:96-165 | For zeros it takes 26 bits for 32 bytes |
| Lz77Codec.CompareWin | algorithms/maic/lz77.c:21-71 | The longest match of the look-ahead buffer in the window, the first of those, and the byte behind it |
| Lz77Codec.OredFields | algorithms/maic/lz77.c:101-117 | The fields of a token do not overlap: or-ing them one after the other gives their sum |
| Lz77Codec.AppendToken | algorithms/maic/lz77.c:124-136 | Exactly the last tbits bits of the token are written after the bits that are there |
| Lz77Codec.SlideWindow | algorithms/maic/lz77.c:148-149 | The first bytes of the buffer are shifted into the window |
| Lz77Codec.RefillBuffer | algorithms/maic/lz77.c:155-159 | The buffer begins with the next bytes of the input, as far as there are any; stale bytes may stand behind them |
| Lz77Codec.WriteToken | algorithms/maic/lz77.c:100-136 | The written token is the greedy choice: the longest match of at most 31 bytes, where it occurs first, with the byte behind it, or a byte alone if nothing matches; it stands for the beginning of the buffer |
| Lz77Codec.TokenInStep | algorithms/maic/lz77.c:142-165 | A token keeps the windows of both programs equal, or completes the output, even if it reaches into stale bytes |
| Lz77Codec.CopyPhrase | algorithms/maic/lz77.c:259-311 | A phrase is copied as far as bytes are missing |
| Lz77Codec.Compress | algorithms/maic/lz77.c:74-179 | The output is the size and the list of tokens in which each is the greedy choice at its position. It decodes to the input, for every input, also the empty one, and takes at most 13 bits a byte and a little more |
| Lz77Codec.Uncompress | algorithms/maic/lz77.c:182-391 | The decompressor computes the decoding of every well-formed byte string |
| Lz77Codec.RoundTrip | algorithms/maic/lz77.c:74-391 | Decompressing what was compressed gives the input back |
| PagingPolicy.Conservative | experiment/os/exp5/page.c:57-126 | In every stretch of the stream with at most k pages, wherever it stands, FIFO and LRU with k frames fault at most k times |
| PagingPolicy.PhaseMiss | experiment/os/exp5/page.c:57-126 | Every schedule with k frames faults once in each phase of k + 1 pages |
| PagingPolicy.Competitive | experiment/os/exp5/page.c:57-126 | FIFO and LRU fault at most k times as often as any schedule with k frames, and k times more |
| PagingPolicy.LruIsRecency | experiment/os/exp5/page.c:91-126 | LRU holds the k pages that were used last |
| PagingPolicy.LruInclusion | experiment/os/exp5/page.c:91-126 | With more frames LRU holds all the pages that it holds with fewer |
| PagingPolicy.LruFaultsMonotone | experiment/os/exp5/page.c:91-126 | So it never faults more often |
| PagingOrder.FifoIsLoads | experiment/os/exp5/page.c:57-89 | FIFO holds the pages that were loaded last, in the order of their loads, so a hit changes nothing and the page whose load is oldest is replaced; it faults once for each load |
| PagingOrder.ResidentIfUsedLately | experiment/os/exp5/page.c:91-126 | A page is held by LRU if and only if fewer than k other pages have been used since its last use |
| PagingOrder.LruFaultsAre | experiment/os/exp5/page.c:91-126 | So LRU faults exactly at the references to pages that were not used, or not since k others were |
| Paging.Memory.FifoStep | experiment/os/exp5/page.c:63-86 | One reference: the linked free and busy lists and the page table do what the policy says |
| Paging.Memory.Oldest | experiment/os/exp5/page.c:103-110 | The scan for the smallest time finds the page that was used longest ago |
| Paging.Memory.LruStep | experiment/os/exp5/page.c:98-123 | One reference: the times and the frame lists do what the policy says |
| Paging.RunFifo | experiment/os/exp5/page.c:57-89 | loss_effects is the number of faults of the policy and of loads, for any stream, number of pages and of frames from two on |
| Paging.RunLru | experiment/os/exp5/page.c:91-126 | The same for LRU, from one frame on: the number of references to pages that were not used lately |
| TreeMetric.Triangle | acm/lanqiao/t32.cpp:21-34 | Distances in a tree satisfy the triangle inequality |
| TreeMetric.FourPoints | acm/lanqiao/t32.cpp:21-34 | Of the three ways to pair four vertices, none is longer than both others |
| TreeMetric.WalksAreLonger | acm/lanqiao/t32.cpp:21-34 | No walk along the roads is shorter than the distance |
| TreeMetric.SomeWalk | acm/lanqiao/t32.cpp:21-34 | And some walk has that length |
| TreeMetric.TwoSweeps | acm/lanqiao/t32.cpp:86-92 | From a vertex that is farthest from anywhere, some vertex is at least as far as any two are from each other |
| TreeMetric.RoadTowardRoot | acm/lanqiao/t32.cpp:26-32 | Every road leads toward the root in one direction, and distances add up along it |
| RoadNetwork.FindTree | acm/lanqiao/t32.cpp:63-73 | Every list of n - 1 roads that connect n cities is a tree, whatever their order |
| RoadNetwork.DistIsShortest | acm/lanqiao/t32.cpp:21-34 | The distance in that tree is the length of the shortest way along the roads |
| TreeSweep.Network.AddRoad | acm/lanqiao/t32.cpp:65-73 | A road is added to the lists of both of its ends |
| TreeSweep.Network.Dfs | acm/lanqiao/t32.cpp:21-34 | dfs visits the vertex and everything that hangs on it, forgets nothing, and all distances it writes are right |
| TreeSweep.Network.Sweep | acm/lanqiao/t32.cpp:44-46 | After init and dfs, d holds the distances from the root to all vertices |
| TreeSweep.Network.MaxElement | acm/lanqiao/t32.cpp:88-88 | A vertex with the greatest distance |
| TreeSweep.CalcIsSum | acm/lanqiao/t32.cpp:56-59 | calc(s) is the sum of 10 + k for k from 1 to s |
| TreeSweep.Solve | acm/lanqiao/t32.cpp:61-97 | For all n cities that n - 1 roads connect, the answer is the cost of the greatest distance of two cities, a distance being the length of the shortest way |
| MemoryTable.AllocTiles | experiment/os/exp4/memory.c:84-100 | Allocating keeps the table a tiling of the same addresses |
| MemoryTable.AllocOwner | experiment/os/exp4/memory.c:84-100 | It gives the process the first addresses of the block and changes no other owner |
| MemoryTable.ReleaseTiles | experiment/os/exp4/memory.c:103-126 | Freeing keeps the tiling, frees exactly the addresses of the block and changes no other owner |
| MemoryTable.ReleaseMerged | experiment/os/exp4/memory.c:111-121 | After it no two neighbouring blocks are free |
| MemoryTable.FreesFirst | experiment/os/exp4/memory.c:103-126 | Freeing a process frees the addresses of its first block and of no other, and does nothing if it has none |
| MemoryTable.InsertedAndErased | experiment/os/exp4/memory.c:52-81 | An index out of range inserts at the nearer end; erasing there undoes it |
| MemoryTable.FreeUndoesAlloc | experiment/os/exp4/memory.c:84-126 | Freeing a process that has just got memory restores the exact table |
| MemoryTable.RunIsBlock | experiment/os/exp4/memory.c:128-202 | Some block fits a request if and only if somewhere so many consecutive addresses are free |
| MemoryTable.FirstIsFirst | experiment/os/exp4/memory.c:128-142 | First fit takes the first block that fits |
| MemoryTable.BestIsSmallest | experiment/os/exp4/memory.c:162-181 | Best fit takes the first of the smallest that fit, but none of the size INT_MAX |
| MemoryTable.WorstIsLargest | experiment/os/exp4/memory.c:183-202 | Worst fit takes the first of the largest that fit |
| MemoryTable.RefusedOnlyIfFull | experiment/os/exp4/memory.c:128-202 | First and worst fit refuse if and only if no run of free addresses is long enough; best fit if and only if all blocks that fit have a size of INT_MAX or more |
| MemoryTable.BestFitRefuses | experiment/os/exp4/memory.c:165-170 | A block of the size INT_MAX that best fit passes over |
| MemoryTable.RunKeeps | experiment/os/exp4/memory.c:84-202 | Every run of requests and releases keeps the tiling and the joined free blocks |
| MemoryTable.TotalIsConstant | experiment/os/exp4/memory.c:84-202 | The sizes always add up to the memory there is |
| MemoryTable.FewBlocks | experiment/os/exp4/memory.c:52-67 | At most one free block more than used ones, so 2047 processes never fill the 4096 entries |
| MemoryManager.MemMan.InsertBlock | experiment/os/exp4/memory.c:52-67 | The shifting loop inserts the block, at an index that is first put into range |
| MemoryManager.MemMan.EraseBlock | experiment/os/exp4/memory.c:70-81 | The shifting loop takes the block out; an index one past the end loses the last block |
| MemoryManager.MemMan.AllocBlock | experiment/os/exp4/memory.c:84-100 | memman_alloc in place, also for a block that is too small |
| MemoryManager.MemMan.FreeProcess | experiment/os/exp4/memory.c:103-126 | memman_free in place, for the first block of the process, if there is one |
| MemoryManager.MemMan.FirstFitAlloc | experiment/os/exp4/memory.c:128-142 | first_fit does what the table function says, and succeeds exactly if it finds a block |
| MemoryManager.MemMan.BestFitAlloc | experiment/os/exp4/memory.c:162-181 | best_fit, likewise |
| MemoryManager.MemMan.WorstFitAlloc | experiment/os/exp4/memory.c:183-202 | worst_fit, likewise |
| MergeSort.MergeOrdered | coursedesign/exam/exam/slist.c:262-297 | Merging two ordered lists gives an ordered one, for every total preorder |
| MergeSort.MergeStable | coursedesign/exam/exam/slist.c:262-297 | Equal items keep their order, those of the left list first |
| MergeSort.SortIsStable | coursedesign/exam/exam/slist.c:299-336 | Sorting gives exactly the same items, in order, and equal items in their original order |
| SlistSort.Take | coursedesign/exam/exam/slist.c:284-285 | The smaller head is linked behind the merged nodes; everything else stays linked as it was |
| SlistSort.SlistSortMerge | coursedesign/exam/exam/slist.c:272-297 | The nodes of the two lists, relinked in place, are one list in the order of the merge |
| SlistSort.Middle | coursedesign/exam/exam/slist.c:314-328 | The two pointers stop with the slow one at the last node of the first half, and both halves have nodes |
| SlistSort.Cut | coursedesign/exam/exam/slist.c:329-330 | The list is cut into two lists that share no node |
| SlistSort.SlistSort | coursedesign/exam/exam/slist.c:306-336 | The result is a list of exactly the original nodes in the sorted order, and the recursion ends, for every comparison |
| Scheduling.OneRunsAlways | experiment/os/exp3/priority.c:193-252 | On every run at most one task is running, before and during each slice |
| Scheduling.NeverPreempted | experiment/os/exp3/priority.c:200-209 | A task loses the processor to another only after it has blocked or finished |
| Scheduling.WorkKept | experiment/os/exp3/priority.c:222-226 | Time used and time needed of a task always have the same sum |
| Scheduling.BlocksOnce | experiment/os/exp3/priority.c:231-236 | A task blocks at most once after the start |
| Scheduling.RunEnds | experiment/os/exp3/priority.c:193-252 | If no task has a negative time that keeps it from finishing (`NeverEnds`), all have finished after so many slices as the first table has work, waits and states left |
| Scheduling.FinishedUsedItsTime | experiment/os/exp3/priority.c:222-229 | A task that has finished has used exactly the time it needed, even one that blocked in its last slice and ran again |
| Scheduling.NeverEnds | experiment/os/exp3/priority.c:193-252 | The condition on the times is exact: on every run from a table with a task that needs a negative time, or that is blocked for one or will be before it ends, that task never finishes |
| Scheduling.FieldsAfter | experiment/os/exp3/priority.c:214-249 | All fields of a task after any part of a run: its priority is the first one, plus the slices in which it was ready without running, minus three for each slice that it ran; its times have gone down by the slices that they are about |
| Scheduling.StateAfter | experiment/os/exp3/priority.c:214-249 | Its state follows from these: which slice blocks it, ends it, or makes it ready again |
| Scheduling.PriorityDecides | experiment/os/exp3/priority.c:200-209 | A slice goes to the running task, else to a ready one of the highest priority of all that are ready, and to none only if none is ready |
| TaskList.Pcb.Tick | experiment/os/exp3/priority.c:214-249 | What a slice does to one control block |
| TaskList.Tasks.SortTasklist | experiment/os/exp3/priority.c:159-190 | The blocks are only reordered: the running one first, then the ready ones by falling priority |
| TaskList.Tasks.Dispatch | experiment/os/exp3/priority.c:200-209 | Unless a task is running, a ready one of the highest priority starts to run, if there is one |
| TaskList.Tasks.TickAll | experiment/os/exp3/priority.c:213-250 | Every task goes through its slice once; the count reaches the length exactly if all had finished before |
| TaskList.Tasks.RunTasklist | experiment/os/exp3/priority.c:193-252 | The loop ends, with all tasks finished; the tables it went through are a run of the scheduler, and it stops after the first slice in which it sees that all had finished before |

## Left out

- HttpParser.Execution.Execute: when the header limit of 80 KiB is exceeded, the callbacks made before that are not stated. The program counts a byte twice when a call ends inside a header name or value, so one header byte less than the limit can be too many.
- HttpParser.Execution.Execute: a call ends at the end of a message, where the program goes on to the first line of the next one, which is not part of this model.
- HttpSplit.SplitIndependence: says nothing about nread, which depends on the cut for that reason, and is about callbacks that return 0.
- HttpMessages.ChunkedMessage: names are not empty, values hold no refused byte, and a Content-Length stands on one line and does not overflow; other lines are refused as `HttpTables.Refused` says.
- Paging.RunFifo: asks for two frames; with one frame the program links the only frame to itself through the stale busy_tail.
- Paging.RunLru: asks for at most INT_MAX references, which the time stamps count.
- Lz77Codec.Uncompress: asks for a well-formed input; the program reads outside its arrays on any other.
- Lz77Codec.Compress: asks for fewer than 2^31 bytes, the range of its size parameter; that the bit position opos also fits an int is not modelled.
- TaskList.Tasks.RunTasklist: the order of blocked and finished tasks in the table is not stated, because it is whatever qsort makes of a contradictory comparison.
- SlistSort.SlistSort: the second argument of the compare function is part of the function here.
- MemoryManager.MemMan.AllocBlock: asks for a free table entry; the program writes behind the table when all 4096 are used.
- int overflow in sums, priorities, counts and addresses, except where a width is named above.
- Failing malloc and realloc, and freeing memory. Buffers that the programs enlarge are sequences here.
- HTTP: the first line of a message and its URL, pausing, callbacks that ask to stop, upgraded connections after their head, and data callbacks without bytes.
- Packet filter: mbuf tags, the prepended header, logging, control sockets, and results of injecting; a packet counts as injected when it has been handed over. The width of numPktInDefer.
- Huffman: printing of tables, and the second Huffman coder in `algorithms/maic/huffman.c`, whose codes need not fit 16 bits.
- Memory: next_fit, whose loop need not end when nothing fits, and main.
- Paging: OPT and the hit rate as a floating-point number; a rate is a function of the number of faults.
- Scheduler: reading and printing tables, and the limit of 1024 tasks.
- Sorting, searching, lists and queues elsewhere in the repository: they would only add easy members.
