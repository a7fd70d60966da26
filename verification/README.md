# Verified core of the base library

Dafny models of the containers, smart pointers, searches, streams, parsers and number types in `base/`, with proofs of
what they are for. `dafny verify dfyconfig.toml` checks everything.

Code that updates things in place is modelled in place: the red-black tree works on linked nodes, the sorts on an array,
the streams, the hash table and the parser are classes whose methods change their fields. Each such method is proved
against a function or a plain statement about values; the lemmas beside them say what those values mean. The lock-free
pointers are a machine whose threads take one atomic step at a time, under sequential consistency, and the theorems are
about all its runs.

| files | what they model |
|---|---|
| `RedBlackShape`, `RedBlackColors`, `RedBlackMirror`, `RedBlackEdits`, `RedBlackCases`, `RedBlackRemoval`, `RedBlackHeight`, `RedBlackWork`, `RedBlackTree` | the tree of `base/RedBlackTree.h`: links and order, colours and black heights, mirror images, relinking, the rounds of both fixups, height, how many rounds and rotations there are, and the tree object |
| `Tallies`, `RefPtr`, `WeakLink` | counting in maps; the lock bit, exchange and reference count of `base/RefPtr.h`, `base/NonnullRefPtr.h`, `base/RefCounted.h`; weak links of `base/Weakable.h`, `base/WeakPtr.h` |
| `MemMem`, `MemoryStream`, `Bytes` | both substring searches of `base/MemMem.h`; the chunked stream of `base/MemoryStream.h` |
| `HashProbing`, `HashTable` | the unordered table of `base/HashTable.h` |
| `SortOrder`, `QuickSort` | both sorts of `base/QuickSort.h` |
| `Numerals`, `JsonText`, `JsonGrammar`, `JsonRoundTrip`, `JsonParser`, `JsonSerializer` | numerals, the JSON writer and parser, and their round trip |
| `Arithmetic`, `UFixedBigInt`, `BigIntLoops` | powers and division; the wide integers of `base/UFixedBigInt.h` |
| `BitRanges`, `BitmapView`, `BitStream` | ranges of unset bits in `base/BitmapView.h`; bit streams of `base/BitStream.h` |
| `UrlParser`, `UrlLoop`, `UrlTexts`, `UrlComponents` | the state loop of `base/URLParser.cpp`, why it ends, and what query, fragment and host are |
| `CircularDuplexStream`, `Time`, `Limits`, `Optional` | the ring buffer with history; time and calendar; bounds of integer types; optional values |

Where the code does not meet the plain claim, the model follows the code and the exact condition is proved: needles of 31
bytes (`Bitap.MemMemLengths`), control characters and integers in JSON (`JsonRoundTrip.RoundTrip`), ranges across the last
whole bucket of a bitmap (`BitmapViews.LongestLosesTail`), a file URL without a path as a base
(`UrlLoop.AssertionsHold`), and two ways in which a URL gets another query or fragment than its text has: the path of a
URL that cannot be a base stays in the buffer and comes in front of them, and a file URL without a file base passes over
all marks up to its second slash (`UrlComponents.ComponentsExactly`). Nothing is taken for granted about the next hash on
a probe path: a lookup that the source would never return from is an outcome of its own (`HashTables.HashTable.Find`).
The FIXME at `base/MemoryStream.h:222` is settled: chunks that the stream writes into need no clearing, no byte is read
that was not written. The places marked with a null check question in `base/RedBlackTree.h` need none.

## Model

| member | source | states |
|---|---|---|
| `RedBlackTree.BaseRedBlackTree.Insert` | base/RedBlackTree.h:130-162 | every insert keeps search order, links, black root, no red under red and equal black heights; the in-order sequence is the old one with the node behind all keys not greater; at most 2 log2(n + 1) nodes visited and half as many fixup rounds, and at most two rotations |
| `RedBlackTree.BaseRedBlackTree.Remove` | base/RedBlackTree.h:206-283 | every remove, both relink cases of two children included, keeps the same rules and takes exactly that node out of the in-order sequence; at most 2 log2(n + 1) fixup rounds and three rotations |
| `RedBlackTree.BaseRedBlackTree.InsertFixups` | base/RedBlackTree.h:164-204 | from a tree whose only fault is a red node under a red one, the loop and the final blackening end in a sound tree with the same sequence; rounds at most half the depth, at most two rotations |
| `RedBlackTree.BaseRedBlackTree.RemoveFixups` | base/RedBlackTree.h:286-341 | from a tree that lacks one black on the ways through one place, the loop ends in a sound tree without reading through null, at lines 302, 309, 326, 333 and 340 or elsewhere; rounds at most the depth, at most three rotations |
| `RedBlackTree.BaseRedBlackTree.RotateLeft` | base/RedBlackTree.h:48-73 | the pointer writes turn every cell, the root and the spans into those of the rotated tree, and no other cell changes |
| `RedBlackTree.BaseRedBlackTree.RotateRight` | base/RedBlackTree.h:75-100 | the same for the mirror image of that tree |
| `RedBlackTree.BaseRedBlackTree.RelinkNear` | base/RedBlackTree.h:223-263 | the pointer writes for a successor that is the right child trade the two places exactly |
| `RedBlackTree.BaseRedBlackTree.RelinkFar` | base/RedBlackTree.h:223-263 | the pointer writes for a successor further down trade the two places exactly |
| `RedBlackTree.BaseRedBlackTree.FindPlace` | base/RedBlackTree.h:133-142 | the way down ends, after at most 2 log2(n + 1) nodes, at a node with room on the side where the key belongs, behind all keys not greater |
| `RedBlackTree.BaseRedBlackTree.Find` | base/RedBlackTree.h:102-112 | a node with the key, or null if and only if there is none, after at most 2 log2(n + 1) nodes |
| `RedBlackTree.BaseRedBlackTree.FindLargestNotAbove` | base/RedBlackTree.h:114-128 | a node with the greatest key not above, or null if and only if all keys are above, after at most 2 log2(n + 1) nodes |
| `RedBlackTree.BaseRedBlackTree.Successor` | base/RedBlackTree.h:343-359 | the next node of the in-order sequence, or null at its end |
| `RedBlackTree.BaseRedBlackTree.Predecessor` | base/RedBlackTree.h:361-377 | the previous node of the in-order sequence, or null at its start |
| `RedBlackTree.BaseRedBlackTree.InsertKey` | base/RedBlackTree.h:456-463 | a new node for the key goes in behind all keys not greater, and every rule is kept |
| `RedBlackTree.BaseRedBlackTree.RemoveKey` | base/RedBlackTree.h:505-518 | removes one node with the key and says so, or changes nothing if there is none |
| `RedBlackTree.BaseRedBlackTree.Height` | base/RedBlackTree.h:130-283 | of every tree that insert and remove keep: the sequence is the in-order walk, and no node is deeper than 2 log2(n + 1) |
| `RedBlackTree.BaseRedBlackTree.PushTroubleUp` | base/RedBlackTree.h:167-202 | the loop of the insert fixups ends with no red parent; a round that rotates is the last |
| `RedBlackTree.BaseRedBlackTree.FixRemovalRound` | base/RedBlackTree.h:288-338 | one round of the removal fixups, either side, moves the missing black one node up without rotating or is the last |
| `RedBlackShape.RotateLeftShaped` | base/RedBlackTree.h:48-73 | a left rotation keeps parent and child links matching and the in-order sequence |
| `RedBlackShape.RotateRightShaped` | base/RedBlackTree.h:75-100 | a right rotation, as the mirror image of a left one, does too |
| `RedBlackCases.GrandParent` | base/RedBlackTree.h:167-170 | in every tree with one red node under a red parent there is a black grandparent to read |
| `RedBlackCases.InsertRoundSound` | base/RedBlackTree.h:167-202 | one round of the insert fixups, whichever of its six cases, has all it reads, leaves at most one fault and fewer rounds to go, and none if it rotates |
| `RedBlackRemoval.BlackSibling` | base/RedBlackTree.h:290-297 | the sibling that a removal round reads is there, and black after the first case |
| `RedBlackRemoval.FarNephew` | base/RedBlackTree.h:301-310 | the nephews that are recoloured without a check at lines 302 and 309 are there |
| `RedBlackRemoval.BlackSiblingRight` | base/RedBlackTree.h:314-321 | the same on the right side |
| `RedBlackRemoval.FarNephewRight` | base/RedBlackTree.h:325-334 | the same for lines 326 and 333 |
| `RedBlackRemoval.RemoveRoundLeftSound` | base/RedBlackTree.h:289-312 | one round on the left side either settles the missing black or moves it up |
| `RedBlackRemoval.RemoveRoundRightSound` | base/RedBlackTree.h:313-336 | one round on the right side likewise |
| `RedBlackRemoval.PaidSound` | base/RedBlackTree.h:338-340 | when the loop has ended the node to recolour at line 340 is not null, and recolouring it makes the tree sound |
| `RedBlackRemoval.CutOwing` | base/RedBlackTree.h:264-283 | cutting out a black node leaves exactly one black missing where its child is |
| `RedBlackEdits.AttachColors` | base/RedBlackTree.h:146-158 | hanging a red leaf in breaks no rule but the one about its red parent |
| `RedBlackEdits.ExchangeShaped` | base/RedBlackTree.h:223-263 | trading places keeps the links matching and puts the two nodes in each other's place of the sequence |
| `RedBlackEdits.ExchangeCutOrder` | base/RedBlackTree.h:206-283 | trading places with the successor and cutting the node out removes just that node from the sequence |
| `RedBlackWork.InsertRoundWork` | base/RedBlackTree.h:167-202 | a round that rotates is the last one; any other goes on two nodes further up |
| `RedBlackWork.LeftRoundWork` | base/RedBlackTree.h:289-312 | a round on the left side rotates at most three times, and is then the last one |
| `RedBlackWork.RightRoundWork` | base/RedBlackTree.h:313-336 | the same on the right side |
| `RedBlackWork.CutDepth` | base/RedBlackTree.h:265-276 | taking a node with at most one child out makes no way longer |
| `RefPtrProtocol.EveryInterleaving` | base/RefPtr.h:52-109 | in every run of copies, moves, assignments, clears and drops by any threads: no VERIFY fails, nothing is used after or deleted twice, and a count is the slots pointing there plus references in flight and lost |
| `RefPtrProtocol.CopyBeatsClear` | base/RefPtr.h:400-419 | the race written out in the source cannot occur: what a copying thread read under the lock bit stays alive until it has added its reference |
| `RefPtrProtocol.StepKeepsInv` | base/RefPtr.h:382-425 | every atomic step of every operation keeps the counting and locking invariants |
| `RefPtrProtocol.StepFaultless` | base/RefCounted.h:50-88 | ref is never called at zero, deref never below one, delete never twice |
| `RefPtrProtocol.ZeroStays` | base/RefCounted.h:50-105 | a count that reached zero stays zero until the address is given to a new object |
| `RefPtrProtocol.OneDeleter` | base/RefCounted.h:94-105 | at most one thread is about to delete an object |
| `RefPtrProtocol.LockIsReleased` | base/NonnullRefPtr.h:242-261 | the holder of a lock bit is two of its own steps from giving it back |
| `RefPtrProtocol.LockedBalances` | base/NonnullRefPtr.h:290-313 | adding a reference under the lock bit, by either way of taking it, keeps the count exact |
| `RefPtrProtocol.ExchangeBalances` | base/NonnullRefPtr.h:263-288 | exchanging an address moves one reference in and one out |
| `RefPtrProtocol.FillBalances` | base/RefPtr.h:68-83 | assign_if_null moves the reference in, or loses it and counts it as lost |
| `WeakLinkProtocol.EveryInterleaving` | base/Weakable.h:34-83 | in every run of strong_ref, make_weak_ptr, unref and destruction: no VERIFY fails, nobody touches the count after revoke returned, and the object is deleted exactly once after the last reference |
| `WeakLinkProtocol.NoResurrection` | base/RefCounted.h:57-68 | a count that reached zero never rises, so no later strong_ref gets a reference |
| `WeakLinkProtocol.StepKeepsInv` | base/WeakPtr.h:174-203 | every atomic step keeps the counts of owners, consumers and destroyers |
| `WeakLinkProtocol.RevokeKeepsInv` | base/Weakable.h:68-83 | the wait loop lets the destructor go on only when nobody is left who was let in before |
| `WeakLinkProtocol.WeakKeepsInv` | base/WeakPtr.h:174-203 | make_weak_ptr by an owner gives its extra reference back without deleting the object |
| `WeakLinkProtocol.RevokeReturns` | base/Weakable.h:68-83 | the wait loop ends once nobody is inside strong_ref |
| `WeakLinkProtocol.WaitEnds` | base/Weakable.h:68-83 | from any state in which the destructor waits, once nobody enters any more and everybody inside has made three steps, in any order, two steps of its own end the wait |
| `KnuthMorrisPratt.MemMem` | base/MemMem.h:46-101 | over any list of chunks, the least index at which a non-empty needle occurs in their concatenation, or nothing if and only if there is none, with at most two comparisons per element of needle and chunks |
| `KnuthMorrisPratt.PartialTable` | base/MemMem.h:48-69 | each entry of the optimised table is the longest border that is followed by a different element |
| `KnuthMorrisPratt.NextLongestBorder` | base/MemMem.h:55-68 | falling back through the table finds the longest border of the next prefix |
| `KnuthMorrisPratt.FallBackScans` | base/MemMem.h:74-98 | a fallback of the scan skips no occurrence |
| `Bitap.BitapBitwise` | base/MemMem.h:18-42 | for needles of 1 to 30 bytes the first occurrence, and for 31 bytes nothing, whatever the haystack |
| `Bitap.MemMemOptional` | base/MemMem.h:103-127 | the first occurrence, by whichever search, except that a needle of 31 bytes in a longer haystack gives nothing |
| `Bitap.MemMemLengths` | base/MemMem.h:103-127 | the answer is the first occurrence for all contents of these lengths if and only if not a needle of 31 bytes meets a longer haystack |
| `Bitap.MissedNeedle` | base/MemMem.h:18-42 | a needle of 31 bytes that is missed |
| `MemoryStream.DuplexMemoryStream.Write` | base/MemoryStream.h:220-234 | appends exactly the bytes, over any chunk borders, old chunks included |
| `MemoryStream.DuplexMemoryStream.ReadWithoutConsuming` | base/MemoryStream.h:185-195 | the first unread bytes, and nothing changes |
| `MemoryStream.DuplexMemoryStream.Read` | base/MemoryStream.h:197-208 | delivers the oldest unread bytes in order and keeps the rest |
| `MemoryStream.DuplexMemoryStream.ReadOrError` | base/MemoryStream.h:210-218 | all or nothing |
| `MemoryStream.DuplexMemoryStream.DiscardOrError` | base/MemoryStream.h:148-158 | drops exactly that many unread bytes, or fails and drops none |
| `MemoryStream.DuplexMemoryStream.TryDiscardChunks` | base/MemoryStream.h:258-264 | dropping chunks that are read loses no unread byte |
| `MemoryStream.DuplexMemoryStream.OffsetOf` | base/MemoryStream.h:160-183 | the first occurrence of a non-empty value in the unread bytes |
| `HashTables.HashTable.Set` | base/HashTable.h:253-282 | for every next-hash function: if the call returns, the table holds the set with the value put in, kept or replaced as asked, the load stays under sixty percent and the size is that of the set; if it need not grow it hangs exactly when the path of the value is endless, changing nothing, and else only with an endless lookup for one of the values in the array it was filling |
| `HashTables.HashTable.Remove` | base/HashTable.h:306-343 | the table holds the set without the equal value, and says if there was one; it hangs exactly when the path of the value never comes to an equal value or free bucket, and then nothing has changed |
| `HashTables.HashTable.Find` | base/HashTable.h:409-425 | finds a bucket with an equal value if and only if the set has one; the endless loop is left exactly when the path comes to such a bucket or a free one, else it never ends |
| `HashTables.HashTable.LookupForWriting` | base/HashTable.h:427-450 | the bucket of the equal value, else the first unused one on the path; growing first never loses a value; without growing it hangs exactly when the path is endless |
| `HashTables.HashTable.ProbeForWriting` | base/HashTable.h:432-449 | the bucket of the equal value if there is one, else the first tombstone or free bucket on the path; it never ends exactly when the path comes to no equal value and no free bucket |
| `HashTables.HashTable.Rehash` | base/HashTable.h:372-406 | the same set in a fresh array without tombstones, also when the insertion during a rehash has to grow again; it hangs only with an endless lookup for one of the values in the array it was filling |
| `HashTables.HashTable.EnsureCapacity` | base/HashTable.h:194-198 | the same set with at least twice the room asked for; it hangs only with an endless lookup for one of the values in the array it was filling |
| `HashTables.HashTable.Iterate` | base/HashTable.h:209-219 | the iterator yields every value of the set once |
| `HashTables.SkipToNext` | base/HashTable.h:40-51 | the next used bucket, none skipped, or the end |
| `HashProbing.NotFurther` | base/HashTable.h:409-425 | a path that came to a free bucket has no equal value behind it |
| `HashProbing.RoundForever` | base/HashTable.h:414-424 | hashes are 32-bit words, so a path that has not stopped after 2^32 of them goes round forever |
| `HashProbing.CoveredEnds` | base/HashTable.h:414-424 | with a free bucket, every lookup ends if the paths come by every bucket of the array |
| `HashProbing.NextHashCovers` | base/HashTable.h:414-424 | there is a next-hash function whose paths come by every bucket of every array of up to 2^32 buckets |
| `HashProbing.NoneCoversMore` | base/HashTable.h:414-424 | and none for larger arrays |
| `HashProbing.PutKeepsLayout` | base/HashTable.h:264-269 | a value put in the first unused bucket of its path leaves every value reachable and adds just that value |
| `HashProbing.TombstoneKeepsLayout` | base/HashTable.h:325-329 | a tombstone leaves every other value reachable and takes just that value away |
| `HashProbing.SizeIsUsed` | base/HashTable.h:452 | there are as many used buckets as values in the set |
| `HashTables.FoundAfterSet` | base/HashTable.h:253-282 | after a set, of either behaviour, a value is found if and only if it was before or equals the one set |
| `HashTables.FoundAfterRemove` | base/HashTable.h:306-314 | after a remove a value is found if and only if it was before and does not equal the one removed |
| `JsonRoundTrip.RoundTrip` | base/JsonParser.cpp:345-354 | parsing a written value gives it back, up to integer width, if and only if its strings and keys hold no control character the writer leaves as it is and no integer is below the least 32-bit one |
| `JsonRoundTrip.WriteThenParse` | base/JsonObject.h:179-220 | what parsing a written value gives in every case: the value with parser types, or a refusal |
| `JsonRoundTrip.TextBack` | base/StringBuilder.cpp:131-157 | unescaping an escaped string gives it back, or refuses it exactly when it has an unescaped control character |
| `JsonRoundTrip.NumberBack` | base/JsonParser.cpp:194-288 | a written integer is read back, cut to 32 bits if negative |
| `JsonRoundTrip.ItemsBack` | base/JsonParser.cpp:158-184 | a written array is read back item by item |
| `JsonRoundTrip.MembersBack` | base/JsonParser.cpp:123-156 | written members are read back in order |
| `JsonRoundTrip.LostValues` | base/StringBuilder.cpp:131-157 | a string with a carriage return is refused, and the integer below the least 32-bit one comes back as another |
| `JsonParsing.Parse` | base/JsonParser.cpp:345-354 | for every text, well formed or not, the result is that of the recursive grammar, with nothing but spaces behind |
| `JsonParsing.JsonParser.ParseHelper` | base/JsonParser.cpp:311-343 | value and cursor are those that the grammar gives for any value, or both fail; the cursor has moved on |
| `JsonParsing.JsonParser.ParseArray` | base/JsonParser.cpp:158-184 | the loop collects the elements that the recursive grammar gives, or both fail |
| `JsonParsing.JsonParser.ParseObject` | base/JsonParser.cpp:123-156 | the loop collects the members that the recursive grammar gives, a repeated key replacing its value, or both fail |
| `JsonParsing.JsonParser.ParseNumber` | base/JsonParser.cpp:194-288 | digits, fraction and the choice of integer type give what the grammar gives, or both fail |
| `JsonParsing.JsonParser.ConsumeAndUnescapeString` | base/JsonParser.cpp:19-121 | the runs and escapes put together are the unescaped string of the grammar, or both fail |
| `JsonParsing.JsonParser.ConsumeEscape` | base/JsonParser.cpp:50-112 | an escape gives the bytes of its code point, or both fail |
| `JsonParsing.JsonParser.IgnoreSpaces` | base/GenericLexer.h:185-190 | the cursor stands behind the spaces |
| `JsonParsing.JsonParser.ConsumeWord` | base/GenericLexer.h:71-83 | the cursor moves over the word if and only if it comes next |
| `JsonSerializing.Serialize` | base/JsonObject.h:179-220 | the builder gets exactly the text of the value |
| `JsonSerializing.JsonArraySerializer.Add` | base/JsonArraySerializer.h:35-39 | the builder holds the text of the open array with one item more, behind a comma if it is not the first |
| `JsonSerializing.JsonArraySerializer.Finish` | base/JsonArraySerializer.h:117-122 | the builder holds the text of the closed array |
| `JsonSerializing.JsonObjectSerializer.Add` | base/JsonObjectSerializer.h:36-40 | the builder holds the text of the open object with one member more |
| `JsonSerializing.JsonObjectSerializer.Finish` | base/JsonObjectSerializer.h:129-134 | the builder holds the text of the closed object |
| `JsonSerializing.StringBuilder.AppendEscapedForJson` | base/StringBuilder.cpp:131-157 | the builder gets exactly the escaped text |
| `Numerals.ConvertUnsignedToString` | base/Format.cpp:35-61 | the shortest numeral in any base from 2 to 16, in either case |
| `Numerals.NumeralIs` | base/Format.cpp:35-61 | the numeral of any base stands for the number and has no leading zero |
| `Numerals.DecimalIs` | base/Format.cpp:35-61 | the decimal numeral stands for the number and has no leading zero |
| `Numerals.ConvertToUint` | base/StringUtils.cpp:129-151 | a value if and only if the text, trimmed if asked, is a numeral that fits, although overflow is checked digit by digit |
| `Numerals.ConvertToInt` | base/StringUtils.cpp:89-121 | the same with a sign, the least value included |
| `Numerals.ConvertToUintFromHex` | base/StringUtils.cpp:161-192 | a value if and only if the text, trimmed if asked, is a hexadecimal numeral that fits the type |
| `BitmapViews.FindFirstFit` | base/BitmapView.h:325-333 | the lowest start of that many unset bits, or nothing if and only if there is none, for every size |
| `BitmapViews.FindNextRangeOfUnsetBits` | base/BitmapView.h:205-297 | from where the scan really begins, the first range that is long enough and exactly how far it is taken, or nothing if and only if there is none |
| `BitmapViews.FindLongestRangeOfUnsetBits` | base/BitmapView.h:299-323 | a range within the maximum; a longest one in bitmaps of whole 32-bit buckets, in ones below 32 bits, and with a maximum of one |
| `BitmapViews.LongestLosesTail` | base/BitmapView.h:299-323 | for every other size and maximum there is a bitmap with a range of two of which one is found, so the condition is exact |
| `BitmapViews.ScanRound` | base/BitmapView.h:246-275 | one round over a bucket counts the run of unset bits that its word shows |
| `BitmapViews.ScanTrailing` | base/BitmapView.h:279-296 | the bits behind the last bucket continue the run before them |
| `QuickSort.SortCollection` | base/QuickSort.h:127-150 | both sorts leave a sorted permutation for every strict weak order, and calls nest at most one more than the logarithm deep |
| `QuickSort.DualPivotQuickSort` | base/QuickSort.h:18-90 | the stretch is a sorted rearrangement of itself and the rest is untouched; nesting depth |
| `QuickSort.DualPartition` | base/QuickSort.h:22-66 | both pivots end where they belong |
| `QuickSort.DualSweep` | base/QuickSort.h:38-61 | the sweep parts the elements by both pivots |
| `QuickSort.SinglePivotQuickSort` | base/QuickSort.h:92-125 | the stretch is a sorted rearrangement of itself and the rest is untouched; nesting depth |
| `QuickSort.SinglePartition` | base/QuickSort.h:100-114 | the middle element ends where it belongs |
| `QuickSort.PartsHalved` | base/QuickSort.h:71-88 | a part that is not the largest is at most half, so nesting is logarithmic |
| `QuickSort.DualEnd` | base/QuickSort.h:62-66 | putting the pivots in place makes them pivots of the whole stretch |
| `BigIntegers.AddcIs` | base/UFixedBigInt.h:352-381 | sum and carry out are exact at every width |
| `BigIntegers.SubcIs` | base/UFixedBigInt.h:402-412 | difference and borrow are exact at every width |
| `BigIntegers.MinusBoolIs` | base/UFixedBigInt.h:426-430 | taking one bit away, modulo the size |
| `BigIntegers.ShlIs` | base/UFixedBigInt.h:214-225 | the left shift by halves is multiplication by a power of two modulo the size |
| `BigIntegers.ShrIs` | base/UFixedBigInt.h:227-239 | the right shift by halves is division by a power of two |
| `BigIntegers.LessIs` | base/UFixedBigInt.h:180-184 | comparing halves compares the numbers |
| `BigIntegerLoops.ClzIs` | base/UFixedBigInt.h:90-103 | leading zeros and bit length make up the width |
| `BigIntegerLoops.Multiply` | base/UFixedBigInt.h:523-534 | the product modulo the size |
| `BigIntegerLoops.DivModBig` | base/UFixedBigInt.h:480-520 | quotient and remainder, the remainder less than the divisor |
| `BigIntegerLoops.NextRemainder` | base/UFixedBigInt.h:511-514 | the shifted remainder never wraps |
| `BigIntegerLoops.Sqrt` | base/UFixedBigInt.h:569-592 | the floor of the square root of every number from 1 on |
| `BigIntegerLoops.RoundFits` | base/UFixedBigInt.h:583-590 | the squared candidate never wraps |
| `BitStreams.WriteThenRead` | base/BitStream.h:63-225 | writing any values with counts up to 31, aligning and reading the same counts gives the low bits of each back |
| `BitStreams.OutputBitStream.WriteBits` | base/BitStream.h:175-210 | the fast paths write the same bits as one at a time |
| `BitStreams.OutputBitStream.AlignToByteBoundary` | base/BitStream.h:217-225 | pads with fewer than eight zeros to a whole byte and loses nothing |
| `BitStreams.InputBitStream.ReadBits` | base/BitStream.h:63-88 | the next bits, lowest first, or an error if and only if there are too few |
| `BitStreams.InputBitStream.ReadBitsBigEndian` | base/BitStream.h:90-124 | the next bits, highest first, whole bytes at once or not |
| `BitStreams.LowBitsAreMod` | base/BitStream.h:175-210 | the low bits of a word are the number modulo a power of two |
| `UrlLoop.Parse` | base/URLParser.cpp:233-676 | for every input and base the loop gives what its rounds give, enters no state twice and makes at most 14 (n + 1) rounds for n code points |
| `UrlLoop.StepAdvances` | base/URLParser.cpp:247-668 | every round goes on to a later state or stays and moves on, and keeps what each state relies on, the two rewinding states included |
| `UrlLoop.PathlessBaseStops` | base/URLParser.cpp:525-531 | a file URL without a path as the base makes the loop stop at its first path |
| `UrlLoop.AssertionsHold` | base/URLParser.cpp:612-642 | no assertion fails on any input if and only if the base is not a file URL without a path |
| `UrlLoop.PathlessBaseMade` | base/URLParser.cpp:488-519 | such a base is what the parser itself makes of file: |
| `UrlTexts.AuthorityRuns` | base/URLParser.cpp:389-431 | an authority is read up to its end and then its host from behind the last @, or from its start without one; nothing behind an @ fails |
| `UrlTexts.QueryRuns` | base/URLParser.cpp:638-667 | from the query state on, the query is the buffer and the text up to a #, and what is behind that the fragment |
| `UrlComponents.ComponentsAre` | base/URLParser.cpp:233-676 | scheme, query and fragment of every URL that is given, for every input and base: both begin at the first mark that counts, the first ? or # of the input, or for a file URL without a file base the first behind its second slash, with the opaque path in front if there is one; without a ? the query is that of the base exactly when the reference is relative and nothing stands before the # or the end, else there is none |
| `UrlComponents.ComponentsExactly` | base/URLParser.cpp:233-676 | however texts are encoded and decoded and hosts read, scheme, query and fragment are those that begin at the first mark of the input, if and only if there is no non-empty opaque path before it and it is not in the skipped text of a file URL without a file base; a lost query or fragment counts as wrong |
| `UrlComponents.LostMarks` | base/URLParser.cpp:488-519 | the URL of file:?q#f without a base has neither query nor fragment |
| `UrlComponents.LaterParts` | base/URLParser.cpp:317-611 | once the reference has begun, no state passes over a ? or #, the rewinding one included |
| `UrlComponents.SkipParts` | base/URLParser.cpp:488-533 | a file URL without a file base passes over everything up to its second slash |
| `UrlTexts.OpaqueIs` | base/URLParser.cpp:612-667 | what the parser makes of every input with an opaque path |
| `UrlTexts.PathInQuery` | base/URLParser.cpp:612-636 | the query of a:b?c begins with b |
| `UrlLoop.UsableNeverStops` | base/URLParser.cpp:638-642 | with any other base, from every state the loop can be in, no assertion fails |
| `CircularStreams.CircularDuplexStream.Write` | base/CircularDuplexStream.h:19-28 | as many bytes as fit go to the end of the unread ones and of the history |
| `CircularStreams.CircularDuplexStream.Read` | base/CircularDuplexStream.h:42-53 | the oldest unread bytes, first in first out |
| `CircularStreams.CircularDuplexStream.ReadBack` | base/CircularDuplexStream.h:55-70 | a suffix of the whole write history, dequeued bytes included, or an error |
| `CircularStreams.CircularDuplexStream.DiscardOrError` | base/CircularDuplexStream.h:83-94 | drops exactly that many unread bytes, or fails and drops none |
| `CircularStreams.CircularDuplexStream.HeadAndTotal` | base/CircularDuplexStream.h:19-28 | head plus size and the total written agree modulo the capacity |
| `CircularStreams.CircularDuplexStream.FillReserved` | base/CircularDuplexStream.h:99-114 | the reserved space is one stretch and costs no unread byte |
| `CircularStreams.CircularQueue.Enqueue` | base/CircularQueue.h:44-55 | the byte goes behind the contents; in a full queue the oldest one gives way |
| `CircularStreams.CircularQueue.Dequeue` | base/CircularQueue.h:57-66 | gives the first byte of the contents and leaves the rest |
| `CircularStreams.RecordOne` | base/CircularDuplexStream.h:55-70 | writing one byte keeps the last capacity bytes of the history in their slots |
| `Times.PlusIs` | base/Time.cpp:180-219 | the sum is the exact sum of nanoseconds, clamped |
| `Times.MinusIs` | base/Time.cpp:227-244 | the difference is the exact difference, clamped |
| `Times.ConversionsAre` | base/Time.cpp:77-168 | to_truncated conversions cut toward zero and the others go away from it, saturating exactly when the result is out of bounds |
| `Times.SecondsAre` | base/Time.cpp:68-122 | the same for seconds |
| `Times.NanosecondsRoundTrip` | base/Time.cpp:155-168 | to_nanoseconds inverts from_nanoseconds |
| `Times.FromIs` | base/Time.h:76-115 | the from functions are exact |
| `Times.FromHalfSanitizedIs` | base/Time.cpp:269-289 | seconds and extra seconds are added exactly, clamped |
| `Calendar.DayOfWeekCounts` | base/Time.cpp:44-52 | the formula for the day of the week counts the days since the epoch |
| `Calendar.YearsToDaysSinceEpoch` | base/Time.h:43-51 | both loops count the days of the years between |
| `Calendar.DaysSinceEpochIs` | base/Time.h:43-51 | that count in closed form |

## Left out

- RedBlackTree.BaseRedBlackTree.Insert: nodes that are not as they are made, without links and red; intrusive re-insertion passes others, and leaves their colour and parent as they are.
- Red-black tree: values beside the keys, iterators, `clear`, freeing of nodes, `unsafe_remove`; `m_minimum` is the first node only of trees that are not empty, since removing the last node leaves it.
- RefPtr: `swap`, raw loads, `unsafe_ptr`, references made from a plain object reference, objects that own further pointers; weak memory orders; overflow of counters.
- WeakLink: weakable objects that are not reference counted; the link's own lifetime, which is that of any object held by RefPtr; a revoke that waits forever because new consumers keep coming.
- MemMem: the chunked search with an empty needle, whose table has no first entry; indices wider than `int`.
- MemoryStream: fatal errors; `write_or_error`, `copy_into_contiguous_buffer` and the input and output streams over fixed spans.
- HashTable: the ordered variant, copying, moving and swapping of tables; whether the paths of `double_hash` come by every bucket is left open, every result is for any next-hash function.
- QuickSort: indices wider than `int`.
- JsonSerializing.Serialize: no doubles, whose formatting is floating point.
- JsonSerializing.JsonArraySerializer.Add: no doubles.
- JsonSerializing.JsonObjectSerializer.Add: no doubles.
- JsonParsing.JsonParser.ParseNumber: a double is kept as its whole part and the digits behind the point, not as a floating point value.
- JSON: formatting with width, fill or prefix; negating the least 64-bit integer wraps in the source and is exact here.
- BitmapViews.FindFirstFit: ranges of length zero, for which any place would do.
- BitmapViews.FindNextRangeOfUnsetBits: ranges of length zero likewise.
- Bitmap: `find_best_fit`, `find_first`, `find_one_anywhere`, `count_in_range`; words are read on a little-endian machine.
- UFixedBigInt: operations with narrower types other than a single bit, `pow`, `pow_mod`, rotations, logarithms, formatting, division by zero.
- BitStreams.InputBitStream.ReadBits: counts of 32 or more, where the source shifts an `int`.
- BitStreams.InputBitStream.ReadBitsBigEndian: counts above 64, which its 64-bit result cannot hold.
- BitStream: errors of the stream that is written to; byte-wise `read` and `write`.
- URL: what schemes, hosts, ports, escapes and drive letters mean, credentials, validation messages, data URLs, trimming of the input; positions are code points, so texts that are not valid UTF-8 are not covered.
- Calendar.DayOfWeekCounts: years before 1 and days before 1, where the source divides negative numbers.
- Time: conversions to and from `timespec` and `timeval`.
- Circular stream: `read_or_error` and `write_or_error`, which add nothing to `read` and `write`; the iterator of the queue.
- All other containers, strings, formatting, streams over files and template machinery of `base/`, and everything outside it.
