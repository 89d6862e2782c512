# Verified models of parts of the Asterisk add-ons

This project models five self-contained parts of the Asterisk add-ons and proves what they keep.
`dafny verify dfyconfig.toml` checks all of it.

- **The heap of ooh323c** (`BlockLayout`, `BlockHeaders`, `MemBlock`, `HeapLedger`, `HeapPlaces`,
  `MemHeap`, `HeapRuns`). A heap is a list of links, each to a block or to raw memory. A block is cut into units
  of eight octets; each element has a header with its size, the distance to the element in front of it
  and, if it is free, to the next free element. The classes `MemLink`, `MemBlk` and `MemHeap` change
  these fields in place; a ghost layout says which elements there are. `MemHeap.Valid` is the whole
  invariant: elements tile each block, offsets and flags are exact, no two free elements are
  neighbours, the free list is exactly the free elements, the list and the chain of raw links are
  consistent, and the counters count.
- **The aligned PER codec of ooh323c** (`BitStrings`, `PerBuffer`, `PerCoding`, `PerCodec`). `Buffer`
  is the message buffer with its cursor, an octet index and a bit offset from 0 to 8, where 0 is an
  alias of 8 in the next octet. Writers append bits to what has been written, readers take the next
  bits. `PerCoding` has the encodings as functions between values and bits, with their round trips;
  `PerCodec` has the encoders and decoders with their loops, proved against these functions.
- **Mini-XML of menuselect** (`MxmlSave`, `MxmlLoad`, `MxmlParser`, `MxmlReading`, `MxmlWriting`,
  `MxmlRoundTrip`, `MxmlEntities`, `MxmlEntityTable`; `Sequences`, `MxmlTree`, `MxmlForest`, `MxmlWalk`, `MxmlIndex`). The writer and
  the parser, as functions on texts and trees and as classes with their output, position and stack; the
  linked nodes that are added, removed, deleted and walked; the index, sorted by quicksort in its
  array and searched by a modified binary search.
- **The dependencies of menuselect** (`MenuDeps`). One call of the computation of failures, as a class
  whose arrays it changes until nothing is unstable.
- **The MP3 decoder's bits** (`MpgBits`, `MpgHuffman`, `MpgCodes`, `MpgCodesSmall`, `MpgCodesLarge`,
  `MpgBooks`, `MpgGranule`, `MpgCoding`, `MpgLayout`, `MpgBlock`, `MpgScale`, `MpgTables`, `MpgNtom`). The bit
  reader, the code books, the scale factors, the coefficients of one channel of a granule with their
  cells, and the conversion of sample rates. A cell holds the value that was read with the window and
  the index of its gain, where the source multiplies.

What the system decides is a parameter: whether memory is available, which rates are asked for, which
file requirements are met.

## Model

| member | source | states |
|---|---|---|
| HeapRuns.Run | channels/ooh323c/src/memheap.c:154-985 | Any run of allocations, releases, reallocations to a nonzero size and writes, with any outcome of the system's allocator: afterwards the heap is well formed and every allocation has at least the units asked for, a pointer of its own, and in each unit written what was written last, as if each were a separate memory; a step fails only if the system had no memory for it |
| HeapRuns.Step | channels/ooh323c/src/memheap.c:154-985 | One call of such a run keeps what the run keeps |
| MemHeap.MemHeap.StorageApart | channels/ooh323c/src/memheap.c:154-388 | In a well-formed heap, two units of live allocations are the same storage only if they are the same unit of the same allocation |
| MemHeap.MemHeap.constructor | channels/ooh323c/src/memheap.c:1317-1330 | A new heap is well formed and has no allocations |
| MemHeap.MemHeap.Alloc | channels/ooh323c/src/memheap.c:154-388 | Exactly where an allocation goes. More than 65534 units get raw memory. Otherwise it goes behind the last element of the first block in the list with room there; if no block has, into the first free element that is large enough, of the first block with one; only if there is none, into a new block of the smallest fitting size; null exactly if that or raw memory is needed and the system has none. The list has a new link in front for a new block or for raw memory, and is unchanged otherwise. Exactly one allocation is added, under a pointer that was not live; no unit of another one changes; the heap stays well formed |
| HeapPlaces.TailOf | channels/ooh323c/src/memheap.c:202-249 | The place behind the last element, by which the choice of a block is stated for layouts as values, is the offset that the block keeps; a layout has only one |
| MemHeap.MemHeap.FindRoom | channels/ooh323c/src/memheap.c:202-208 | The first block in the list with room for the element behind its last one, or none if no block has room |
| MemHeap.MemHeap.Free | channels/ooh323c/src/memheap.c:397-645 | Exactly the given allocation ends; a null pointer and an element that is free already change nothing; the list loses exactly the link of a raw allocation, or that of a block whose only element in use this was if empty blocks are not kept or too many units would be in them; all other contents stay, and the heap stays well formed |
| MemHeap.MemHeap.Realloc | channels/ooh323c/src/memheap.c:717-985 | A null pointer allocates; size 0 releases; an element stays where it is exactly if it can hold the new size there, and is moved to where a new one would be put otherwise, so that a failure is one of exactly the cases in which that needs the system; raw memory fails exactly if the system does. The smaller of both sizes' units are unchanged, and every other allocation keeps its pointer and contents; on failure nothing changes |
| MemHeap.MemHeap.AddBlock | channels/ooh323c/src/memheap.c:1197-1247 | A new link in front keeps the doubly linked list and the chain of raw links: the chain from the head visits exactly the raw links in order, and links of blocks other than the head are not part of it |
| MemHeap.MemHeap.UnlinkRaw | channels/ooh323c/src/memheap.c:414-447 | Taking a raw link out keeps the list and the chain of raw links |
| MemHeap.MemHeap.UnlinkStd | channels/ooh323c/src/memheap.c:531-559 | Taking the link of a block out keeps the list and the chain of raw links |
| MemHeap.MemHeap.FindRaw | channels/ooh323c/src/memheap.c:412-447 | Following the chain of raw links finds the link of a raw allocation whenever there is one |
| MemHeap.MemHeap.FreeBlock | channels/ooh323c/src/memheap.c:517-570 | A block that has just become empty is given back exactly if empty blocks are not kept, or more units than allowed would be in them, and reset for re-use otherwise; no allocation changes and the heap is well formed again, with its counters for all blocks and for the empty ones |
| MemBlock.MemBlk.AllocAtEnd | channels/ooh323c/src/memheap.c:206-249 | An element behind the last one: the block stays well formed, exactly one live element is added, and no unit of another one changes |
| MemBlock.MemBlk.TakeFree | channels/ooh323c/src/memheap.c:259-314 | The first free element that is large enough, or none if there is none; it becomes live and leaves the free list |
| MemBlock.MemBlk.FreeElem | channels/ooh323c/src/memheap.c:455-645 | The element is no longer live and is united with free neighbours on both sides or cut off the end; the block stays well formed (elements tile it, back offsets exact, only the last one marked so and not free, no two free neighbours, the free list exactly the free elements in ascending order, the free total exact, no 16-bit field wraps) |
| MemBlock.MemBlk.FreeLast | channels/ooh323c/src/memheap.c:475-576 | Freeing the last element takes a free one in front of it along; if nothing is left the block is empty |
| MemBlock.MemBlk.MarkFree | channels/ooh323c/src/memheap.c:578-619 | Freeing inside the block: united with a free element in front, or put into the free list at its place |
| MemBlock.MemBlk.UniteWithNext | channels/ooh323c/src/memheap.c:620-640 | Uniting with a free element behind restores the whole invariant and keeps the live elements |
| MemBlock.MemBlk.SetFreeElem | channels/ooh323c/src/memheap.c:132-152 | What the helper does to the head of the free list and to the link of the element, in its four cases |
| MemBlock.MemBlk.ReallocInPlace | channels/ooh323c/src/memheap.c:783-984 | Succeeds if and only if the new size is no larger, or the element is the last one and the block has room, or the one behind it is free and large enough together with it; the size afterwards is stated exactly, nothing else that is live changes, and a refusal leaves the block as it was |
| MemBlock.MemBlk.InitNewFreeElement | channels/ooh323c/src/memheap.c:647-715 | The rest of a split element becomes free, united with a free element behind it, at its place in the free list |
| BlockLayout.LayoutUnique | channels/ooh323c/src/memheap.c:578-640 | Coalescing makes the layout of a block a function of its live elements: two coalesced tilings with the same live elements are equal, down to the offset of the end |
| BlockLayout.RegionsDisjoint | channels/ooh323c/src/memheap.c:206-243 | In a tiled block no two live elements own the same unit, and no header lies in one |
| BlockLayout.Covered | channels/ooh323c/src/memheap.c:79-87 | Every unit below the end belongs to exactly one element |
| PerCoding.OctetStringComesBack | channels/ooh323c/src/encode.c:696-730 | Between any bits in front and any octets behind, decoding the encoding of an octet string gives the string and ends where the encoding ends if and only if its length is 0 or not a multiple of 16384 |
| PerCoding.NoLastFragment | channels/ooh323c/src/decode.c:773-813 | At a positive multiple of 16384 octets the decoder reads on past the encoding, whatever is behind it: the empty last fragment is missing (section 10.9.3 of X.691) |
| PerCoding.LengthRound | channels/ooh323c/src/encode.c:1058-1086 | A length determinant of any of the three forms is read back as the number of octets of the next fragment, and whether more follow |
| PerCoding.PartGreatest | channels/ooh323c/src/encode.c:1058-1086 | A fragment of a string of 16384 octets or more is the greatest multiple of 16384 octets that fits, up to 65536 (section 10.9.3 of X.691) |
| PerCoding.FewestFragments | channels/ooh323c/src/encode.c:696-730 | No cut that section 10.9.3 of X.691 allows has fewer fragments |
| PerCoding.OctetStringBits | channels/ooh323c/src/encode.c:696-730 | The exact number of bits of an octet string, with one length octet for each fragment |
| PerCoding.OidComesBack | channels/ooh323c/src/encode.c:548-592 | Between any bits in front and any octets behind, a valid object identifier is decoded to itself with the cursor where the encoding ends if and only if `40 * a + b < 128` for its first two arcs |
| PerCoding.CountsBound | channels/ooh323c/src/encode.c:476-500 | The octets written for subidentifiers are as many as the length that is declared |
| PerCoding.IdentLeast | channels/ooh323c/src/encode.c:476-500 | A subidentifier has no octet too many for its seven bits each |
| PerCoding.ConsIntegerRound | channels/ooh323c/src/encode.c:273-309 | A constrained integer is accepted if and only if it lies in its range, and then decoded to itself, for all 32-bit bounds: the encoder's offset by the signs of the bounds and the decoder's modular subtraction agree |
| PerCoding.ConsIntegerIs | channels/ooh323c/src/encode.c:273-309 | The encoder's subtraction, by the signs of the bounds, encodes the distance from the lower bound among as many numbers as there are between the bounds |
| PerCoding.WholeRound | channels/ooh323c/src/encode.c:335-389 | A constrained whole number comes back in each of the four cases of section 10.5.7 of X.691 |
| PerCoding.SmallForm | channels/ooh323c/src/encode.c:335-389 | A number of a range below 256 takes the least number of bits that distinguish the range, and these are the number |
| PerCoding.AlignedForm | channels/ooh323c/src/encode.c:335-389 | For a range up to 65536 one or two octets behind an octet boundary are the number |
| PerCoding.LargeForm | channels/ooh323c/src/encode.c:335-389 | For a larger range the least number of octets for the number itself stand behind their count and an octet boundary |
| PerCoding.SemiRound | channels/ooh323c/src/encode.c:820-853 | A semi-constrained integer comes back whenever the difference to its bound is a 32-bit integer |
| PerCoding.TwosBack | channels/ooh323c/src/encode.c:998-1036 | The two's-complement octets of every 32-bit integer mean that integer |
| PerCoding.TwosLeast | channels/ooh323c/src/encode.c:820-853 | No shorter sequence of octets means the same integer (section 10.4.6 of X.691) |
| PerCoding.BitCountLeast | channels/ooh323c/src/perutil.c:196-222 | The decision tree gives the least number of bits |
| PerCoding.SizingAgrees | channels/ooh323c/src/decode.c:995-1033 | If a string is decoded, the pass that only adds up lengths finds its length; if the total is found and fits, the decoder succeeds or runs into the end of the buffer |
| PerCoding.FastCopyAgrees | channels/ooh323c/src/decode.c:486-557 | The path without copying fails exactly when the copying one does, with the same status, and otherwise has the same octets and final cursor, also for empty strings |
| PerBuffer.Buffer.EncodeBit | channels/ooh323c/src/encode.c:28-66 | Appends one bit to the bits written, from any cursor |
| PerBuffer.Buffer.EncodeBits | channels/ooh323c/src/encode.c:68-125 | Appends the low `n` bits of a value, high bits first, for every `n` up to 32 and every cursor but the one at which the shift is by 32 |
| PerBuffer.Buffer.ShiftableUnless | channels/ooh323c/src/encode.c:68-125 | The cursor excluded is exactly `bitOffset == 0` with 32 bits |
| PerBuffer.Buffer.EncodeBitsFromOctet | channels/ooh323c/src/encode.c:127-182 | Appends the high bits of an octet, and leaves `bitOffset == 0` exactly when the bits fill up the octet, so the excluded cursor is reached |
| PerBuffer.Buffer.EncodeOctets | channels/ooh323c/src/encode.c:651-694 | Appends the first `n` bits of the octets, from any cursor |
| PerBuffer.Buffer.EncodeByteAlign | channels/ooh323c/src/encode.c:242-255 | Appends the zero bits up to the next octet |
| PerBuffer.Buffer.DecodeBits | channels/ooh323c/src/decode.c:27-94 | Takes the next `n` bits as a number, or reports the end of the buffer and stays where it is |
| PerBuffer.Buffer.DecodeOctets | channels/ooh323c/src/decode.c:687-771 | From any cursor, also `bitOffset == 0`, but where whole octets are left for fewer than `n` bits: the next `n` bits as octets with zero bits behind, or the right error and nothing changed; in front of the octets nothing else changes, behind them only the octet that is cleared in the case named under Findings |
| PerBuffer.Buffer.MoveBitCursor | channels/ooh323c/src/decode.c:1035-1050 | Moves on by `n` bits; the end of the buffer is reported exactly when the octet index is beyond it |
| PerCodec.EncodeOctetString | channels/ooh323c/src/encode.c:696-730 | The loop over fragments writes exactly what the specification says, and so the fragments of `PerCoding.PartGreatest` |
| PerCodec.EncodeLength | channels/ooh323c/src/encode.c:1058-1086 | Aligns and writes the determinant; returns the octets of this fragment |
| PerCodec.EncodeConsWholeNumber | channels/ooh323c/src/encode.c:335-389 | Writes the specified bits, or reports a value out of range and writes nothing |
| PerCodec.EncodeConsInteger | channels/ooh323c/src/encode.c:273-309 | Writes the specified bits or reports the specified error |
| PerCodec.Encode2sCompBinInt | channels/ooh323c/src/encode.c:998-1036 | The truncating division with its adjustment writes the least two's-complement octets of every 32-bit integer |
| PerCodec.EncodeSemiConsInteger | channels/ooh323c/src/encode.c:820-853 | The length found by shifting is the number of octets written |
| PerCodec.EncodeIdent | channels/ooh323c/src/encode.c:476-500 | The shifting masks write the base-128 octets of a subidentifier |
| PerCodec.EncodeObjectIdentifier | channels/ooh323c/src/encode.c:548-592 | Writes the specified bits; an invalid identifier is reported after its length has been written |
| PerCodec.DecodeLength | channels/ooh323c/src/decode.c:559-634 | Reads a determinant as specified, including the form with fragments |
| PerCodec.DecodeOctetString | channels/ooh323c/src/decode.c:773-813 | The loop over fragments delivers what the specification finds in the bits, or its error |
| PerCodec.DecodeConsWholeNumber | channels/ooh323c/src/decode.c:354-409 | Reads the specified number or reports the end of the buffer |
| PerCodec.DecodeConsInteger | channels/ooh323c/src/decode.c:227-252 | Reads the specified integer or reports the specified error |
| PerCodec.DecodeSemiConsInteger | channels/ooh323c/src/decode.c:830-873 | Reads the specified integer, in 32-bit arithmetic |
| PerCodec.DecodeObjectIdentifier | channels/ooh323c/src/decode.c:636-685 | Reads the specified identifier, with the remaining length counted down in 32-bit arithmetic |
| PerCodec.GetComponentLength | channels/ooh323c/src/decode.c:995-1033 | The total that the specification finds, on a copy of the cursor: the caller's buffer is not changed |
| PerCodec.DecodeDynOctetString | channels/ooh323c/src/decode.c:486-557 | Both paths deliver what the specification finds |
| PerCodec.ReadBack | channels/ooh323c/src/encode.c:28-182 | What any writers appended between `w` and `later` stands at the end of `w` for every reader |
| PerCodec.FieldsRound | channels/ooh323c/src/decode.c:227-252 | In octets that hold a number, an octet string and an object identifier as encoded one after the other, each decoder finds its own field and ends where the next one begins |
| PerCodec.Transfer | channels/ooh323c/src/context.c:106-127 | The encoders of a number, an octet string and an object identifier on one buffer, and then the decoders with a second cursor in the same octets: the same three values come back, the bits written are the specified ones, and both cursors stand at the same place |
| MxmlRoundTrip.SaveThenLoad | menuselect/mxml/mxml-file.c:1312-1829 | Saving an instruction with anything or nothing below it and loading the text gives back the tree without the text behind its last element, and so the same tree if and only if there is no such text, for every entity lookup that knows the four escapes: escaping, wrapping of columns, quoting and the matching of tags cancel |
| MxmlRoundTrip.NoInstruction | menuselect/mxml/mxml-file.c:1312-1829 | Loading what was saved from an element without an instruction around it fails, always |
| MxmlRoundTrip.NodeRead | menuselect/mxml/mxml-file.c:2483-2757 | The text of a node in front of any other text makes the loader add that node and go on with the rest, in any state |
| MxmlRoundTrip.AttrsRead | menuselect/mxml/mxml-file.c:1836-2091 | The text of attributes, valued or not, gives back the attributes in order |
| MxmlRoundTrip.TextRead | menuselect/mxml/mxml-file.c:1251-1305 | Escaped text is read back character by character |
| MxmlSave.Output.Save | menuselect/mxml/mxml-file.c:401-438 | The writer with its output and column writes the specified text |
| MxmlSave.Output.WriteNode | menuselect/mxml/mxml-file.c:2483-2757 | Writes the specified text of a node and returns the column behind it |
| MxmlSave.Output.WriteString | menuselect/mxml/mxml-file.c:2764-2797 | Writes the specified escaped text |
| MxmlParser.LoadText | menuselect/mxml/mxml-file.c:1312-1829 | The loop with its stack, buffer and position computes the specified result for every input, also malformed input; what that result is, apart from texts that the writer makes, is said by `MxmlReading` |
| MxmlParser.Parser.ParseElement | menuselect/mxml/mxml-file.c:1836-2091 | Reads the specified attributes, and stops where the specification stops |
| MxmlParser.Parser.ReadEntityChar | menuselect/mxml/mxml-file.c:1251-1305 | Reads an entity as specified |
| MxmlReading.QuotedAttr | menuselect/mxml/mxml-file.c:1983-2005 | An attribute with a value between quotes of either kind is added with that value, which may have line breaks and the other quote in it, and reading goes on behind the closing quote |
| MxmlReading.UnquotedAttr | menuselect/mxml/mxml-file.c:2007-2037 | The same for a value without quotes, up to white space, a slash or the end of the tag |
| MxmlReading.QuotedName | menuselect/mxml/mxml-file.c:1924-1943 | A name in quotes is kept with its quotes and has no value |
| MxmlReading.BareAttr | menuselect/mxml/mxml-file.c:2038-2045 | An attribute without a value is added without one |
| MxmlReading.TwiceNamed | menuselect/mxml/mxml-file.c:1967-1968 | An attribute whose name has a value already ends the tag and the whole input |
| MxmlReading.TagForms | menuselect/mxml/mxml-file.c:1886-1915 | A tag ends at a bracket, or at a slash or question mark in front of one; in front of anything else these end the input |
| MxmlReading.TextKept | menuselect/mxml/mxml-file.c:1788-1797 | Text is kept as it stands, character by character |
| MxmlReading.WhiteLost | menuselect/mxml/mxml-file.c:1363-1399 | Outside kept text, white space ends a text and is dropped |
| MxmlReading.EntityRule | menuselect/mxml/mxml-file.c:1776-1787 | An entity in text: nothing is loaded if its name has more than 63 characters, is not followed by a semicolon or stands for no character; otherwise that character is added |
| MxmlReading.Utf8Means | menuselect/mxml/mxml-file.c:512-551 | A character below 2 to the 21 is written as the shortest UTF-8 form of itself |
| MxmlReading.OpenTags | menuselect/mxml/mxml-file.c:1726-1773 | An opening tag opens an element, and with a slash at its end adds a complete one |
| MxmlReading.AttrTags | menuselect/mxml/mxml-file.c:1726-1773 | With attributes, the end of the tag decides the same, and an input that ends inside the tag ends with that element added |
| MxmlReading.CloseTags | menuselect/mxml/mxml-file.c:1693-1724 | A closing tag closes the innermost element if and only if it has its name; otherwise nothing is loaded |
| MxmlReading.CommentRule | menuselect/mxml/mxml-file.c:1488-1534 | A comment becomes an element with the comment as its name |
| MxmlReading.SectionRule | menuselect/mxml/mxml-file.c:1535-1580 | A CDATA section likewise |
| MxmlReading.InstructionRule | menuselect/mxml/mxml-file.c:1581-1629 | An instruction opens an element whose name is the instruction |
| MxmlReading.DeclarationRule | menuselect/mxml/mxml-file.c:1630-1692 | Any other declaration opens an element whose name is the declaration |
| MxmlWriting.AttrBreaks | menuselect/mxml/mxml-file.c:2536-2580 | A line is broken in front of an attribute if and only if it would otherwise have more than 73 characters, and the column is the length of the last line |
| MxmlWriting.TagsAround | menuselect/mxml/mxml-file.c:2503-2640 | The tags that are written around children, and which elements have no closing one |
| MxmlEntities.DefaultCallback | menuselect/mxml/mxml-entity.c:165-467 | On a sorted table the binary search finds what a scan finds |
| MxmlEntityTable.EntitiesSorted | menuselect/mxml/mxml-entity.c:165-432 | The shipped table of 256 entities is sorted |
| MxmlEntityTable.SavedIsLoaded | menuselect/mxml/mxml-entity.c:87-129 | The same if and only if with the shipped table as lookup |
| MxmlForest.Forest.Create | menuselect/mxml/mxml-node.c:614-659 | A new node is alone, or the last child of its parent |
| MxmlForest.Forest.Add | menuselect/mxml/mxml-node.c:58-182 | A node that is neither its own reference child nor above the parent is taken from where it was and is at the place asked for; all child lists, both directions of all pointers and all parents are consistent |
| MxmlForest.AddedPlace | menuselect/mxml/mxml-node.c:58-182 | The node is next to the reference child, on the side named, if that is a child of the parent, and the first or last child otherwise; the other children of all nodes keep their order |
| MxmlForest.Forest.Remove | menuselect/mxml/mxml-node.c:549-606 | Only the node leaves the list of its parent |
| MxmlForest.Forest.Delete | menuselect/mxml/mxml-node.c:192-271 | Exactly the node and everything below it are gone, whatever else is in the forest stays as it was |
| MxmlTree.HangProper | menuselect/mxml/mxml-node.c:58-182 | Hanging a tree below a node that is not in it gives a forest again |
| MxmlTree.CutProper | menuselect/mxml/mxml-node.c:549-606 | Cutting a tree off gives a forest again |
| MxmlWalk.WalkNext | menuselect/mxml/mxml-search.c:129-154 | The node that the specification says is next |
| MxmlWalk.WalkPrev | menuselect/mxml/mxml-search.c:165-194 | The node that the specification says is previous |
| MxmlWalk.StepAhead | menuselect/mxml/mxml-search.c:129-154 | Steps go through the nodes that are ahead in preorder, one by one |
| MxmlWalk.WholeWalk | menuselect/mxml/mxml-search.c:129-154 | From a top, what is ahead is exactly its descendants in preorder if and only if it has children, or neither it nor a node above it has a next sibling |
| MxmlWalk.BelowDistinct | menuselect/mxml/mxml-search.c:129-154 | No node is in a preorder twice |
| MxmlWalk.BackAfterStep | menuselect/mxml/mxml-search.c:165-194 | A step back undoes a step |
| MxmlWalk.StepAfterBack | menuselect/mxml/mxml-search.c:165-194 | A step undoes a step back, and only the first descendant has none before it |
| MxmlWalk.FindElement | menuselect/mxml/mxml-search.c:47-118 | The first match among the nodes ahead, or among the siblings |
| MxmlWalk.MatchesMeans | menuselect/mxml/mxml-search.c:77-103 | What a match is: an element with the name asked for, whose first attribute with the name asked for has a value, and the one asked for |
| MxmlWalk.SearchOn | menuselect/mxml/mxml-search.c:47-118 | Searching on from each match collects every match once |
| MxmlIndex.FindsEverything | menuselect/mxml/mxml-index.c:114-284 | In a sorted index, repeated calls return the nodes with the name and value asked for, each once and in the index's order, then nothing forever, if an element is given, or no value, or the values are in order by themselves |
| MxmlIndex.ProbeAnswers | menuselect/mxml/mxml-index.c:529-560 | The comparison of the search is 0 if and only if a node has the name, if one is given, and the value, if one is given |
| MxmlIndex.AnswersMatches | menuselect/mxml/mxml-index.c:529-560 | For the nodes of an index these are exactly those that `mxmlFindElement` matches |
| MxmlIndex.MatchingIsSearch | menuselect/mxml/mxml-search.c:47-118 | So the index and the search find the same nodes |
| MxmlIndex.ValuesAlone | menuselect/mxml/mxml-index.c:114-284 | Queries by value alone return exactly the matching nodes, for all values, if and only if there are at most two nodes or their values are in order, whatever the elements are |
| MxmlIndex.Index.IndexSort | menuselect/mxml/mxml-index.c:572-644 | The sorted part is a permutation of what was in it, in order, and the rest of the array is untouched |
| MxmlIndex.Index.Partition | menuselect/mxml/mxml-index.c:589-634 | A permutation with the smaller nodes in front of the pivot and the larger ones behind it |
| MxmlIndex.Index.IndexFind | menuselect/mxml/mxml-index.c:114-284 | One call returns the specified node and moves to the specified place, for every index; what repeated calls return is said by `MxmlIndex.FindsEverything` |
| MxmlIndex.Index.Search | menuselect/mxml/mxml-index.c:170-257 | The modified binary search finds what the specification finds |
| MxmlIndex.Index.IndexEnum | menuselect/mxml/mxml-index.c:84-102 | Returns the next node of the index, or nothing |
| MxmlIndex.Index.IndexReset | menuselect/mxml/mxml-index.c:455-483 | Back to the beginning; returns the first node |
| MxmlIndex.IndexNew | menuselect/mxml/mxml-index.c:297-444 | A sorted index of exactly the chosen nodes |
| MxmlIndex.ChosenOnce | menuselect/mxml/mxml-index.c:333-368 | Below a node with children every match is chosen, once, and nothing else |
| MenuDeps.Menu.CalcDepFailures | menuselect/menuselect.c:315-392 | Whatever the members depend on, whenever the loop ends at all: no member is unstable at the end, the state is one that the rounds of the loop reach from the end of the first phase, each member has failed hard if and only if it reaches one that has a requirement outside that is not available, or was hard before and has none outside; otherwise soft if and only if another member that it depends on is soft or disabled, or it depends on itself and is disabled; each flag is that of the start or goes with the failure; the result says whether there was a change |
| MenuDeps.MetMeans | menuselect/menuselect.c:325-343 | A requirement outside is met if and only if the first entry with its name says so; letters of both cases are the same, and a name without an entry is not met |
| MenuDeps.LowerMeans | menuselect/menuselect.c:325-343 | Which letters are the same |
| MenuDeps.SeedIs | menuselect/menuselect.c:325-343 | What the first phase makes of a member |
| MenuDeps.SelfLoop | menuselect/menuselect.c:347-389 | Members may depend on themselves but on no other cycle, and one that does and whose flags flip depends on no other: the loop ends if and only if at its start no such member has a failure that does not fit its flag |
| MenuDeps.SpinsForever | menuselect/menuselect.c:347-389 | In any menu, a member that depends on itself only, whose flags flip and whose failure does not fit its flag, is that after every number of rounds, and the loop never ends |
| MenuDeps.AcyclicEnds | menuselect/menuselect.c:347-389 | Without any cycle the loop ends from every state |
| MenuDeps.EndlessInput | menuselect/menuselect.c:347-389 | One menu of one member for which it does not |
| MenuDeps.ChangeProgress | menuselect/menuselect.c:347-389 | Why it ends: one change makes the number smaller that has, in dependency order, the changes still to come of each member as its digits |
| MenuDeps.Settled | menuselect/menuselect.c:347-389 | When no member is unstable, the failures are the specified ones |
| MenuDeps.Menu.CheckExternals | menuselect/menuselect.c:325-343 | The first phase, for one member |
| MenuDeps.Menu.Scan | menuselect/menuselect.c:350-384 | One round of the second phase: the first member that is unstable changes, with its flag; the result says whether there was one |
| MpgScale.ReadChannel | formats/mp3/layer3.c:1935-1965 | A channel of a granule, with a layout, code books and side information as shipped: no error exactly if the bits suffice, and then exactly `part2_3_length` bits are used up; the scale factors are the fields of the stream; every coefficient stands in the cell of its band with its gain, all other cells are zeroed or kept as stated; the limits are the highest band of each window with a coefficient other than zero |
| MpgCoding.CodedRead | formats/mp3/layer3.c:610-970 | What an encoder writes for the coefficients of a granule, a code word for each pair or group of four and behind it, in their order, the rest of a large magnitude and the sign of each coefficient other than zero, is read as these coefficients, and takes exactly these bits |
| MpgCoding.PairRead | formats/mp3/layer3.c:686-734 | One pair with its code word, escapes and signs; the first coefficient is in the high half of the symbol |
| MpgCoding.RegionRead | formats/mp3/layer3.c:686-734 | All pairs of a region |
| MpgCoding.GroupsRead | formats/mp3/layer3.c:737-786 | All groups of four, to the last bit |
| MpgScale.FieldAt | formats/mp3/layer3.c:462-607 | A scale factor is the number in its own bits, behind those of all factors in front of it |
| MpgScale.WidthAt1 | formats/mp3/layer3.c:462-549 | How many bits each factor has in MPEG 1, for long, short and mixed blocks and for shared factors |
| MpgScale.WidthAt2 | formats/mp3/layer3.c:551-607 | How many each has in MPEG 2, from the packed widths |
| MpgScale.GainMeans | formats/mp3/layer3.c:842-850 | The gain of a coefficient is the factor of its band, with the extra table where it is chosen, shifted |
| MpgScale.ScaleFactors1 | formats/mp3/layer3.c:462-549 | The count returned is the sum of the widths read, and each scale factor is the field of its width, or zero if it has none |
| MpgScale.ScaleFactors2 | formats/mp3/layer3.c:551-607 | The same for the packed form of MPEG 2, with the choice of the extra table |
| MpgBlock.Dequantize | formats/mp3/layer3.c:610-970 | The coefficients are those of the stream, in their cells, the position is right and the error exact, for long, short and mixed blocks |
| MpgBlock.Block.Big | formats/mp3/layer3.c:695-734 | A value with its escape and sign; the table of powers is not indexed at 8207 or beyond |
| MpgBlock.Block.ReadGroups | formats/mp3/layer3.c:737-786 | The groups of four: as many coefficients as there are bits, up to the flag whose sign is missing |
| MpgBlock.Block.ZeroLong | formats/mp3/layer3.c:947-953 | The cells behind the coefficients of a long block are zero, but for the last one after an odd number |
| MpgBlock.Block.ZeroShort | formats/mp3/layer3.c:788-808 | The cells that are zeroed behind the coefficients of other blocks, exactly |
| MpgBlock.LimitsHighest | formats/mp3/layer3.c:810-813 | The band noted last is the highest one of its window with a coefficient other than zero |
| MpgGranule.AllBegun | formats/mp3/layer3.c:613-641 | No more pairs are begun than there is room for, whatever the stream is |
| MpgLayout.LayoutCells | formats/mp3/layer3.c:181-231 | For all band widths with at least 288 pairs, the first 576 coefficients go to different cells, and these are the 576 cells that there are if and only if the pairs of the long bands suffice or 288 pairs end where a short band ends |
| MpgLayout.FirstOutside | formats/mp3/layer3.c:181-231 | Where 288 pairs end inside a short band, the first coefficient that goes to a cell beyond the last one, and that all in front of it do not |
| MpgLayout.LayoutGood | formats/mp3/layer3.c:181-231 | With exactly 288 pairs a layout is as the decoder needs it |
| MpgLayout.ShortPlace | formats/mp3/layer3.c:181-231 | Where each coefficient of a short band and window goes: every third cell, from the window's place at the start of the band |
| MpgLayout.LongStraight | formats/mp3/layer3.c:181-231 | The coefficients of a long block stay in their order, each in the band that it lies in |
| MpgTables.Rows | formats/mp3/layer3.c:36-82 | For all nine sampling rates the layouts of long and of short blocks are as the decoder needs them; those of mixed blocks always send the coefficients to different cells, these are the 576 cells if and only if the rate is one of MPEG 1, and for every other rate it is stated which coefficient is the first one to go to cell 576 |
| MpgTables.RegionsInOrder | formats/mp3/layer3.c:355-448 | The two ends of regions that the side information gives, by counts or by block type, are in order if and only if the counts stay within the row of the table |
| MpgHuffman.Decode | formats/mp3/layer3.c:686-694 | For every binary code tree, the walk through its table takes the path of the bits through the tree, uses up one bit for each step and never leaves the table |
| MpgHuffman.DescendPath | formats/mp3/layer3.c:686-694 | The bits used up are the code of the symbol found |
| MpgHuffman.DecodeLimited | formats/mp3/layer3.c:738-750 | The same with a limit |
| MpgHuffman.LimitedIs | formats/mp3/layer3.c:738-750 | With a limit it is the symbol if its code fits, and otherwise zero with no bit left |
| MpgHuffman.FlattenInjective | formats/mp3/huffman.h:15-285 | A table stands for one tree only |
| MpgCodes.OnlyTree | formats/mp3/huffman.h:15-285 | The tree that the decoder's table is taken to stand for is the only one it can stand for |
| MpgCodes.TableIsCode | formats/mp3/huffman.h:15-285 | A table that a stack machine accepts from its end is the table of a tree |
| MpgBooks.HtIsCode | formats/mp3/huffman.h:289-324 | Every one of the 32 code books for pairs is the table of a tree with symbols below 256 |
| MpgBooks.HtcIsCode | formats/mp3/huffman.h:326-330 | Both code books for groups are tables of trees with symbols below 16 |
| MpgBooks.SelectionFits | formats/mp3/huffman.h:289-330 | Whatever code books the side information selects, they are as `ReadChannel` needs them; the regions are so if and only if the counts stay within the row |
| MpgBooks.ChannelReady | formats/mp3/layer3.c:1935-1965 | What `ReadChannel` asks for holds of a granule that can be received if and only if it is not a mixed block outside MPEG 1 and its counts stay within the row |
| MpgBooks.OddEnd | formats/mp3/layer3.c:947-953 | A granule that the decoder can receive and that ends behind one coefficient: the last cell of a long block keeps what was in it |
| MpgBits.Reader.GetBits | formats/mp3/common.c:206-230 | The next `n` bits as a number if they lie in three octets; otherwise the bits beyond are zeros |
| MpgBits.Reader.GetBitsFast | formats/mp3/common.c:232-250 | The next `n` bits as a number, for `n` up to 9 |
| MpgBits.Reader.Get1Bit | formats/mp3/common.c:252-263 | The next bit |
| MpgNtom.NoDrift | formats/mp3/decode_ntom.c:75-213 | After `N` calls the number of samples is `(16384 + 32 * N * step) / 32768` rounded down, and the accumulator is the remainder |
| MpgNtom.RunStereo | formats/mp3/decode_ntom.c:28-213 | The converter set to two rates and called for both channels any number of times: refused exactly as stated, and otherwise both channels have that same number of samples and the accumulator is the remainder |
| MpgNtom.Converter.Synth | formats/mp3/decode_ntom.c:75-213 | Which of the 32 values each sample is; every second position of the output is written and no other one; the accumulators of the channels |
| MpgNtom.DueOnce | formats/mp3/decode_ntom.c:75-213 | No sample is due at two values, so that this says exactly one value of each |
| MpgNtom.Converter.SynthMono | formats/mp3/decode_ntom.c:53-71 | The same samples without gaps |
| MpgNtom.Converter.SetStep | formats/mp3/decode_ntom.c:28-50 | Refused exactly for rates out of range or a step above 1:8; a refusal leaves the accumulators |
| MpgNtom.RefusedMeans | formats/mp3/decode_ntom.c:28-50 | Rates are refused exactly if one is 96000 or more, or there would be more than eight samples for each one |
| MpgNtom.AtMost256 | formats/mp3/decode_ntom.c:53-71 | One call writes at most 256 samples, which the temporary of 512 holds |

## Findings

Properties one would expect that do not hold, each with the exact condition.

- An octet string whose length is a positive multiple of 16384 is encoded without the empty last
  fragment that section 10.9.3 of X.691 asks for, and does not come back: `PerCoding.NoLastFragment`,
  and as a condition that is both necessary and sufficient `PerCoding.OctetStringComesBack`.
- An object identifier comes back if and only if `40 * a + b < 128` for its first two arcs, although
  larger ones are valid (arc 2 allows any second arc): the encoder counts one octet for the two
  (encode.c:556), whatever their number needs. `PerCoding.OidComesBack`.
- `encodeBits` shifts a 32-bit value by 32, which C leaves undefined, exactly at `bitOffset == 0` with
  32 bits (`PerBuffer.Buffer.ShiftableUnless`), and `encodeBitsFromOctet` leaves that cursor whenever
  its bits fill up the octet (`PerBuffer.Buffer.EncodeBitsFromOctet`).
- `decodeOctets` on whole octets at `bitOffset == 0` takes the branch for a last partial octet although
  there is none, and writes a zero to the octet behind the result. `PerBuffer.Buffer.DecodeOctets` says
  so, and asks for a destination that has that octet in this case, or is too small for the result.
- A document that is not inside an instruction cannot be loaded once saved:
  `MxmlRoundTrip.NoInstruction`. Text behind the last element of the top, or text only, is dropped at
  the end of the input; everything else comes back: `MxmlRoundTrip.SaveThenLoad`.
- Saved lines are meant to end by column 72, but the space in front of an attribute is not counted, so
  that they may have 73 characters (`MxmlWriting.AttrBreaks`), and a value is measured before it is
  escaped, so that there may be more (`MxmlWriting.EscapedWider`).
- Queries of an index by value alone are right for all values if and only if there are at most two
  nodes or the values are in order by themselves, because the array is sorted by element first:
  `MxmlIndex.ValuesAlone`.
- A walk from a top without children leaves the top for its next sibling, or one of a node above it:
  `MxmlWalk.WholeWalk` says exactly when it does not.
- A member that depends on itself only makes the computation of failures go on forever, in any menu, if
  the call is not interactive, the member was defaulted, is off by default and was enabled before, and
  at the start of the loop it has not failed and is disabled, or is soft and enabled
  (`MenuDeps.SpinsForever`, `MenuDeps.EndlessInput`). If there is no other cycle, and no other kind of
  member that depends on itself has these flags, there is no other way for the loop not to end
  (`MenuDeps.SelfLoop`).
- The layouts of mixed blocks outside MPEG 1 send some of the 576 coefficients to cells behind the last
  one, because the eight long bands end behind the beginning of the fourth short band and all bands
  behind are moved: for the rates 3 to 8 from the coefficients 552, 564, 552, 552, 552 and 548 on, each
  of which goes to cell 576. No two coefficients go to the same cell. `MpgTables.Rows`, and for all band
  widths `MpgLayout.LayoutCells` and `MpgLayout.FirstOutside`.
- Counts of regions with a sum of 21 or 22 reach behind the row of band edges (layer3.c:366), where the
  widths of the bands are, and the third region begins before the second one:
  `MpgTables.RegionsInOrder`.
- After an odd number of coefficients the loop that zeroes the rest of a long block two cells at a time
  leaves the last one (`MpgBooks.OddEnd` has a granule for it, `MpgBlock.Block.ZeroLong` says it of
  all), and in other blocks the loop stops once the last entry of the layout has been loaded, so the
  rest of that entry is kept from the granule before (`MpgBlock.Block.ZeroShort`).

## Left out

- MemHeap.MemHeap.Realloc: a raw allocation is not resized to 0, because what the system's `realloc` does then is its own choice.
- MemHeap.MemHeap.Alloc: sizes are counted in whole units of eight octets, also for raw memory, and no size wraps 32 bits; the back pointer that the source stores into raw memory (memheap.c:1237) is not modelled. For a size of 0 that finds no room at the end of a block, where it goes is not stated.
- MemHeap.MemHeap.Free: a pointer must be null, live, or an element that has been freed and whose header is still there; anything else is not a pointer of the heap.
- Saved elements, `memHeapReset`, `memHeapFreeAll`, `memHeapCheckPtr`, the properties and the reference counts of heaps.
- PerBuffer.Buffer.EncodeBits: 32 bits at `bitOffset == 0` are excluded, see Findings.
- PerBuffer.Buffer.DecodeOctets: a cursor with fewer than `n` bits left is excluded if as many octets are left as `n` bits take, the current one included; the source then reports no error and reads the octet behind the buffer.
- PerCodec.EncodeConsInteger: a lower bound of -2147483648 with a positive upper bound is excluded, because the source takes its absolute value, which C leaves undefined; `PerCoding.ConsIntegerRound` covers it with two's-complement wrap-around.
- PerCodec.DecodeLength: a decoder that stands at the end of its buffer looks at the octet behind it; the reading methods require that it does not, and the specification calls this case `PastEnd`.
- PerCodec.EncodeSemiConsInteger: differences that overflow 32 bits are excluded, as C leaves them undefined.
- The growth of the encoder's buffer: the writers require enough room instead.
- PER size constraints and alignment tests, constrained character strings, open types, bit strings, `encodeSemiConsUnsigned`, small non-negative numbers.
- MxmlRoundTrip.SaveThenLoad: no two neighbouring texts, no empty text, and names and attributes that can be written; for ASCII text; UTF-16 and multi-octet UTF-8 input is not modelled, and comments, CDATA, declarations and integer, real and custom nodes are read but not part of the round trip.
- Whitespace and type callbacks of Mini-XML, entity callbacks other than the default one, file and descriptor input and output, and running out of memory while parsing.
- MxmlWalk.FindElement: with descent, the top must not be ahead of the node, where the walk could return to it; a node at or below the top meets this (`MxmlWalk.AheadClear`).
- MxmlIndex.IndexNew: the top must be an element if neither an element nor an attribute is asked for, because the source compares names without looking at the type.
- MxmlReading.EntityRule: what a name of an entity stands for is a parameter, also for numeric references, which the source reads with `strtol`.
- MxmlForest.Forest.Add: the node must not be its own reference child, nor the parent or a node above it; the source links the node to itself, or makes a ring of parents.
- Attributes and names of linked nodes do not change after they were made; deleting an index and a null index.
- MenuDeps.Menu.CalcDepFailures: the loop must end; when it does is stated by `MenuDeps.SelfLoop`, but not for longer cycles, nor for a member that depends on itself and on others and whose flags flip, because what it sees of the others changes while the loop runs. The members that dependencies name are given; conflicts are the same code again, and the outer loops of menuselect over both are not modelled.
- MpgScale.ReadChannel: mixed blocks outside MPEG 1 are excluded, because the source writes outside its array of cells, and counts of regions beyond the row of the table, because it reads the wrong table, see Findings; `MpgBooks.ChannelReady` says that nothing else is, and blocks with windows have no third region.
- MpgScale.ScaleFactors2: the packed widths are given; how the side information and intensity stereo select them is not modelled.
- MpgNtom.Converter.Synth: the 32 values of the filter bank are given and not clipped.
- Reading of headers and side information, the floating-point part of the MP3 decoder, stereo processing.
- The channel driver, CDR, MySQL and application modules.
