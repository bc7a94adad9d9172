# FlatBuffers and FlexBuffers, verified

A Dafny model of the serialisation code that the repository carries under `lib-vs/include/flatbuffers`, version 1.12.
Two formats are modelled, each as a writer and a reader that must undo one another.

**FlexBuffers** (`flexbuffers.h`). `FlexBuilder.Builder` is the stack-based writer with its real fields: the growing
buffer, the stack of values, the pools of keys and strings. Beside each stack value it keeps, as a ghost, the tree that
the value stands for, and the invariant `Valid()` says that every value *denotes* its tree: wherever the value is later
stored, at any width and position that hold it, the accessors read that tree. `FlexRoundTrip.Serialize` emits any
document depth-first, and the root of the finished buffer reads it. The builder also keeps, as a ghost, that the bytes
of different numbers are apart from each other and from everything else that readers use (`IsTidy()`); so `FlexUpdate`
can change numbers of a finished document one after another, and the root reads the document with exactly those
replaced.

**FlatBuffers** (`flatbuffers.h`). `VectorDownward.VectorDownward` is the downward-growing memory over a real array,
with the upward scratch stack in the same array. `FlatBuilder.FlatBufferBuilder` writes strings, vectors, offsets and
tables with synthesised and shared vtables on top of it. Everything is placed by its distance from the end, which growth
and pops leave alone. The ghost `known` records which objects lie where, the fields of the open table, and the listed
vtables; `Valid()` ties all of it to the bytes. `FlatVerifier` is the bounds checker over arbitrary bytes. It is proved
sound for the accessors (`FlatSafety`) and proved to accept all that the builder finishes (`FlatAccepts`). `MiniReflect`
and `MiniTraversal` are the schema-driven second reader (`minireflect.h`), and `Fnv` the two hash functions (`hash.h`).

Reading outside the buffer is undefined in the original. Here an accessor then returns `None`, so "returns `Some`" means
that the read stays in bounds.

## Files

| files | content |
|---|---|
| `Bytes` | little-endian numbers, padding, slices |
| `FlexTypes`, `FlexReader`, `FlexTree` | type codes, accessors, what it means to read a tree |
| `FlexWidth`, `FlexImage`, `FlexVector`, `FlexVectorReads` | choice of widths, the bytes of values and vectors, reading them |
| `FlexMap`, `FlexMapReads`, `FlexPools`, `FlexStack`, `FlexFinish` | sorting and lookup, pools, the stack and the root |
| `FlexBuilder`, `FlexRoundTrip` | the writer and the round trip |
| `FlexMutate`, `FlexFootprint`, `FlexReplace`, `FlexUpdate` | mutation in place, which bytes a tree is read from, one number replaced, whole runs of updates |
| `FlexTidy`, `FlexTidyStack`, `FlexAlignment` | the bytes of different numbers stay apart, and everything aligned, in what the builder writes |
| `VectorDownward` | the memory of the FlatBuffers writer |
| `FlatReader`, `FlatObject`, `FlatAccess` | accessors, stored objects, reading them back, alignment from the start |
| `FlatVTable`, `FlatState`, `FlatStrings`, `FlatBuilder`, `FlatRoundTrip` | the writer and its whole runs |
| `FlatVerifier`, `FlatSafety`, `FlatAlignment`, `FlatExtent`, `FlatAccepts` | the verifier, its soundness, alignment and limits, what it accepts |
| `MiniReflect`, `MiniTraversal` | the traversal by type tables |
| `MiniEvents`, `MiniMeaning`, `MiniLeaves` | what the reported events say about the object |
| `FlexExample`, `FlatExample`, `MiniExample` | small buffers and objects, byte by byte and event by event |
| `Fnv` | the hashes |

## Model

| member | source | states |
|---|---|---|
| FlexWidth.ComputeElemWidth | lib-vs/include/flatbuffers/flexbuffers.h:1427-1454 | The search over 1, 2, 4 and 8 bytes always returns before its assertion, with the least width whose relative offset, padding included, fits its own element. |
| FlexWidth.FitsStays | lib-vs/include/flatbuffers/flexbuffers.h:1427-1454 | An offset that fits at its own width fits at every larger width and at every earlier element: aligned-up positions grow with the width. |
| FlexWidth.AlignUpGrows | lib-vs/include/flatbuffers/base.h:393-395 | Rounding a position up to a larger power of two gives no smaller position, so padding never breaks the growth. |
| FlexVector.EstimateSuffices | lib-vs/include/flatbuffers/flexbuffers.h:1524-1535 | Every value of a vector holds at the width chosen from the raw stack index, at its real element position. |
| FlexVector.VectorWidthIsLeast | lib-vs/include/flatbuffers/flexbuffers.h:1508-1535 | The width settled on is the least that is enough for the width forced, the size, the keys and every estimate. |
| FlexVectorReads.WidthSuffices | lib-vs/include/flatbuffers/flexbuffers.h:1508-1550 | At the width chosen for the whole vector every element, the key offset and the size hold, so no assertion of `WriteOffset` fails. |
| FlexTypes.WidthU | lib-vs/include/flatbuffers/flexbuffers.h:183-193 | The least of the four widths that holds an unsigned number. |
| FlexTypes.WidthIIsLeast | lib-vs/include/flatbuffers/flexbuffers.h:195-198 | `WidthI` is at most a width if and only if the number is in that width's two's complement range. |
| FlexTypes.TypedVectorTypesInvert | lib-vs/include/flatbuffers/flexbuffers.h:101-122 | The vector type gives back the element type and, for two to four numbers, the length. |
| FlexTypes.TypedVectorCodes | lib-vs/include/flatbuffers/flexbuffers.h:110-122 | The codes of the typed vectors and tuples of integers, keys and truth values, as numbers. |
| FlexImage.WrittenInt | lib-vs/include/flatbuffers/flexbuffers.h:1345-1349 | The low bytes of a signed number at any width that holds it read back, sign-extended, as the number. |
| FlexImage.WrittenUInt | lib-vs/include/flatbuffers/flexbuffers.h:1345-1349 | The same for unsigned numbers and zero extension. |
| FlexImage.ElementReads | lib-vs/include/flatbuffers/flexbuffers.h:1466-1475 | A value that denotes a tree, written by `WriteAny` at a width that holds it, is read as that tree through the parent's width and the packed type. |
| FlexImage.DenotesGrows | lib-vs/include/flatbuffers/flexbuffers.h:1466-1475 | A value on the stack keeps denoting its tree while the buffer grows behind it. |
| FlexTree.ReadsGrows | lib-vs/include/flatbuffers/flexbuffers.h:815-858 | Appending bytes never changes what an accessor reads. |
| FlexTree.ReadsUnique | lib-vs/include/flatbuffers/flexbuffers.h:815-858 | The accessors read at most one tree from a reference. |
| FlexTree.TextAccessors | lib-vs/include/flatbuffers/flexbuffers.h:511-533 | `AsKey`, `AsString` and `AsBlob` return a key, a string or a blob, and the empty value for the other kinds. |
| FlexTree.NumberAccessors | lib-vs/include/flatbuffers/flexbuffers.h:423-475 | `AsInt64` and `AsUInt64` return a number of either kind, as the same 64 bits. |
| FlexTree.OtherNumbers | lib-vs/include/flatbuffers/flexbuffers.h:423-475 | A truth value counts as 1 or 0, an untyped vector as its length, and null, keys, blobs, typed vectors and maps as 0. |
| FlexTree.Truth | lib-vs/include/flatbuffers/flexbuffers.h:415-418 | `AsBool` returns a truth value, is true for a number other than 0 and an untyped vector with elements, and false for the rest (for strings see below). |
| FlexTree.BeyondIsNothing | lib-vs/include/flatbuffers/flexbuffers.h:815-834 | The operators of the three kinds of vectors return a reference to nothing for an index beyond the end. |
| FlexTree.AbsentIsNothing | lib-vs/include/flatbuffers/flexbuffers.h:843-862 | So does looking an absent key up. |
| FlexTree.KeysAscend | lib-vs/include/flatbuffers/flexbuffers.h:1117-1133 | The keys of every map that is read are listed in dictionary order, without doubles. |
| FlexReader.ScalarSizeIsLargest | lib-vs/include/flatbuffers/flexbuffers.h:135-144 | A width is read as the largest of the four sizes that is not above it. |
| FlexReader.KeysWidthIsByte | lib-vs/include/flatbuffers/flexbuffers.h:339-346 | The width of the keys is the lowest byte of the width that is stored in front of the size. |
| FlexMap.StrCmpIsDictionaryOrder | lib-vs/include/flatbuffers/flexbuffers.h:836-840 | The comparison of keys is negative if and only if the first is a proper prefix of the second or has the smaller byte where they first differ, and positive if and only if that holds the other way round. |
| FlexMap.SortOrder | lib-vs/include/flatbuffers/flexbuffers.h:1117-1133 | The order computed holds the index of each pair exactly once. |
| FlexMap.SortOrderSorts | lib-vs/include/flatbuffers/flexbuffers.h:1117-1133 | In that order distinct keys ascend strictly in dictionary order. |
| FlexMap.SortIsForced | lib-vs/include/flatbuffers/flexbuffers.h:1117-1133 | Any arrangement of all pairs whose keys ascend in dictionary order is that one, so the sorting algorithm does not matter. |
| FlexMap.SearchFinds | lib-vs/include/flatbuffers/flexbuffers.h:843-858 | Binary search over keys in dictionary order returns an index of the key, and -1 if and only if the key is absent from the range. |
| FlexFinish.SortedPairs | lib-vs/include/flatbuffers/flexbuffers.h:1117-1144 | Sorting conserves the pairs: the sorted keys and values make the same map, with keys in dictionary order. |
| FlexFinish.TypeKeptExactly | lib-vs/include/flatbuffers/flexbuffers.h:1524-1541 | A typed vector keeps its element type if and only if it has an element or the type is that of keys; the empty one becomes a vector of keys. |
| FlexMapReads.MapLookups | lib-vs/include/flatbuffers/flexbuffers.h:843-862 | On a map laid out with keys in dictionary order, looking up each key gives its value, and every NUL-free absent key the null reference. |
| FlexMapReads.MapWalks | lib-vs/include/flatbuffers/flexbuffers.h:337-346 | The i-th value of the map is the value of its i-th key, and the keys listed are exactly the map's keys. |
| FlexMapReads.MapReads | lib-vs/include/flatbuffers/flexbuffers.h:1093-1144 | The bytes of a map vector with its keys vector in front read as the map, by walking in dictionary order and by lookup. |
| FlexVectorReads.VectorReads | lib-vs/include/flatbuffers/flexbuffers.h:1508-1563 | An untyped vector reads as its elements, each with its own packed type. |
| FlexVectorReads.ElementByteWidth | lib-vs/include/flatbuffers/flexbuffers.h:1423-1462 | Through its packed type an inline element has the width of the vector, and any other the width of its own value. |
| FlexVectorReads.TypedReads | lib-vs/include/flatbuffers/flexbuffers.h:823-828 | A typed vector reads as its elements of the common type. |
| FlexVectorReads.FixedReads | lib-vs/include/flatbuffers/flexbuffers.h:830-834 | A tuple without a stored size reads as its elements, with the length taken from the type. |
| FlexVectorReads.BuiltExtends | lib-vs/include/flatbuffers/flexbuffers.h:1535-1563 | The image that `CreateVector` appends has size, elements and types where the accessors look for them. |
| FlexPools.MatchesIsTruncated | lib-vs/include/flatbuffers/flexbuffers.h:1591-1602 | The comparison of the string pool takes two strings for equal if and only if they agree up to the first NUL. |
| FlexPools.SharingExact | lib-vs/include/flatbuffers/flexbuffers.h:1022-1039 | The pool gives out the right string if and only if no pooled string clashes with the argument. |
| FlexPools.NulsClash | lib-vs/include/flatbuffers/flexbuffers.h:1591-1602 | "a\0b" and "a\0c" clash, and the pool takes one for the other. |
| FlexStack.SharedReads | lib-vs/include/flatbuffers/flexbuffers.h:1028-1037 | Where both sizes have one width, a string taken from the pool denotes the argument if and only if nothing in the pool clashes with it. |
| FlexStack.NoClashReads | lib-vs/include/flatbuffers/flexbuffers.h:1028-1037 | Without a clash a string taken from the pool denotes the argument, whatever the widths. |
| FlexStack.NarrowShares | lib-vs/include/flatbuffers/flexbuffers.h:1028-1037 | If the pooled string's size is wider than the argument's, the value denotes the argument if and only if the upper bytes of that size are its length and the pooled string begins with it. |
| FlexStack.LuckyClash | lib-vs/include/flatbuffers/flexbuffers.h:1028-1037 | A pooled string of 300 bytes that begins with "a" and a NUL clashes with "a", and yet the value pushed reads as "a". |
| FlexStack.MatchIsOnly | lib-vs/include/flatbuffers/flexbuffers.h:1028-1037 | At most one pooled string matches, so a match that clashes rules out that the argument itself is pooled. |
| FlexStack.PoolMiss | lib-vs/include/flatbuffers/flexbuffers.h:1034-1036 | A string without a match joins the pool and keeps it free of doubles. |
| FlexBuilder.Builder.Null | lib-vs/include/flatbuffers/flexbuffers.h:935 | Pushes a value denoting null and leaves the rest. |
| FlexBuilder.Builder.Int | lib-vs/include/flatbuffers/flexbuffers.h:941 | Pushes a value denoting the signed number, of the least width. |
| FlexBuilder.Builder.UInt | lib-vs/include/flatbuffers/flexbuffers.h:947 | Pushes a value denoting the unsigned number. |
| FlexBuilder.Builder.PushIndirect | lib-vs/include/flatbuffers/flexbuffers.h:1367-1372 | Appends padding up to a multiple of the number's width and the number, and pushes a value denoting it as an indirect number. |
| FlexBuilder.Builder.Key | lib-vs/include/flatbuffers/flexbuffers.h:1001-1017 | Pushes a value denoting the key up to its first NUL; a pooled key leaves the buffer at its former length, another is appended, terminated and pooled. |
| FlexBuilder.Builder.CreateBlob | lib-vs/include/flatbuffers/flexbuffers.h:1477-1485 | Appends padding, size, data and terminator, the data at a multiple of the width of the size, and pushes a value denoting the data. |
| FlexBuilder.Builder.String | lib-vs/include/flatbuffers/flexbuffers.h:1022-1039 | Without a clash the value denotes the argument, and a hit leaves the buffer as it was; with one it leads to the clashing string instead. |
| FlexBuilder.Builder.CreateVector | lib-vs/include/flatbuffers/flexbuffers.h:1508-1563 | Writes exactly the specified image at the width chosen, and returns its position, type and width. |
| FlexBuilder.Builder.EndVector | lib-vs/include/flatbuffers/flexbuffers.h:1085-1091 | Replaces the values from `start` on by one that denotes the vector of their trees, written as specified; the values below stay. |
| FlexBuilder.Builder.SortPairs | lib-vs/include/flatbuffers/flexbuffers.h:1113-1133 | Sorts the pairs in place on the stack by the dictionary order of their keys, keys with their values, and leaves the stack below alone. |
| FlexBuilder.Builder.EndMap | lib-vs/include/flatbuffers/flexbuffers.h:1093-1144 | Replaces keys and values by one value that denotes the map from each key to its value, its keys listed in dictionary order. |
| FlexBuilder.Builder.ScalarVector | lib-vs/include/flatbuffers/flexbuffers.h:1487-1506 | Writes padding, size and the numbers at one width, and pushes a value denoting their typed vector or tuple. |
| FlexBuilder.Builder.Finish | lib-vs/include/flatbuffers/flexbuffers.h:1306-1322 | Appends exactly the root's image; `GetRoot` on the finished buffer reads the tree of the one value on the stack. |
| FlexBuilder.Builder.Clear | lib-vs/include/flatbuffers/flexbuffers.h:921-929 | Empties buffer, stack and pools. |
| FlexRoundTrip.Emit | lib-vs/include/flatbuffers/flexbuffers.h:1085-1144 | Emitting a document depth-first pushes exactly one value, which denotes the document's tree, and moves nothing that was there. |
| FlexRoundTrip.Serialize | lib-vs/include/flatbuffers/flexbuffers.h:864-872 | For every well-formed document, all flags and any minimum width, the root of the finished buffer reads the document, everything with a width lies at a multiple of it, and its numbers can be changed in place; where strings are shared, no two of them agree up to the first NUL. |
| FlexAlignment.FinishedAligned | lib-vs/include/flatbuffers/flexbuffers.h:1332-1338 | In every finished buffer, before and after its numbers are changed, every number, size, offset, element and keys vector that the accessors reach lies at a multiple of its width. |
| FlexExample.VectorSample | lib-vs/include/flatbuffers/flexbuffers.h:864-872 | A buffer of 12 bytes reads as the vector of "hi" and -2. |
| FlexExample.MapSample | lib-vs/include/flatbuffers/flexbuffers.h:843-862 | A buffer of 12 bytes reads as the map from "a" to 5. |
| FlexRoundTrip.NulFreeUnconfused | lib-vs/include/flatbuffers/flexbuffers.h:1591-1602 | Strings without embedded NULs are never confused. |
| FlexRoundTrip.SharingTransparent | lib-vs/include/flatbuffers/flexbuffers.h:880-895 | Buffers of one document built with different sharing flags read as the same trees. |
| FlexRoundTrip.ConfusedStrings | lib-vs/include/flatbuffers/flexbuffers.h:1022-1039 | A vector of "a\0b" and "a\0c" built with shared strings reads as "a\0b" twice, and not as what was put in. |
| FlexMutate.FitsExactly | lib-vs/include/flatbuffers/flexbuffers.h:736-746 | The width test of `Mutate` passes exactly the numbers in the range of the stored width. |
| FlexMutate.SignedReadsBack | lib-vs/include/flatbuffers/flexbuffers.h:661-675 | A fitting signed number overwritten in place is read back by both accessors. |
| FlexMutate.UnsignedReadsBack | lib-vs/include/flatbuffers/flexbuffers.h:681-695 | The same for unsigned numbers. |
| FlexMutate.NumbersElsewhere | lib-vs/include/flatbuffers/flexbuffers.h:736-746 | The case of a number for the accessors themselves: apart from the bytes overwritten, `AsInt64` and `AsUInt64` return what they returned. `FlexUpdate.ReadsElsewhere` is the theorem for all kinds. |
| FlexMutate.SizedElsewhere | lib-vs/include/flatbuffers/flexbuffers.h:736-746 | The case of a string or blob for the accessors themselves. |
| FlexMutate.MutateToSame | lib-vs/include/flatbuffers/flexbuffers.h:736-746 | Writing back the number that was read leaves the buffer as it was. |
| FlexMutate.MutateInt | lib-vs/include/flatbuffers/flexbuffers.h:661-675 | Succeeds if and only if the reference is a number and the new one fits its kind and width; then it is read back and no other byte changes; otherwise nothing changes. |
| FlexMutate.MutateUInt | lib-vs/include/flatbuffers/flexbuffers.h:681-695 | The same for an unsigned argument. |
| FlexFootprint.ReadsAgree | lib-vs/include/flatbuffers/flexbuffers.h:815-858 | Where the bytes that are used for reading a tree are the same, vectors, maps and lookups included, the same tree is read. |
| FlexUpdate.ReadsElsewhere | lib-vs/include/flatbuffers/flexbuffers.h:736-746 | After bytes were overwritten, every reference of any kind whose tree is read without them reads the same tree. |
| FlexReplace.WalkFinds | lib-vs/include/flatbuffers/flexbuffers.h:815-862 | Walking by index and key leads to the number that the tree has there. |
| FlexReplace.WalkAgrees | lib-vs/include/flatbuffers/flexbuffers.h:815-862 | While everything but numbers stays, every path to a number leads to the same reference. |
| FlexReplace.ReplaceReads | lib-vs/include/flatbuffers/flexbuffers.h:736-746 | If only the bytes of one number changed, the whole tree reads with that number replaced, and the bytes of its numbers are still apart. |
| FlexTidyStack.VectorTidy | lib-vs/include/flatbuffers/flexbuffers.h:1508-1563 | Writing a vector keeps the bytes of different numbers apart from each other and from the rest. |
| FlexTidyStack.MapTidy | lib-vs/include/flatbuffers/flexbuffers.h:1093-1144 | So does writing a map, with its keys vector. |
| FlexTidyStack.SortedTidy | lib-vs/include/flatbuffers/flexbuffers.h:1117-1133 | So does rearranging the pairs. |
| FlexTidyStack.RootTidy | lib-vs/include/flatbuffers/flexbuffers.h:1306-1322 | The finished buffer of tidy bytes is one whose numbers can be changed, the root's type and width included in the rest. |
| FlexUpdate.DocumentUpdated | lib-vs/include/flatbuffers/flexbuffers.h:736-746 | If a number was overwritten with one that the accessors return, the root reads the document with that number replaced, and all paths lead where they led. |
| FlexUpdate.UpdateInt | lib-vs/include/flatbuffers/flexbuffers.h:661-675 | Walks to a number and changes it, which succeeds if and only if the new one fits there; then the root reads the document with that number replaced, and otherwise nothing has changed. |
| FlexUpdate.UpdateUInt | lib-vs/include/flatbuffers/flexbuffers.h:681-695 | The same with an unsigned argument. |
| FlexUpdate.UpdateInts | lib-vs/include/flatbuffers/flexbuffers.h:661-675 | Any run of updates leaves the document with exactly those numbers replaced that fit in the buffer as it was at first. |
| VectorDownward.VectorDownward.ReallocateDownward | lib-vs/include/flatbuffers/flatbuffers.h:601-623 | The new block holds the used back at its back and the used front at its front. |
| VectorDownward.VectorDownward.Reallocate | lib-vs/include/flatbuffers/flatbuffers.h:1013-1028 | Growth is strict, by half of what there is or the initial size or what is asked for, rounded up to the alignment, gives the room asked for, and moves neither stack's contents. |
| VectorDownward.VectorDownward.Push | lib-vs/include/flatbuffers/flatbuffers.h:949-951 | Puts the bytes in front, and leaves the scratch stack alone. |
| VectorDownward.VectorDownward.Pop | lib-vs/include/flatbuffers/flatbuffers.h:978 | Drops exactly the front bytes. |
| VectorDownward.VectorDownward.ScratchPushSmall | lib-vs/include/flatbuffers/flatbuffers.h:959-963 | Adds to the scratch stack and leaves the vector alone. |
| VectorDownward.Run | lib-vs/include/flatbuffers/flatbuffers.h:793-1028 | Every run of push, fill, pop, scratch push and pop, and clear acts on two independent stacks, and keeps scratch below cursor below the end. |
| FlatObject.StoredGrows | lib-vs/include/flatbuffers/flatbuffers.h:947 | Whatever is put in front, an object stays stored at its distance from the end. |
| FlatStrings.LessThanIsDictionaryOrder | lib-vs/include/flatbuffers/flatbuffers.h:549-553 | The comparison is the dictionary order of byte strings, embedded NULs included. |
| FlatStrings.LessThanTotal | lib-vs/include/flatbuffers/flatbuffers.h:549-553 | Of two different strings exactly one is less, and no string is less than itself. |
| FlatStrings.LessThanTransitive | lib-vs/include/flatbuffers/flatbuffers.h:549-553 | The comparison is transitive. |
| FlatVTable.VTableReads | lib-vs/include/flatbuffers/flatbuffers.h:1354-1380 | The synthesised vtable gives each added field its distance in the table, and every other field 0. |
| FlatVTable.TableStored | lib-vs/include/flatbuffers/flatbuffers.h:1350-1412 | With a vtable of these bytes anywhere in the buffer, the table reads as exactly the fields that were added. |
| FlatState.EndTableKnows | lib-vs/include/flatbuffers/flatbuffers.h:1382-1412 | Closing a table with a new or a shared vtable keeps every earlier object and every pooled string; the vtable list stays in use and, if always shared, pairwise distinct. |
| FlatState.EndTableBytes | lib-vs/include/flatbuffers/flatbuffers.h:1401-1409 | The offset written at the table leads to the vtable used, wherever it is. |
| Bytes.PaddingAligns | lib-vs/include/flatbuffers/base.h:393-395 | The padding is the least number of bytes that aligns the size, and smaller than the alignment. |
| FlatBuilder.FlatBufferBuilder.PushElement | lib-vs/include/flatbuffers/flatbuffers.h:1268-1274 | Aligns, puts the element in front, and returns its distance from the end. |
| FlatBuilder.FlatBufferBuilder.ReferTo | lib-vs/include/flatbuffers/flatbuffers.h:1317-1323 | The number that leads from the place of the offset to the object. |
| FlatBuilder.FlatBufferBuilder.CreateString | lib-vs/include/flatbuffers/flatbuffers.h:1452-1459 | A new object at a new offset: length, bytes and terminator without a gap. |
| FlatBuilder.FlatBufferBuilder.CreateSharedString | lib-vs/include/flatbuffers/flatbuffers.h:1514-1531 | Equal strings get the offset of the pooled one with the buffer as it was; a new string gets a new offset and joins the pool. |
| FlatBuilder.FlatBufferBuilder.CreateVector | lib-vs/include/flatbuffers/flatbuffers.h:1597-1616 | A new object: the length and the elements in order without a gap, aligned to their size. |
| FlatBuilder.FlatBufferBuilder.CreateVectorOfOffsets | lib-vs/include/flatbuffers/flatbuffers.h:1619-1623 | A new object whose i-th offset leads to the i-th object given. |
| FlatBuilder.FlatBufferBuilder.StartTable | lib-vs/include/flatbuffers/flatbuffers.h:1341-1345 | Opens a table at the current size, with no fields. |
| FlatBuilder.FlatBufferBuilder.TrackField | lib-vs/include/flatbuffers/flatbuffers.h:1283-1288 | Puts the field's record on the scratch stack above the vtable list, and keeps the largest field id. |
| FlatBuilder.FlatBufferBuilder.AddElement | lib-vs/include/flatbuffers/flatbuffers.h:1290-1296 | Adds the scalar to the open table, unless it equals its default and defaults are not forced; then nothing changes. |
| FlatBuilder.FlatBufferBuilder.AddOffset | lib-vs/include/flatbuffers/flatbuffers.h:1298-1301 | Adds a reference to an object made earlier, unless it is null. |
| FlatBuilder.FlatBufferBuilder.AddStruct | lib-vs/include/flatbuffers/flatbuffers.h:1303-1308 | Adds the bytes of a struct at its alignment. |
| FlatBuilder.FlatBufferBuilder.FindVTable | lib-vs/include/flatbuffers/flatbuffers.h:1386-1398 | Finds a listed vtable with the bytes of the new one if and only if there is one. |
| FlatBuilder.FlatBufferBuilder.EndTable | lib-vs/include/flatbuffers/flatbuffers.h:1350-1412 | The table is stored with exactly the fields added; a vtable is popped exactly when vtables are shared and one with its bytes is listed, and no earlier object changes. |
| FlatBuilder.FlatBufferBuilder.Clear | lib-vs/include/flatbuffers/flatbuffers.h:1153-1160 | Starts over with nothing known and the memory kept. |
| FlatBuilder.FlatBufferBuilder.Finish | lib-vs/include/flatbuffers/flatbuffers.h:2002-2017 | The size is a multiple of the largest alignment, `GetRoot` finds the root, and identifier and size prefix are where they are looked for. |
| FlatAccess.ScalarReadsBack | lib-vs/include/flatbuffers/flatbuffers.h:2434-2437 | An added scalar is what `GetField` returns, whatever the default. |
| FlatAccess.StructReadsBack | lib-vs/include/flatbuffers/flatbuffers.h:2470-2476 | `GetAddressOf` leads to the bytes of an added struct. |
| FlatAccess.AbsentReadsDefault | lib-vs/include/flatbuffers/flatbuffers.h:2424-2443 | A field that was not added reads as its default, or as null. |
| FlatAccess.BeyondVTableReadsDefault | lib-vs/include/flatbuffers/flatbuffers.h:2424-2432 | A field beyond the vtable reads as its default, and was not added. |
| FlatAccess.RefReadsBack | lib-vs/include/flatbuffers/flatbuffers.h:2439-2443 | `GetPointer` leads forward to where the child is stored. |
| FlatAccess.StringReadsBack | lib-vs/include/flatbuffers/flatbuffers.h:555-570 | A string has its bytes, embedded NULs included, and a NUL behind them. |
| FlatAccess.ScalarsReadBack | lib-vs/include/flatbuffers/flatbuffers.h:256-259 | `Get(i)` returns the i-th element of a stored vector. |
| FlatAccess.OffsetsReadBack | lib-vs/include/flatbuffers/flatbuffers.h:108-116 | `Get(i)` on a vector of offsets leads to where the i-th object is stored. |
| FlatAccess.AlignedFromStart | lib-vs/include/flatbuffers/flatbuffers.h:2002-2017 | If the whole size is a multiple of the largest alignment, every scalar, struct, vector, offset and vtable reached from an object is aligned from the start of the buffer. |
| FlatRoundTrip.Emit | lib-vs/include/flatbuffers/flatbuffers.h:1283-1412 | Emitting a document depth-first makes one new object, which is the document's, moves no earlier one, and takes no more room than its weight. |
| FlatRoundTrip.FitsAnywhere | lib-vs/include/flatbuffers/flatbuffers.h:1365-1369 | A table whose fields stay below 64K from every start below 16 does so from every start. |
| FlatRoundTrip.StoredReads | lib-vs/include/flatbuffers/flatbuffers.h:2424-2473 | Where a document's object is stored, the accessors return the document: texts, numbers, items and parts in their order, a scalar whether it was stored or skipped as its default, and nothing in any other field. |
| FlatRoundTrip.Serialize | lib-vs/include/flatbuffers/flatbuffers.h:2002-2017 | For every document and all options, the accessors return the document from the root found in the finished buffer, all of it is aligned from the start, and the verifier accepts it under every matching schema and sufficient limits. |
| FlatVerifier.TableStartVTable | lib-vs/include/flatbuffers/flatbuffers.h:2256-2268 | The wrapped subtraction finds the vtable address that the accessors compute, and the vtable is inside the buffer. |
| FlatVerifier.RangeRefused | lib-vs/include/flatbuffers/flatbuffers.h:2159-2167 | Of the ranges within the buffer exactly the one that covers all of it is refused. |
| FlatSafety.StartPassesExactly | lib-vs/include/flatbuffers/flatbuffers.h:2256-2268 | A table start passes exactly if what the accessors read there is in range and, if alignment is checked, the table is at a multiple of 4, its vtable at an even address, and the vtable's size even. |
| FlatSafety.OffsetPassesExactly | lib-vs/include/flatbuffers/flatbuffers.h:2301-2312 | An offset passes exactly if it can be read, is positive as a signed number, leads to a byte of the buffer and is aligned if that is checked. |
| FlatSafety.VectorPassesExactly | lib-vs/include/flatbuffers/flatbuffers.h:2220-2234 | A vector passes exactly if its length can be read, it is in the buffer without covering all of it, its bytes are below 2 GB, and its length is aligned if that is checked. |
| FlatSafety.StringPassesExactly | lib-vs/include/flatbuffers/flatbuffers.h:2211-2217 | A string passes exactly if it is such a vector of bytes with a NUL behind it. |
| FlatVerifier.PrefixStates | lib-vs/include/flatbuffers/flatbuffers.h:2295-2299 | The size prefix passes exactly if it can be read and states the number of bytes behind it. |
| FlatVerifier.FieldOffsetsSafe | lib-vs/include/flatbuffers/flatbuffers.h:2256-2268 | After a passed table start every even field offset can be read, if and only if the vtable's size is even or a byte follows the vtable. |
| FlatVerifier.OddVTableEscapes | lib-vs/include/flatbuffers/flatbuffers.h:2170-2173 | Without the checks of alignment a buffer passes whose field offset is read past the end. |
| FlatVerifier.Verifier.VerifyComplexity | lib-vs/include/flatbuffers/flatbuffers.h:2322-2327 | Counts the table and says whether the limits still hold. |
| FlatVerifier.Verifier.VerifyTableStart | lib-vs/include/flatbuffers/flatbuffers.h:2256-2268 | Passes exactly if the checks of the table start, those of alignment included, and the limits hold. |
| FlatVerifier.Verifier.VerifyTable | lib-vs/include/flatbuffers/reflection_generated.h:133-140 | Passes exactly if the verdict on the table and all it refers to is positive, and then counts the tables of the verdict at the former depth. |
| FlatVerifier.Verifier.VerifyVectorOfStrings | lib-vs/include/flatbuffers/flatbuffers.h:2237-2245 | Passes exactly if every string of the vector passes. |
| FlatVerifier.Verifier.VerifyVectorOfTables | lib-vs/include/flatbuffers/flatbuffers.h:2247-2254 | Passes exactly if every table of the vector passes in turn. |
| FlatVerifier.Verifier.VerifyBuffer | lib-vs/include/flatbuffers/flatbuffers.h:2291-2293 | Passes exactly if the verdict on the whole buffer is positive; the result says if the identifier was read outside the buffer. |
| FlatVerifier.Verifier.VerifySizePrefixedBuffer | lib-vs/include/flatbuffers/flatbuffers.h:2295-2299 | The same behind a size prefix that states the size; a buffer too short for its identifier may have no result. |
| FlatSafety.VectorSound | lib-vs/include/flatbuffers/flatbuffers.h:2220-2234 | After the check, the length and every element in range can be read. |
| FlatSafety.StringSound | lib-vs/include/flatbuffers/flatbuffers.h:2211-2217 | After the check, the bytes can be read and a NUL follows them. |
| FlatSafety.OffsetSound | lib-vs/include/flatbuffers/flatbuffers.h:2301-2312 | An accepted offset leads strictly forward to a byte of the buffer. |
| FlatSafety.VerdictSound | lib-vs/include/flatbuffers/flatbuffers.h:2484-2516 | If a table passes in a buffer whose table starts are safe, every accessor that the schema allows, from it and from all that is reached through it, stays in the buffer. |
| FlatSafety.CheckedStartsSafe | lib-vs/include/flatbuffers/flatbuffers.h:2256-2268 | With the checks of alignment on, every table start is safe. |
| FlatSafety.SoundExactly | lib-vs/include/flatbuffers/flatbuffers.h:2256-2268 | Over all schemas, limits and tables, whatever passes can be read if and only if the buffer's table starts are safe: wherever a start passes, the vtable's size is even or a byte follows the vtable. |
| FlatSafety.BufferSound | lib-vs/include/flatbuffers/flatbuffers.h:2271-2284 | If a buffer passes, its root is found and everything below can be read. |
| FlatAlignment.VerdictAligned | lib-vs/include/flatbuffers/flatbuffers.h:2170-2178 | If a table passes with the checks of alignment on, every table, every offset field, and the length of every vector and string reached from it is at a multiple of 4, and every vtable at an even address. |
| FlatAlignment.BufferAligned | lib-vs/include/flatbuffers/flatbuffers.h:2271-2284 | The same from the root of a buffer, whose own offset is aligned too. |
| FlatAlignment.OddTableRefused | lib-vs/include/flatbuffers/flatbuffers.h:2170-2178 | A buffer whose root table is at address 5 is refused with the checks of alignment, and passes without them. |
| FlatExtent.VerdictCounts | lib-vs/include/flatbuffers/flatbuffers.h:2322-2327 | A passed table: the verdict counts the tables met from it, each as often as it is met, and neither their number nor their nesting exceeds the limits. |
| FlatSafety.IdentifierSound | lib-vs/include/flatbuffers/flatbuffers.h:2271-2276 | A buffer that passes with a NUL-free identifier has that identifier. |
| FlatSafety.IdentifierCheckSuffices | lib-vs/include/flatbuffers/flatbuffers.h:2271-2276 | In a buffer of at least 8 bytes the identifier is inside without a size prefix, and behind a correct one if and only if there are 12 bytes. |
| FlatSafety.IdentifierEscapes | lib-vs/include/flatbuffers/flatbuffers.h:2271-2276 | Eight bytes that state their size pass the checks made before, and every identifier is then compared with bytes outside. |
| FlatSafety.OutsideExactly | lib-vs/include/flatbuffers/flatbuffers.h:2271-2276 | Verification reads outside while it compares the identifier if and only if 8 to 11 bytes stand behind a size prefix and those left begin the identifier without a NUL. |
| FlatAccepts.Accepted | lib-vs/include/flatbuffers/flatbuffers.h:2256-2268 | A stored object that matches the schema and the limits passes, and counts exactly its tables. |
| FlatAccepts.FinishedAccepted | lib-vs/include/flatbuffers/flatbuffers.h:2291-2299 | What either form of `Finish` makes of a stored object passes, with identifier and size prefix. |
| FlatExample.SampleReads | lib-vs/include/flatbuffers/flatbuffers.h:2424-2437 | A buffer of 20 bytes has its root at 12, whose field reads as 7 and whose absent field as the default. |
| FlatExample.SampleAccepted | lib-vs/include/flatbuffers/flatbuffers.h:2256-2268 | It passes with limits of one table, and not with a lower limit or a missing required field. |
| MiniReflect.ScalarSizes | lib-vs/include/flatbuffers/minireflect.h:73-86 | The sizes of the scalar types, as numbers. |
| MiniReflect.LookupEnum | lib-vs/include/flatbuffers/minireflect.h:99-107 | The first index of the value, -1 if and only if it is unknown, and the value itself without a table. |
| MiniTraversal.FindEnum | lib-vs/include/flatbuffers/minireflect.h:99-107 | The loop finds the first index of the value. |
| MiniTraversal.IterateStruct | lib-vs/include/flatbuffers/minireflect.h:232-274 | Reports every field of a struct at its place, nested structs included. |
| MiniTraversal.IterateVector | lib-vs/include/flatbuffers/minireflect.h:250-266 | The element pointer, moved by the inline size, visits the j-th element as the j-th. |
| MiniTraversal.IterateUnion | lib-vs/include/flatbuffers/minireflect.h:192-219 | Reports the union as the member that the stored type names, or as unknown. |
| MiniTraversal.IterateValue | lib-vs/include/flatbuffers/minireflect.h:121-230 | Reports exactly the stored value, a union by the type in the field or vector in front. |
| MiniTraversal.IterateObject | lib-vs/include/flatbuffers/minireflect.h:232-274 | On a stored table that matches its type table, ends, visits the fields in schema order with the number of fields present before each, and reports exactly what is stored. |
| MiniTraversal.IterateFlatBuffer | lib-vs/include/flatbuffers/minireflect.h:276-280 | The same from the root of a buffer. |
| MiniMeaning.ObjTells | lib-vs/include/flatbuffers/minireflect.h:232-274 | Two objects of one type of which the same is reported agree on every field that the type lists: presence, numbers, structs, texts, elements, and union members of a listed type. |
| MiniLeaves.ObjReports | lib-vs/include/flatbuffers/minireflect.h:121-230 | The numbers and texts reported are exactly those that the object holds, in the order of the schema; a text that is the member of a union is among them. |
| MiniEvents.ObjIsValue | lib-vs/include/flatbuffers/minireflect.h:232-274 | Where the report of an object ends shows from the events alone, whatever follows. |
| MiniExample.ExampleEvents | lib-vs/include/flatbuffers/minireflect.h:232-274 | All that is reported of one table with a number, an absent and a present text, a vector and a struct. |
| MiniExample.UnionEventsSeen | lib-vs/include/flatbuffers/minireflect.h:192-219 | A union is reported by the type in front of it, each union of a vector by its own, and one of an unknown type as unknown. |
| Fnv.XorIsBitwise | lib-vs/include/flatbuffers/hash.h:42-58 | A bit of the exclusive or is set if and only if it differs in the two numbers; the bits beyond the byte stay. |
| Fnv.HashesOfAb | lib-vs/include/flatbuffers/hash.h:42-58 | The hashes of no text and of "ab" in all four variants, as numbers. |
| Fnv.StepSeparates | lib-vs/include/flatbuffers/hash.h:42-58 | One step of either hash keeps distinct states distinct under a byte, and parts one state under distinct bytes. |
| Fnv.Multiply32Undone | lib-vs/include/flatbuffers/hash.h:32-35 | Multiplying by the 32-bit prime modulo 2^32 is undone by multiplying by its inverse. |
| Fnv.Multiply64Undone | lib-vs/include/flatbuffers/hash.h:37-40 | The same for the 64-bit prime. |
| Fnv.OneByteChangesHash | lib-vs/include/flatbuffers/hash.h:42-58 | Strings of one length that differ in one byte have different hashes, in all four variants. |
| Fnv.HashFnv1 | lib-vs/include/flatbuffers/hash.h:42-49 | The loop computes the hash of the text before the first NUL. |
| Fnv.HashFnv1a | lib-vs/include/flatbuffers/hash.h:51-58 | The same with the byte taken in before the multiplication. |

## Findings

Where the code does not do what its documentation or its other parts promise, the model keeps the code and proves where
it does.

- **Shared strings with embedded NULs are confused.** The pool compares with `strncmp`, which stops at the first NUL
  (`lib-vs/include/flatbuffers/flexbuffers.h:1022-1039,1590-1602`), although `String` takes a length. With
  `BUILDER_FLAG_SHARE_STRINGS`, after "a\0b" the string "a\0c" is stored as a reference to "a\0b":
  `FlexRoundTrip.ConfusedStrings` builds that buffer and proves that it does not read the second string. `NoClash`
  says that no string of the pool differs from the argument and agrees with it up to the first NUL. It always suffices
  (`FlexStack.NoClashReads`), and it is necessary where the two sizes are stored in one width
  (`FlexStack.SharedReads`). Otherwise the value on the stack carries the wrong width for the stored size. For an
  argument with the narrower size only the upper bytes of the stored size are read, and `FlexStack.NarrowShares` says
  exactly when the value denotes the argument all the same: `FlexStack.LuckyClash` gives a pooled string of 300 bytes
  for which it does. A whole document is read back if no two of its strings agree up to the first NUL
  (`FlexRoundTrip.Serialize`).
- **An empty typed vector forgets its element type.** `CreateVector` takes the type from the first element and starts
  with `FBT_KEY` (`lib-vs/include/flatbuffers/flexbuffers.h:1524-1541`), so an empty typed vector reads as an empty
  vector of keys. `EndVector` states this (`VectorTree`), and `FlexFinish.TypeKeptExactly` when the type is kept.
- **The width estimate uses the wrong index, harmlessly.** `ElemWidth` is called with the index of the value on the
  whole stack rather than in the vector (`lib-vs/include/flatbuffers/flexbuffers.h:1527`).
  `FlexVector.EstimateSuffices` proves that the estimate is never too small.
- **`ElemWidth` never reaches its assertion** (`lib-vs/include/flatbuffers/flexbuffers.h:1451`): `ComputeElemWidth`
  proves that the search returns, with the least width that fits.
- **An odd vtable size passes when alignment is not checked.** The evenness of the vtable's size is tested by
  `VerifyAlignment` (`lib-vs/include/flatbuffers/flatbuffers.h:2170-2173,2266`), which the verifier's `check_alignment`
  option switches off. `FlatVerifier.FieldOffsetsSafe` gives the exact condition under which a passed table start makes
  every field offset readable, and `FlatVerifier.OddVTableEscapes` a buffer that passes and is read outside.
  `FlatSafety.SoundExactly` proves that the verifier is sound for a buffer if and only if all its table starts are safe.
- **The size check before the identifier is too weak behind a size prefix.**
  `lib-vs/include/flatbuffers/flatbuffers.h:2271-2276` asks for 8 bytes although the identifier of a size-prefixed
  buffer ends at byte 12. `FlatSafety.IdentifierEscapes` gives a buffer of 8 bytes that passes and is read outside,
  `FlatSafety.IdentifierCheckSuffices` the exact size from which the identifier is inside, and
  `FlatSafety.OutsideExactly` the exact buffers with which the comparison leaves.
- **A range that covers the whole buffer is refused.** `Verify` asks for `elem_len < size_`
  (`lib-vs/include/flatbuffers/flatbuffers.h:2159-2167`; `FlatVerifier.RangeRefused`). `FlatAccepts.FinishedAccepted`
  shows that what the builder finishes passes all the same.
- **The 64-bit offset basis is not FNV's.** The code starts the 64-bit hashes from 0xcbf29ce484222645
  (`lib-vs/include/flatbuffers/hash.h:38-41`); the published offset basis of 64-bit FNV is 0xcbf29ce484222325. The model
  keeps the code's number (`Fnv.HashesOfAb`).

## Left out

- Floating point: floats and doubles of FlexBuffers, their widths, `MutateFloat`; in FlatBuffers and in the traversal
  they are scalars of 4 or 8 bytes, given by their bits.
- `MutateBool`, `MutateString`, the deprecated typed vectors of strings, and fixed typed vectors other than of two to
  four integers.
- `BUILDER_FLAG_SHARE_KEY_VECTORS`, which has no effect in this version, and `LastValue` and `ReuseValue`.
- String-to-number and number-to-string conversions, `ToString`, and the text visitor of mini-reflection.
- FlexBuilder.Builder.EndMap: two equal keys trip an assertion in the source; here distinct keys are required.
- FlexBuilder.Builder.String: a NUL at `str[len]` is assumed, as for keys. With a clash whose size has another width
  only the position and the width of the value pushed are stated; what the accessors make of them is said by
  `FlexStack.NarrowShares` for the narrower argument, and not for the wider one.
- FlexBuilder.Builder.Key: the source copies `len + 1` bytes from the argument, so that the terminator is whatever
  follows the text; a NUL at `str[len]` is assumed here.
- FlexBuilder.Builder.CreateVector: not for typed vectors of strings, which the source marks as deprecated.
- FlexBuilder.Builder.EndVector: not for typed vectors of strings.
- FlexRoundTrip.Serialize: when strings are shared, no two of the document agree up to the first NUL; what happens
  otherwise is shown by `FlexRoundTrip.ConfusedStrings`.
- FlexMutate.MutateInt: the new value is read back when the offset of an indirect number does not overlap the number, as
  is the case in all that the builder finishes (`FlexUpdate.UpdateInt`).
- `std::sort`, `std::set` and `std::bsearch` are modelled by what they promise: the sorted order is unique here
  (`FlexMap.SortIsForced`), the pools are sets in which at most one entry matches, and the search is a binary search.
- FlexBuffers sizes are bounded by `MAX_BYTES` and `MAX_VALUES`, far above any memory and below the wrap-around of
  64 bits; FlatBuffers sizes by `MAX_BUFFER_SIZE`, as the source asserts.
- Allocators, ownership of buffers, moving, swapping, `Release` and `DetachedBuffer`; big-endian machines.
- Vectors of structs, uninitialised vectors, sorted vectors and lookup by key, `CreateVectorOfStrings`.
- The generated code: schemas are values here, and a table is verified field by field in the order of the schema, as the
  generated `Verify` functions do (`lib-vs/include/flatbuffers/reflection_generated.h:133-140`). Unions, vectors of
  unions and structs with more than one scalar are not part of the verifier's schemas.
- FlatVerifier.Verifier.VerifyTable: without the checks of alignment the verifier itself may read a field's offset
  outside the buffer (`FlatVerifier.FieldOffsetsSafe`); the field then counts as absent here.
- FlatSafety.VerdictSound: for buffers with unsafe table starts there is no theorem, since the property is then false
  (`FlatSafety.SoundExactly`).
- FlatRoundTrip.Serialize: for documents whose weight stays below 2 GB, where the source asserts. The weight counts what
  the document takes with the largest padding, and every vtable and string as if it were not shared, so it can be
  more than the size.
- MiniTraversal.IterateVector: not for vectors of structs, which the builder's model does not write.
- MiniTraversal.IterateObject: names of fields and enum values are not reported; the loop over the fields of a struct
  and the loop over a vector are methods of their own (`IterateStruct`, `IterateVector`).
- `GetBufferStartFromRootPointer`, the 16-bit foldings of the hashes, the schema parser and the code generators.
- The robot code, the camera server and the other vendored headers of the repository.
