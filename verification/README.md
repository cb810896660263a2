# Ant, modelled and proved in Dafny

Ant is a JavaScript runtime written in C.  This project models the parts of it that keep
hard invariants and proves those invariants for every run.

- **Hidden classes** (`Shape*.dfy`).  Many shapes share one growing property array and one
  open-addressing index, each seeing a prefix; writes detach by copy, dead tails are
  reclaimed, deletes leave holes and tombstones; shapes form a reference-counted transition
  tree that is marked and swept.  Each shape is abstracted to its ordered list of
  properties.  `ShapeIndex`, `ShapeProps` and `ShapeRecord` are one table, one list and one
  record; `ShapeStore` and `Shapes` are all records and shapes together, and `ShapeRun`
  compares them with private lists over whole runs; `ShapeTree`, `ShapeEngine`,
  `ShapeWrites` and `ShapeGc` add references, transitions, in-place writes and collection;
  `ShapeBuild` builds objects, and `ShapeLife` runs whole lives of many objects with
  collections in between.
- **Strings** (`Utf16Scan`, `Utf16Positions`, `Utf16History`, `Utf16Meaning`,
  `Utf8Decoder`, `JsonQuote`).
  Strings are stored as UTF-8 or WTF-8 and indexed as UTF-16; a resume cache and a
  checkpoint index must agree with a plain scan.  The streaming decoder follows section
  8.1.1 of the WHATWG Encoding Standard, the validator section 4 of RFC 3629, and the
  quoter QuoteJSONString (section 25.5.2.3 of ECMA-262, 14th edition).
- **Cage allocator** (`Cage`).  Aligned first fit over one reservation.
- **Bundles** (`Bundle*.dfy`).  The file a program and its modules are appended to, its
  reader, and specifier resolution inside it.
- **Code arena** (`CodeArena`).  Bump allocation, interned text, marks and rewinds.
- **Watch mode** (`WatchGraph`, `WatchLoop`), **external handles** (`Handles`) and
  **coroutine lifetimes** (`Coroutines`).  Small protocols, proved over every order of
  events, every interleaving, and every nesting.

One law is false as the code stands: the transition tree's central law, that a recorded
child has its parent's list with one key added, does not hold in every run. There are two
ways to break it, each with a run that does and the exact condition that prevents it.

- `shape_add_tr` adds in place to a shape outside the trees even when it has recorded
  children (`src/shapes.c:505-506`). `ShapeEngine.StaleTransition` is such a run;
  `ShapeEngine.InPlaceExact` is the condition, and `AddTr` carries it.
- `js_obj_ensure_unique_shape` (`src/ant.c:378-388`) takes a shape for its object's own
  when neither the shape nor its record has a second user. The child of a shape with a
  hole has a record of its own (`src/shapes.c:485-486`), so the parent passes for its
  own and is then rewritten in place: an attribute, an accessor, a removal or a compaction.
  `ShapeWrites.StaleAfterRemove` is such a run; `ShapeWrites.WriteExact` is the condition
  for each of the four writes, and the operations carry it.

All other operations keep the law, collections and releases included.
`ShapeLife.RunSafe` shows that nothing goes wrong up to the first operation that fails its
condition, `ShapeLife.RunAny` what holds even after that, and `ShapeBuild.Build` that
objects built property by property from an empty object never meet the bad case.

A smaller promise fails on malformed strings only: `utf16_code_unit_at` answers with a
code unit unless the index is at an overlong four-byte character (`src/utf8.c:882`, where
the subtraction wraps); `CodeUnitAt` states exactly when and what it answers instead, and
`Utf16Positions.OverlongAnswer` is an example.

Conventions.  C objects that are updated in place are classes; records reached through
pointers live in maps from addresses to values inside the class, so aliasing is sharing an
address.  Failure of a system call or of an allocation is a parameter where the source
handles it.  Hash functions are arbitrary.

`dafny verify dfyconfig.toml` checks everything.

## Model

| member | source | states |
|---|---|---|
| ShapeIndex.Probe | src/shapes.c:184-196 | For every table with an empty cell the probe ends, and returns the cell that holds the key or nothing; no step bound is assumed. |
| ShapeIndex.SomeEmpty | src/shapes.c:184-196 | A table whose count of used cells (entries and tombstones) is below its size has an empty cell, which is why every probe ends. |
| ShapeIndex.MissIsAbsent | src/shapes.c:184-196 | A walk that meets an empty cell before the key proves the key is nowhere in the table. |
| ShapeIndex.Put | src/shapes.c:208-213 | An absent key goes to a free cell from which its own probe will find it; every other entry keeps its cell and stays reachable, entries grow by one and used cells by at most one. |
| ShapeIndex.PlaceOk | src/shapes.c:208-213 | Filling an empty or tombstone cell on a key's own walk keeps every key reachable. |
| ShapeIndex.TombOk | src/shapes.c:754-783 | Turning an entry into a tombstone keeps every other key reachable and removes exactly that key. |
| ShapeIndex.Capacity | src/shapes.c:215-219 | The new size is a power of two, at least the minimum, and more than twice the entries needed. |
| ShapeProps.Fill | src/shapes.c:234-245 | Indexing a list into an empty table makes lookups agree with the list, key by key. |
| ShapeProps.Rehash | src/shapes.c:248-272 | Rehashing into a larger table leaves a table without tombstones that agrees with the same list. |
| ShapeProps.CopiedAgrees | src/shapes.c:248-272 | Once every entry has been copied the new table says what the old one said, for every key. |
| ShapeProps.Trim | src/shapes.c:754-783 | Dropping holes at the end removes holes only and leaves a list that is empty or ends in a live property. |
| ShapeRecord.CompactAt | src/shapes.c:798-826 | Compaction puts every live property at the slot that counts the live ones before it: all of them, in their order. |
| ShapeRecord.Lookup | src/shapes.c:184-196 | The hashed lookup through the first `count` slots of a shared record equals linear search of those slots, though the index also knows the slots past them. |
| ShapeRecord.PrefixSlot | src/shapes.c:184-196 | A slot found in the whole record is the answer for a prefix exactly when it lies inside the prefix. |
| ShapeRecord.EnsureCapacity | src/shapes.c:284-307 | Growing keeps the list and the index, changes the byte total by exactly the storage added, and moves the array only when it grows. |
| ShapeRecord.IndexResize | src/shapes.c:248-272 | Resizing keeps the list, removes tombstones, accounts for the bytes and leaves room for the next entry. |
| ShapeRecord.Append | src/shapes.c:274-282 | Publishing one more property extends the list by exactly that property and keeps index and list in agreement, with or without a resize. |
| ShapeRecord.CopyPrefix | src/shapes.c:309-353 | A private copy of a prefix holds that prefix, indexed if the original was, with its own storage accounted for. |
| ShapeRecord.Truncate | src/shapes.c:221-246 | Rebuilding after reclaiming a dead tail leaves exactly the prefix, with an index that agrees with it. |
| ShapeRecord.RemoveAt | src/shapes.c:754-783 | Removing a live slot leaves the list with a hole there and its trailing holes gone, and an index that no longer knows the key. |
| ShapeRecord.CompactRecord | src/shapes.c:798-826 | The two-finger loop leaves the list Compact of the old one and every index entry pointing at its property's new slot. |
| ShapeRecord.WriteOk | src/shapes.c:834-858 | Rewriting a live slot under its own key keeps index and list in agreement. |
| ShapeStore.UnlinkOk | src/shapes.c:145-153 | Unlinking a shape from its record changes no other view; the record's count is still the length of its owner list; the record is freed with its last owner and only then. |
| ShapeStore.LinkFreshOk | src/shapes.c:134-143 | Linking a shape to a new record adds that shape's view and changes no other. |
| ShapeStore.LinkSharedOk | src/shapes.c:134-143 | Linking a second shape to a record adds a view of a prefix and changes no other. |
| ShapeStore.RewriteOk | src/shapes.c:155-161 | Replacing a record and refreshing the cached pointers of its owners leaves every other family of shapes alone. |
| ShapeStore.PublishOk | src/shapes.c:355-429 | Copy-on-write isolation, for any rewrite of a record that keeps its other owners' prefixes: the view of every other shape is unchanged. |
| ShapeStore.TotalPut | src/shapes.c:115-132 | The byte total of all records changes by exactly what one record gained or lost. |
| Shapes.ReclaimRecord | src/shapes.c:221-246 | The tail past the longest view is given up exactly when nobody sees it; what any owner sees is kept. |
| Shapes.Refresh | src/shapes.c:155-161 | After a record moves, the cached array pointers of all its owners are right again. |
| Shapes.Store.ReclaimTail | src/shapes.c:221-246 | No view of any shape changes. |
| Shapes.Store.Detach | src/shapes.c:355-361 | No view changes, and the shape ends up sole owner of a record as long as its view. |
| Shapes.Store.PrepareAppend | src/shapes.c:363-366 | No view changes, and the shape's view is then all its record holds, so an append cannot be seen by another shape; it moves to a record of its own exactly when another shape sees further. |
| Shapes.Store.PrepareWrite | src/shapes.c:368-376 | No view changes, and the shape then owns its record alone; it moves exactly when it did not before. |
| Shapes.Store.LookupKey | src/shapes.c:184-196 | In every reachable store, looking a key up in a shape is linear search of that shape's own list. |
| Shapes.Store.AddKey | src/shapes.c:378-429 | Only this shape's view changes, to the list with the key added (or its attributes rewritten); the slot is that of the key; a JIT guard on the old layout is invalidated when the layout of existing slots changed. |
| Shapes.Store.AppendKey | src/shapes.c:403-428 | The appending half of the same statement. |
| Shapes.Store.Mutate | src/shapes.c:834-840 | Only this shape's view changes, at one slot whose key stays. |
| Shapes.Store.SetAttrs | src/shapes.c:842-858 | Succeeds exactly when the key is present; only this shape's view changes. |
| Shapes.Store.RemoveSlot | src/shapes.c:754-783 | Succeeds exactly on a live slot; only this shape's view changes, to Remove of the old one; no other shape is then on its record. |
| Shapes.Store.CompactShape | src/shapes.c:798-826 | Only this shape's view changes, to its live properties in order; the result is their number. |
| Shapes.Store.NewShape | src/shapes.c:564-581 | A new shape with an empty view; no other view changes. |
| Shapes.Store.CloneReserve | src/shapes.c:587-604 | A new shape with the same view, sole owner of a new record; no other record and no other view changes. |
| Shapes.Store.CopyForTransition | src/shapes.c:483-496 | A new shape with the same view, on the same record exactly when that view is non-empty, has no hole and is the longest on it, and else on a new one; no other view changes. |
| Shapes.ChildShares | src/shapes.c:483-546 | A child made for a transition ends up on its parent's record exactly when the record could be shared and the child's list extends the parent's; if it could not be shared, the parent has its record as much to itself as before. |
| Shapes.Store.Drop | src/shapes.c:632-655 | Freeing a shape removes its view and changes no other; its record is gone exactly when no other shape was on it. |
| ShapeRun.Do | src/shapes.c:221-429 | One operation on shapes that share storage does to their views, and answers, what it does to private lists. |
| ShapeRun.RunAll | src/shapes.c:221-826 | Refinement over whole runs: any sequence of creations, clones, branches, additions, attribute writes, removals, compactions, reclaims and drops on shapes that share arrays and indexes gives the answers that private lists give, and leaves every live shape showing its own list; once all are dropped no record and no byte is left. |
| ShapeTree.RetainOk | src/shapes.c:627-630 | Retaining keeps the law: every reference count is outside holds plus parent edge plus root slot. |
| ShapeTree.RecordOk | src/shapes.c:444-461 | Recording a child keeps the law and links child and parent both ways under one key. |
| ShapeTree.CutOk | src/shapes.c:463-476 | Cutting an edge hands the parent's reference to whoever cut it and keeps the law. |
| ShapeTree.NoLeak | src/shapes.c:632-661 | Every live shape is anchored: it, or a shape above it along parent links, is held from outside or is a root, so nothing leaks. |
| ShapeTree.SurvivesIffAnchored | src/shapes.c:632-661 | Whatever frees shapes, a shape is still there exactly when a hold, a root or a shape still being freed anchors it. |
| ShapeEngine.Engine.Retain | src/shapes.c:627-630 | One more hold, one more reference, nothing else; recorded transitions are as right as before. |
| ShapeEngine.Engine.Release | src/shapes.c:657-661 | Frees exactly the shapes nothing anchors any more, however deep the chain of destruction, keeps the layouts and views of the rest, and keeps recorded transitions right. |
| ShapeEngine.Engine.Destroy | src/shapes.c:632-655 | The recursive destruction of a shape whose last reference is gone keeps every count right while it runs and frees exactly the shapes that nothing anchors but the one being destroyed. |
| ShapeEngine.Engine.NewRoot | src/shapes.c:564-581 | One empty root per in-object limit (clamped), created at most once as a new shape, and held by the caller; no other view changes. |
| ShapeEngine.Engine.Clone | src/shapes.c:587-604 | A shape outside every tree with the same view; recorded transitions stay right. |
| ShapeEngine.Engine.Record | src/shapes.c:444-461 | The new child is found under its key from then on; every other edge stays. |
| ShapeEngine.Engine.AddTr | src/shapes.c:498-546 | Whichever of the four ways is taken (recorded child, shared copy, independent clone, in place) the view is the old one with the key added and the slot is the same; the caller's hold moves; shapes outside a tree change in place and no others do; and recorded transitions stay right, for an in-place change exactly when InPlaceSafe. |
| ShapeEngine.Engine.Follow | src/shapes.c:508-520 | Taking a recorded transition changes no view and moves the caller's hold to the child. |
| ShapeEngine.Engine.AddShared | src/shapes.c:534-546 | The new child is recorded under its key, no other view changes, and it is on its parent's record exactly when that was free to grow and the child's list extends the parent's. |
| ShapeEngine.Engine.AddToClone | src/shapes.c:522-532 | Bulk shapes and full trees give an unrecorded independent shape with the same added view. |
| ShapeEngine.InPlaceExact | src/shapes.c:505-506 | Adding in place keeps every recorded transition right if and only if the addition leaves the view as it was or every recorded child is a transition on that same key. |
| ShapeEngine.StaleTransition | src/shapes.c:505-506 | A concrete run in which the condition fails: a shared clone records a child, is changed in place once unshared, and the recorded child then lacks the key added in place. |
| ShapeWrites.WrittenSteps | src/shapes.c:754-858 | For every list, write and recorded child: which children are still what adding their key to the rewritten list gives. Attributes: those on that key; a slot: those on its key while the accessors stay; a removal: those on its key when it is the last slot, alone trimmed and without accessors; a compaction that changes anything: none. |
| ShapeWrites.RemoveSteps | src/shapes.c:754-783 | Removing slot i and then adding a key gives what adding it before would exactly when it is the key of slot i, slot i is last, no hole before it is trimmed with it, and it has no accessors. |
| ShapeWrites.CompactSteps | src/shapes.c:798-826 | Compacting a list with holes shows through adding any key. |
| ShapeWrites.ChangeExact | src/shapes.c:435-546 | Any change of one shape's list keeps recorded transitions right if and only if the shape is outside the trees and every recorded child would still be made from the new list. |
| ShapeWrites.WriteExact | src/shapes.c:754-858 | Each of the four writes keeps recorded transitions right if and only if it changes nothing, or the shape is outside the trees and WriteSafe holds of its recorded children. |
| ShapeWrites.SetAttrsOf | src/shapes.c:842-858 | Setting attributes keeps the engine valid, changes this list only, and keeps transitions right if and only if nothing changes, or the shape is outside the trees and all its children are on that key. |
| ShapeWrites.MutateSlot | src/shapes.c:834-840 | The same for a slot: unchanged, or outside the trees and childless, or all children on its key and the accessors unchanged. |
| ShapeWrites.RemoveSlot | src/shapes.c:754-783 | The same for a removal: nothing removed, or outside the trees and childless, or all children on the key of the last slot, which is trimmed alone and has no accessors. |
| ShapeWrites.CompactSlots | src/shapes.c:798-826 | The same for compaction: no holes, or outside the trees and childless. |
| ShapeWrites.SharedExact | src/shapes.c:623-625 | A shape counts as shared exactly when it has a second reference or another shape is on its record; recorded children do not count. |
| ShapeWrites.EnsureUnique | src/ant.c:378-388 | The object ends up alone on a shape outside the trees that shares no record and has its old list: on its own shape exactly when that was not shared, else on a new childless clone; transitions stay right. |
| ShapeWrites.Change | src/ant.c:5573-5575 | An object's write keeps transitions right if and only if it moved to a clone, changed nothing, or WriteSafe held; its own list is rewritten and no other list changes. |
| ShapeWrites.StaleAfterRemove | src/shapes.c:483-486 | A concrete run in which WriteSafe fails: the child of a shape with a hole has its own record, so the shape counts as unshared, loses a key in place, and the next object to take the transition gets the key back. |
| ShapeEngine.AddAgain | src/shapes.c:378-429 | Adding a key twice is adding it once with the later attributes. |
| ShapeEngine.AddDiffers | src/shapes.c:378-429 | A change made by adding one key still shows after adding any other key; this is why InPlaceSafe cannot be weakened. |
| ShapeEngine.ViewIsTrail | src/shapes.c:435-546 | With right transitions, the list of every shape is the list of the top of its tree with the keys along its parent links added in turn. |
| ShapeEngine.TrailUnique | src/shapes.c:435-546 | Two shapes reached by equal additions from the same top are the same shape. |
| ShapeBuild.AddOne | src/shapes.c:498-546 | Adding to a shape that is in a tree, or has no recorded children, keeps transitions right and leads to such a shape again, so the condition of InPlaceExact never fails along the way. |
| ShapeBuild.Build | src/shapes.c:498-581 | The layout and slots of an object built property by property depend on the properties alone, whatever was shared, cloned or changed in place on the way and whatever other objects and collections did before that left transitions right. |
| ShapeLife.DoCollect | src/shapes.c:675-725 | A whole collection, with every object's shape marked, changes no object's list, keeps transitions right and leaves the engine ready for the next one. |
| ShapeLife.Do | src/ant.c:378-388 | One operation of an object, whatever state transitions are in: references and marks stay in order and no other object's list changes; with right transitions the object's list and the answer are those of a private list, and transitions stay right if and only if the operation's guard holds. |
| ShapeLife.RunSafe | src/shapes.c:435-725 | Refinement over whole runs of objects being made, shared, cloned, extended, rewritten, looked up and dropped with collections in between: up to the first operation whose guard fails, every answer and every layout are those of private lists. |
| ShapeLife.RunAny | src/shapes.c:435-725 | For every run at all, guards or no guards: reference counts are exactly the objects' holds, marks are ready for the next epoch, and after each operation every object it was not about has the list it had. |
| ShapeGc.Begin | src/shapes.c:675-678 | The epoch never is 0, and no non-root under a root carries the new epoch, even after the 16-bit counter wraps. |
| ShapeGc.Mark | src/shapes.c:680-684 | Stopping at the first ancestor already marked misses nothing: under the roots exactly the ancestors of the shape are newly marked, and marks stay closed under parent; recorded transitions stay right. |
| ShapeGc.Prune | src/shapes.c:690-716 | The recursive prune of one tree removes exactly its unmarked shapes, gives no survivor a recorded child or a key it did not have, and reports whether there was anything to remove. |
| ShapeGc.CutDead | src/shapes.c:690-716 | A dead child, whose own subtree has been pruned, is cut and released without touching any other tree. |
| ShapeGc.UnmarkedChildless | src/shapes.c:686-716 | Because marks are closed under parent, a dead child has no children left when it is cut. |
| ShapeGc.Sweep | src/shapes.c:718-725 | Afterwards the trees under the roots hold exactly the roots and the shapes marked this epoch, each with exactly its marked children under their old keys; recorded transitions stay right; the result says whether there was garbage; the engine is ready for the next epoch. |
| ShapeGc.SweptExact | src/shapes.c:718-725 | The same exactness as a statement about the forests before and after. |
| ShapeGc.ThinnedFaithful | src/shapes.c:686-725 | Losing shapes and recorded children, and nothing else, keeps the recorded transitions that are left right. |
| ShapeGc.GrownIdle | src/shapes.c:675-725 | Transitions, clones and new roots between collections keep marks ready for the next epoch. |
| ShapeGc.ShrunkIdle | src/shapes.c:675-725 | So do releases. |
| ShapeGc.KeptShrinks | src/shapes.c:632-661 | What a release leaves of a forest is one to which ShrunkIdle applies. |
| Utf16Scan.ResumeSeek | src/utf8.c:282-300 | A scan resumed from any boundary it passes ends where the scan from byte 0 ends. |
| Utf16Scan.ResumeFloor | src/utf8.c:725-749 | The same for the scan that stops at or before its target. |
| Utf16Scan.SeekStops | src/utf8.c:282-300 | A seek stops at the first boundary at or past the target, or at the end. |
| Utf16Scan.FloorStops | src/utf8.c:725-749 | A floor stops at the last boundary at or before the target. |
| Utf16Scan.SliceUnits | src/utf8.c:751-813 | The bytes between two boundaries encode exactly the code units between them. |
| Utf16Scan.WalkUnits | src/utf8.c:81-142 | A scanned prefix is a prefix of the UTF-16 string and has as many units as the scan counted. |
| Utf16Scan.Casts | src/utf8.c:849-855 | The surrogates as computed in 32-bit unsigned arithmetic are those of RFC 2781 once cast to 16 bits, for every value four bytes can spell. |
| Utf16Meaning.ScanMeans | src/utf8.c:81-142 | For every sequence of code points, lone surrogates included, scanning its encoding yields its UTF-16 form (section 2.1 of RFC 2781). |
| Utf16Meaning.ValidMeans | src/utf8.c:81-142 | Every valid UTF-8 string is complete for the scanner, and its scan is the UTF-16 form of its code points. |
| Utf16Positions.IndexBuild | src/utf8.c:181-217 | Checkpoint k is the scan's boundary at unit 64k or 64k-1, and the points never outgrow byte_len/64+2. |
| Utf16Positions.IndexSeek | src/utf8.c:252-265 | The cursor moves to a boundary at or before the target, never backwards, with at most 64 units left to scan (65 past the last checkpoint). |
| Utf16Positions.Scanner.Follows | src/utf8.c:27-79 | Whatever strings are written between calls, as long as a string's bytes change only with the epoch, both caches stay usable. |
| Utf16Positions.Scanner.ResumeUnit | src/utf8.c:35-62 | The resumed cursor is a boundary of the scan of this very string at or before the target. |
| Utf16Positions.Scanner.ResumeByte | src/utf8.c:64-72 | The same for a byte target. |
| Utf16Positions.Scanner.Store | src/utf8.c:74-79 | What is stored is a boundary of the string it is stored for. |
| Utf16Positions.Scanner.IndexGet | src/utf8.c:219-250 | An index is returned exactly for a string of indexable length that was asked for earlier in this epoch and not pushed out since, so the second request builds it; it is the index of this string; the request is remembered. |
| Utf16Positions.Scanner.ResumeIndexed | src/utf8.c:267-280 | Resuming by checkpoint gives a boundary at or before the target. |
| Utf16Positions.Scanner.IndexToByte | src/utf8.c:687-723 | For every call history the byte offset is the one a scan from byte 0 finds. |
| Utf16Positions.Scanner.IndexToByteFloor | src/utf8.c:725-749 | The same for the flooring variant. |
| Utf16Positions.Scanner.CodeUnitAt | src/utf8.c:859-895 | For every complete string, the code unit of the UTF-16 string at that index, both halves of a pair included, or 0xFFFFFFFF past its end; exactly at an overlong four-byte character, where the 32-bit subtraction wraps, 2^22 more. |
| Utf16Positions.OverlongAnswer | src/utf8.c:882 | A string for which the answer is no code unit: U+0000 spelled in four bytes gives 0x40D7C0. |
| Utf16Positions.PairedUnit | src/utf8.c:859-895 | In a string whose four-byte characters are all supplementary, as in valid UTF-8, the answer is the code unit. |
| Utf16Positions.Scanner.CodePointAt | src/utf8.c:982-1013 | At a boundary the code point of the character there; inside a pair its low half; 0xFFFFFFFF past the end. |
| Utf16Positions.Scanner.RangeToBytes | src/utf8.c:751-813 | The low half of a split first pair, the bytes, and the high half of a split last pair together encode exactly UTF16(s)[start..min(end, length)). |
| Utf16Positions.Scanner.ByteToUnit | src/utf8.c:815-835 | The number of code units of the characters that start before the byte offset. |
| Utf16Positions.ByteUnitRoundTrip | src/utf8.c:687-835 | At character boundaries byte and unit positions undo each other. |
| Utf16Positions.UnitCount | src/utf8.c:525-533 | The length of the UTF-16 string. |
| Utf16Positions.NextUnit | src/utf8.c:837-857 | Repeated calls yield the UTF-16 string unit by unit, and then report the end. |
| Utf16History.Ask | src/utf8.c:687-1013 | Any of the six queries, code points and ranges included, is answered as by a plain scan. |
| Utf16History.AskAll | src/utf8.c:27-300 | Over any history of the six queries, with the heap changing in between as the epoch allows, every reply is right for a scan from byte 0 of the string as it is then. |
| Utf8Decoder.ChunkInvariance | src/utf8.c:897-980 | For all a and b, decoding a+b equals streaming decode of a, then decode of what a held back followed by b, with the BOM flag threaded. |
| Utf8Decoder.SessionIsOneDecode | src/modules/textcodec.c:305-355 | However a text is cut into chunks, the session's output is that of one decode of the whole. |
| Utf8Decoder.FatalIffValid | src/utf8.c:897-980 | A fatal final decode succeeds exactly on valid UTF-8. |
| Utf8Decoder.OutputValid | src/utf8.c:897-980 | Non-fatal output is valid UTF-8 for every input. |
| Utf8Decoder.OutputFits | src/utf8.c:897-980 | Output is at most three bytes per input byte and at most three bytes are held back. |
| Utf8Decoder.ValidPassesThrough | src/utf8.c:897-980 | Valid input comes out as it went in, but for one leading byte order mark. |
| Utf8Decoder.CharIsEncoding | src/utf8.c:897-980 | Every character the decoder accepts is the shortest encoding of one scalar value. |
| Utf8Decoder.EncodingIsChar | src/utf8.c:897-980 | Every scalar value's encoding is accepted and read back, whatever follows. |
| Utf8Decoder.ValidIsEncoding | src/utf8.c:535-567 | A valid string is the encoding of its code points, all scalar values (section 4 of RFC 3629). |
| Utf8Decoder.EncodingIsValid | src/utf8.c:535-567 | And the encoding of any scalar values is valid and has them as its code points. |
| Utf8Decoder.Validate | src/utf8.c:535-567 | The validator accepts exactly the valid strings. |
| Utf8Decoder.Decoder.Run | src/utf8.c:897-980 | The loop with its lead-byte ranges, early stops and held-back bytes computes the decode of its input in one pass. |
| Utf8Decoder.ReadTail | src/utf8.c:897-980 | The continuation loop classifies a character as complete, wrong after so many bytes, or cut off. |
| Utf8Decoder.TextDecoder.DecodeChunk | src/modules/textcodec.c:305-355 | One call decodes the held-back bytes followed by the new ones and keeps what is held back for the next call. |
| Utf8Decoder.TextDecoder.DecodeAll | src/modules/textcodec.c:305-355 | A whole session of calls, however the bytes are split, gives the output or the failure of one decode of all of them, and leaves the decoder as new. |
| JsonQuote.Quote | src/utf8.c:376-447 | The quoting loop writes a quote, each item of the string as the function QuoteBody says, and a quote. |
| JsonQuote.QuoteOfEncoding | src/utf8.c:352-447 | Quoting the encoding of any code points is quoting the code points with adjacent surrogates joined. |
| JsonQuote.NoFalseLow | src/utf8.c:373-447 | Only a low surrogate is ever written as an escaped low surrogate, so an escaped high one is never joined to what follows by mistake. |
| JsonQuote.ReadLiteral | src/silver/lexer.c:69-103 | Reading a literal token undoes its escapes from left to right, as the function Unescape says. |
| JsonQuote.ReadOne | src/escape.c:40-101 | Reading one quoted code point gives back its encoding. |
| JsonQuote.QuoteRoundTrip | src/utf8.c:376-447 | For every string of code points in which no high surrogate is directly followed by a low one (canonical WTF-8), control characters and lone surrogates included, reading the quoted form gives the string back; for any other string it gives the string with its surrogates joined. |
| Cage.Canonical | src/cage.c:124-202 | Two sorted, disjoint, non-adjacent lists that cover the same bytes are the same list. |
| Cage.AlignUpExact | src/cage.c:79-85 | The least multiple at or above the value when one fits a size_t, failure otherwise. |
| Cage.FirstFit | src/cage.c:124-144 | The walk finds the lowest aligned address with enough free bytes anywhere in the cage, or proves there is none, also when it gives up early on overflow. |
| Cage.Carve | src/cage.c:146-163 | Each way of splitting a range leaves exactly what the block does not take; only a split in two needs a new node. |
| Cage.Relink | src/cage.c:179-201 | Extending, joining two neighbours or linking a node all leave the freed block merged with whatever it touches. |
| Cage.TakeOk | src/cage.c:146-163 | The list stays sorted, disjoint and non-adjacent, and covers its old bytes but the block's. |
| Cage.PutOk | src/cage.c:171-202 | The list stays sorted, disjoint and non-adjacent, and covers its old bytes and the block's. |
| Cage.Determined | src/cage.c:124-202 | The free list is determined by which blocks are out; no history shows in it. |
| Cage.Allocator.TakeLocked | src/cage.c:124-169 | Complete lowest-address aligned fit; the free list stays the complement of the blocks out, which stay disjoint. |
| Cage.Allocator.Position | src/cage.c:171-177 | The place before the first range that starts at or after the block. |
| Cage.Allocator.PutLocked | src/cage.c:171-202 | The block is free again and the list stays the complement; without memory for a node the block stays out. |
| Cage.Allocator.Take | src/cage.c:223-245 | Page rounding, alignment and a fresh disjoint block; a failed commit leaves the list exactly as it was; failure only for the reasons listed. |
| Cage.Allocator.Free | src/cage.c:255-267 | Exactly that block is free again; a zero size, an address outside the cage or a failed decommit changes nothing. |
| Cage.Allocator.TakeThenFree | src/cage.c:223-267 | Taking and freeing restores the list exactly, whatever was split and merged on the way. |
| Cage.Allocator.AllFreed | src/cage.c:171-202 | When every block has been freed, in whatever order, the list is the single range it started as. |
| Cage.Allocator.FreeAll | src/cage.c:171-202 | Freeing all blocks in any order restores the single initial range. |
| BundleBytes.Unpacked | src/vfs_bundle.c:20-58 | A packed record of fields that fit their widths is unpacked to the same fields. |
| BundleBytes.StringsAt | src/vfs_bundle.c:90-104 | Every string added to the table is found at the offset it was given. |
| BundleBytes.BlobAt | src/vfs_bundle.c:176-198 | Every blob is found at its offset with a zero byte after it. |
| BundleBytes.Padded | src/vfs_bundle.c:121-127 | The zeros always come from the eight-byte buffer. |
| BundleEdges.OrderChain | src/vfs_bundle.c:113-119 | The edge order is transitive. |
| BundleEdges.OrderTotal | src/vfs_bundle.c:113-119 | And antisymmetric in its three-way result. |
| BundleEdges.Sort | src/vfs_bundle.c:161-162 | A sorted permutation of the records. |
| BundleEdges.LowerBound | src/vfs_bundle.c:675-684 | Binary search finds the first edge not below the pair. |
| BundleEdges.FindEdge | src/vfs_bundle.c:675-694 | Lower bound and forward scan give what any scan of all edges would accept: a matching edge of the wanted kind if there is one, else one of the other kind, else nothing. |
| BundleFormat.PayloadLayout | src/vfs_bundle.c:164-198 | Header, module table, edge table, strings and data lie where the header says, and the size is the cursor's final value. |
| BundleFormat.PayloadAcceptable | src/vfs_bundle.c:316-361 | The payload of every legal build passes every check of the reader. |
| BundleFormat.OneModuleLegal | src/vfs_bundle.c:129-135 | A build of one module with any key and data is legal, after any prefix. |
| BundleFile.FindFooter | src/vfs_bundle.c:233-264 | The last position, within the last four megabytes, at which a valid footer stands; the end of the file is tried first. |
| BundleFile.ReadModules | src/vfs_bundle.c:335-355 | Accepts exactly when every module record passes its checks, and then reads each key and data. |
| BundleFile.ReadEdges | src/vfs_bundle.c:357-361 | Accepts exactly when every edge record passes its checks. |
| BundleFile.Open | src/vfs_bundle.c:266-366 | For any bytes at all: the meaning of the payload its last valid footer leads to, or the error that applies. |
| BundleFile.AddEdges | src/vfs_bundle.c:150-159 | Gives up exactly when an edge names a module that does not exist; otherwise table and records are complete. |
| BundleFile.WriteData | src/vfs_bundle.c:195-198 | The data section, each run of padding within the zero buffer. |
| BundleFile.Write | src/vfs_bundle.c:129-214 | Writes exactly when the build is linked up, and then the file is prefix, padding, payload with sorted edges, footer. |
| BundleFile.RoundTrip | src/vfs_bundle.c:129-366 | Opening what was written after any prefix gives back modules, data, flags and entry, and the edges as a sorted permutation, also with later bytes appended that hold no footer; the ABI check passes exactly for the string as stored (cut to 47 bytes). |
| BundleFile.WriteThenOpen | src/vfs_bundle.c:129-366 | Writing and then opening a legal build yields its modules, entry and ABI string, and its edges as a sorted permutation. |
| BundlePath.KeyUnderRoot | src/vfs_bundle.c:607-650 | From a module under /$ant/ no specifier leads above the root. |
| BundlePath.Cancels | src/vfs_bundle.c:607-650 | Entering a directory and leaving it again is no step at all. |
| BundlePath.NormaliseFits | src/vfs_bundle.c:607-650 | The path never outgrows the buffer. |
| BundlePath.NormaliseClean | src/vfs_bundle.c:607-650 | Nothing appended to the path is empty, "." or "..". |
| BundlePath.Up | src/vfs_bundle.c:628-631 | Walking back over bytes removes exactly the last directory. |
| BundlePath.Component | src/vfs_bundle.c:626-641 | One component changes the buffer as one step of the fold changes the list of directories. |
| BundlePath.RelativeKey | src/vfs_bundle.c:607-650 | The in-buffer normaliser succeeds exactly when the fold over components does, with its result, NUL-terminated inside the buffer. |
| BundleResolve.FindParent | src/vfs_bundle.c:589-605 | The module with that key, or else the one written to that path. |
| BundleResolve.Resolve | src/vfs_bundle.c:668-702 | The key of an edge that answers, else the normalised relative key if a module has it, else nothing. |
| BundleResolve.ResolvesAsBuilt | src/vfs_bundle.c:668-702 | In a bundle written and opened, resolving is a scan of the edges as the build listed them. |
| BundleResolve.OpenedSound | src/vfs_bundle.c:266-366 | What is opened from a written bundle meets everything resolving relies on. |
| CodeArena.Arena.Bump | src/runtime.c:95-121 | An aligned allocation of at least the size asked for, disjoint from every live one, whose bytes all stay. |
| CodeArena.Arena.Intern | src/runtime.c:170-199 | The text and its NUL at the address returned; the same address for the same text as long as it is interned; no other intern changes and every live allocation keeps its bytes. |
| CodeArena.Arena.Store | src/runtime.c:201-203 | A write by the owner of a bumped allocation changes that one byte to that value and no other byte of any live allocation, interned text included. |
| CodeArena.Arena.TakeMark | src/runtime.c:130-135 | The mark is remembered with the arena as it is now. |
| CodeArena.Arena.Prune | src/runtime.c:54-77 | Exactly the interns at or past the mark are dropped. |
| CodeArena.Arena.Rewind | src/runtime.c:213-247 | Live allocations, interns and the extents of all blocks are again what they were when the mark was taken; every allocation that is left keeps its bytes; earlier marks stay good. |
| CodeArena.Arena.RewindPlain | src/runtime.c:137-168 | The same for the parser's arena, where nothing is interned. |
| CodeArena.GrowOk | src/runtime.c:95-121 | Allocating at the end keeps every live allocation, intern and mark good. |
| CodeArena.InternOk | src/runtime.c:191-198 | Adding the newest text to the table keeps every mark good. |
| CodeArena.RewindOk | src/runtime.c:213-247 | Going back keeps the invariant and restores the extents of the mark. |
| CodeArena.GrowIntact | src/runtime.c:95-121 | Growing at the end keeps the bytes of every live allocation. |
| CodeArena.CutIntact | src/runtime.c:137-168 | Cutting back keeps the bytes of every allocation that is left. |
| CodeArena.MarkThenRewind | src/runtime.c:130-247 | Mark, then any run of allocations, interning, owners' writes and nested marks and rewinds, then back to the mark: the allocations, interns and extents are those of the mark, and each of those allocations has its old bytes with exactly its own owner's writes applied. |
| CodeArena.OwnerSilent | src/runtime.c:130-247 | Without a write by its owner in between, an allocation made before the mark has the bytes it had. |
| WatchGraph.BuildGraph | src/watch.c:559-571 | The list that grows while it is walked ends, without duplicates, with exactly the files reachable from the entry. |
| WatchGraph.Push | src/watch.c:196-224 | Appends a path unless it is there. |
| WatchGraph.ScanFile | src/watch.c:511-557 | One file's imports are added, all of them reachable. |
| WatchLoop.Watch.RefreshWatchers | src/watch.c:703-727 | Afterwards exactly the reachable files that can be watched are watched; fails exactly when the entry cannot be. |
| WatchLoop.Watch.RefreshStat | src/watch.c:591-618 | Changed exactly when what is on disk differs from what was last seen. |
| WatchLoop.Watch.RequestShutdown | src/watch.c:844-862 | Stop is requested once, with the first exit code; nothing is pending afterwards. |
| WatchLoop.Watch.SpawnChild | src/watch.c:771-798 | Spawns only when no child runs and stop is not requested. |
| WatchLoop.Watch.TrySpawn | src/watch.c:800-817 | Ends with a new child or with stop requested. |
| WatchLoop.Watch.RestartNow | src/watch.c:864-881 | Keeps the invariant between callbacks from any state inside one. |
| WatchLoop.Watch.OnFileEvent | src/watch.c:625-660 | An accepted change is never lost: debounce runs, a restart is pending, stop is requested, or a child was spawned since. |
| WatchLoop.Watch.OnDebounce | src/watch.c:883-887 | The same when the debounce timer fires. |
| WatchLoop.Watch.OnChildExit | src/watch.c:751-769 | The child that exited is gone; another starts only for a pending restart; the exit code is recorded only when nothing is pending. |
| WatchLoop.Watch.OnSignal | src/watch.c:889-892 | Stop is requested with 128 plus the signal. |
| WatchLoop.Watch.constructor | src/watch.c:894-980 | The invariant holds when the loop starts; a set-up that failed spawns nothing. |
| WatchLoop.Watch.Run | src/watch.c:625-892 | For every order of events and every answer of the system: at most one live child, no spawn after stop, a pending restart means a running child that has been asked to exit, and no accepted change newer than the last spawn is forgotten. |
| Handles.StepKeeps | src/handles.c:96-116 | Each atomic step of the interning thread and of every reader keeps the invariant. |
| Handles.RunInv | src/handles.c:197-248 | Hence every interleaving does. |
| Handles.InterningStable | src/handles.c:197-232 | In every run equal pointers get equal handles and different pointers different ones, never 0. |
| Handles.LookupExact | src/handles.c:234-248 | In every run a finished lookup gives the one pointer of its handle or nothing, and never nothing if the handle had been returned when the lookup began. |
| Handles.StoredForever | src/handles.c:96-116 | What a handle leads to never changes over the rest of a run. |
| Handles.LookupsAgree | src/handles.c:234-248 | Two lookups of one handle that find a pointer find the same one. |
| Handles.InternAgain | src/handles.c:197-209 | Interning a returned pointer again finds the handle it has and changes nothing. |
| Handles.InternNew | src/handles.c:211-232 | Interning a new pointer with memory and room binds the next handle to it and returns it. |
| Handles.RefusedIffFull | src/handles.c:96-101 | With memory to be had, a new pointer is refused exactly when all 4096 chunks are full, and then nothing changes. |
| Coroutines.LinkOk | src/sugar.c:86-91 | Activation puts the coroutine in front of a well-formed doubly linked chain. |
| Coroutines.ActivateExact | src/sugar.c:86-91 | The links activation writes form a chain headed by the coroutine if and only if it was not on the chain before, which the source does not look at. |
| Coroutines.UnlinkOk | src/sugar.c:96-103 | Unlinking from any position leaves a well-formed chain without it. |
| Coroutines.PutOk | src/sugar.c:32-60 | Any one record brought in order, or freed with its last reference, leaves all counts, holds and links in order. |
| Coroutines.Runtime.Activate | src/sugar.c:86-94 | A coroutine off the chain becomes the newest on it, and is held while there. |
| Coroutines.Runtime.Deactivate | src/sugar.c:96-105 | Off the chain, wherever it was; a coroutine off the chain is left alone. |
| Coroutines.Runtime.ClearAwait | src/sugar.c:72-84 | The await hold and its reference go together. |
| Coroutines.Runtime.Cancel | src/sugar.c:62-70 | Reports whether the coroutine was suspended, and clears its await. |
| Coroutines.Runtime.RetainExternal | src/sugar.c:32-35 | One more reference for one more retain. |
| Coroutines.Runtime.ReleaseExternal | src/sugar.c:43-48 | Freed exactly when no retain and no hold is left. |
| Coroutines.Runtime.ResumeIfSuspended | src/sugar.c:132-175 | Every path gives back the retains it took, whatever the resumed code and the settled promise do in turn; if those leave the chain as they found it, so does this. |
| Coroutines.Runtime.Settle | src/sugar.c:206-215 | The same for settling and resuming. |
| Coroutines.Runtime.RunAll | src/sugar.c:32-215 | Any nesting of operations keeps the chain well formed and every count equal to retains plus holds, so nothing on the chain or held is ever freed. |

## Left out

- Wrap-around of 32-bit reference counts, slot counts and sizes, and of 64-bit epochs: counters are unbounded; the 16-bit collection epoch and the size_t arithmetic of the cage are modelled with their width.
- Out-of-memory paths in shapes, strings and coroutines: allocation succeeds there; in the cage, the arena, the watcher and the handle table failure is modelled where the source handles it.
- Reuse of addresses: a freed shape, record or array never gets its address again in the model; in the code arena it may.
- Arrays as memory: property arrays and index tables of shapes are sequences inside records, and the cached array pointers of a shape are modelled as addresses that must match its record's.
- ShapeEngine.ChildKey: requires property keys with a free top byte, so that the exclusive or with the attributes can be written as an addition; keys are interned pointers and symbol offsets.
- ShapeEngine.Engine.Destroy: clears recorded children one by one in any order; the inline-cache epoch that the engine bumps is not modelled.
- ShapeRecord.CompactRecord: the slots past the new count, which the source clears, are not part of a record's list in the model.
- The entry pool, the in-object limit's use by objects, storage statistics and inspection accessors of shapes: they read the state above without changing it, or feed it from a free list, and no invariant depends on them.
- ShapeLife.RunSafe: stops before an operation whose guard fails; what the runtime then does is ShapeLife.RunAny's, and the layouts of later transitions from a stale shape are not predicted.
- Values of properties: only layouts and slots are modelled, not the value array of an object.
- Utf16Positions.Scanner.CodeUnitAt: requires a string whose last character is complete, as the runtime's own strings are; Utf16Meaning.ScanMeans shows that all encodings qualify.
- Utf16Positions.Scanner.RangeToBytes: the same requirement.
- Utf16Positions.NextUnit: the same requirement.
- Utf16Positions: string bytes change only together with the sweep epoch, and thread-local caches are those of one thread.
- Latin-1 conversion, WTF-8 export and the other encodings of TextDecoder (`src/utf8.c:449-510`, `src/utf8.c:569-685`, `src/modules/textcodec.c:187-299`).
- JsonQuote.ReadLiteral: outside strict mode, so octal escapes are decoded and not reported.
- utf8proc: replaced by the definition of UTF-8, surrogates encoded as three bytes.
- Cage.Allocator.PutLocked: a block for which no list node can be had stays out for good; the source leaks it in the same way.
- Cage.Allocator.Free: requires that an address inside the cage with its rounded size is a block that is out, which the source trusts its callers for; freeing anything else would put bytes in use on the free list.
- Reservation of the cage itself and its page protections (`src/cage.c:87-122`, `src/cage.c:204-221`): the constructor is given the base, the size and the page size.
- BundleFile.Write: requires a string table below 4 GiB and a file below 2^63 bytes, because offsets are cut to 32 bits without a check; failing writes to the file are not modelled.
- BundleEdges.Sort: the order among edges that compare equal is that of this sort; nothing proved depends on it.
- Bundle records are little-endian, as on the supported hosts; materialising a bundle to disk and closing it are not modelled.
- CodeArena.Arena.Store: the owner of interned text does not write to it; the source hands it out as constant.
- CodeArena.Arena.Intern: hashing of the intern table is not modelled; the table is a map from texts.
- Memory statistics and full resets of the arenas (`src/runtime.c:123-128`, `src/runtime.c:265-287`).
- Lexing of JavaScript imports and path resolution for the watcher (`src/watch.c:226-509`): the imports of each file are given.
- WatchLoop.Watch.Run: events reach a callback only while its handle is active, as libuv guarantees; closing of handles and printing are not modelled.
- Handles: memory accesses interleave one at a time; acquire and release order is what makes that sound on the hosts and is not modelled. C function metadata (`src/handles.c:74-94`, `src/handles.c:118-195`) is not modelled.
- Coroutines.Runtime.Activate: requires a coroutine that is off the chain, which the source does not look at; Coroutines.ActivateExact shows that from on the chain no chain comes out.
- Coroutines.Runtime.ResumeIfSuspended: requires that a suspended coroutine is not on the chain when it is resumed, which the interpreter guarantees by unlinking it first; generators link themselves in `src/modules/generator.c`, which is not part of this model.
- Coroutines.Runtime.Settle: the same requirement.
- Coroutines: module evaluation contexts, promises and the garbage collector's list of remembered coroutines.
- The interpreter, the JIT compiler, the garbage collector outside shapes, and the JavaScript library.
