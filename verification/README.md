# Verified model of redis-counter

redis-counter is a small counter database built from parts of Redis 5: a dictionary that is
rehashed one bucket at a time, dynamic strings with five header layouts, a doubly linked list,
SipHash, and a server that tokenizes command lines and runs `set`, `incr` and `get`.

This project models these parts in Dafny and proves what they promise:

- **Words, Cursors** – the bit reversal of `dictScan` on 64-bit words, and the order of
  bit-reversed words in which a bucket of any power-of-two table is one interval.
- **DictModel, DictRuns, DictClass** – the two-table dictionary. `DictModel` holds each operation
  as a function from state to state with the lemmas about it; the class `Dict` has the bucket
  arrays and counters of the C struct, updated in place, and each of its methods is proved to be
  the corresponding function. `DictRuns` proves, over whole runs, that the tables answer as one
  finite map, and the load-factor bound.
- **DictPolicy** – when and how far tables grow, how much a call moves, where entries are put.
- **DictScan** – the stateless scan: coverage and progress over runs in which the dictionary
  changes freely between calls, and what a single call emits.
- **DictIterator, IteratorOrder** – safe iterators, with calls on the dictionary between two
  `dictNext`, and the order of an iteration.
- **SdsBuffer, SdsFormat, SdsNumbers** – the sds object, its header types, the format
  interpreter and the in-place digit writers.
- **SdsArgs, SdsLaws, SdsSplit** – the quoting printer and its tokenizer, as code and as laws
  about particular bytes; split and join.
- **Wire, WireExact, WireLengths, Database** – the client's encoding, the server's reading of it,
  the reading its lengths are meant for, and runs of commands from typed lines to replies.
- **AdList** – the linked list on the heap.
- **EightBlocks, SipHash, SipVectors** – the block loop with its fall-through tail, the two
  hashes, and two published values of the function.

`dafny verify dfyconfig.toml` checks everything.

Where the code and its comments disagree, the model follows the code:

- The comment at `src/db.c:138-140` calls the output of `clientBuf` binary safe. The server
  reads it with the line tokenizer, so it is not; `WireExact.WireExactly` says exactly which
  argument vectors come through. A reader that went by the lengths would get back any vector
  (`WireLengths.LengthsRoundTrip`).
- `sdstrim` also trims NUL bytes, because `strchr` finds the terminator of the set, and
  `sdsrange` clamps an end far before the start to index 0, so it keeps one character.
- For the 5-bit header the asserts of `sdsIncrLen` refuse a change by 0, which the other headers
  accept. Their casts to `unsigned int` let other changes pass by what is left after dropping
  multiples of 2^32: a cut by 2^32 counts as none. `SdsBuffer.IncrAssertedMeans` and
  `SdsBuffer.IncrSeenWhole` say when exactly they pass, and when they mean what they should.
- `dictResize` narrows `used` to an `int`. From 2^31 entries on it never resizes.
- `set` stores under the whole key token, while `get` looks up the part of it before a NUL.
- Splitting does not always undo joining, even for tokens that do not hold the separator.
  `SdsSplit.SplitJoin` gives the exact condition for any tokens and any separator. A single empty
  token is always lost; by `SdsSplit.SafeSeparators` nothing else is, exactly for the separators
  of which no proper beginning is also the end: a single byte or a line end, but not "aa".

## Model

| member | source | states |
|---|---|---|
| Words.Rev | src/dict.c:738-746 | the halving-mask loop moves bit i of a 64-bit word to bit 63 - i, for every word |
| Words.ReverseInvolution | src/dict.c:738-746 | reversing twice is the identity |
| Words.MaskIsRemainder | src/dict.c:967 | for a mask of k ones, `hash & sizemask` is the hash modulo 2^k |
| Cursors.AdvanceRank | src/dict.c:857-864 | "set unmasked bits, reverse, increment, reverse" moves the reversed cursor to the next multiple of 2^(64-k), or to 0 after the last |
| Cursors.AdvanceProgress | src/dict.c:857-864 | unless it wraps to 0 the reversed cursor strictly grows |
| Cursors.AdvanceCovers | src/dict.c:842-864 | every hash whose reversal lies between the cursor and its successor falls in the cursor's bucket |
| Cursors.AdvanceCursor | src/dict.c:859-864 | the four statements compute the successor the lemmas speak of |
| Cursors.ExpansionStep | src/dict.c:888-907 | one turn of the do-while either ends with the small table's successor or stays in the same small bucket with a greater reversed cursor |
| Cursors.ExpansionsCover | src/dict.c:888-907 | the buckets visited in the larger table cover the whole interval of the small bucket |
| Cursors.AdvanceAligned | src/dict.c:901-904 | every returned cursor, whatever table size up to 2^K gave it, is a multiple of 2^(64-K) in reversed order |
| DictModel.MoreToMove | src/dict.c:189-191 | while the old table has entries some bucket at or after rehashidx is non-empty: the assert holds and the skip loop stays in range |
| DictModel.MoveChainOk | src/dict.c:198-209 | moving a chain entry by entry puts every key in the bucket of its hash, loses and duplicates none |
| DictModel.MoveBucketOk | src/dict.c:196-211 | moving a bucket keeps placement, key uniqueness, used counts and the map |
| DictModel.TurnOk | src/dict.c:186-212 | a turn of the loop advances the index and keeps the invariant and the map; if it runs out of visits there is more to move |
| DictModel.TurnPasses | src/dict.c:192-195 | a turn spends exactly one visit for each empty bucket it passes, and moves one bucket unless the visits run out |
| DictModel.RehashOk | src/dict.c:182-225 | dictRehash(n) keeps the invariant and the map, returns 1 exactly if rehashing is still on, and then has advanced if n > 0 |
| DictModel.RehashVisits | src/dict.c:182-225 | up to the state in which the loop of dictRehash(n) stops, finishing the rehash or not, at most n buckets are moved and at most 10n empty ones passed, and it stops before the old table is empty only when one of the limits is reached |
| DictModel.RehashFinishes | src/dict.c:182-225 | as many single steps as buckets are left end the rehashing, with the map unchanged |
| DictModel.NextPowerOk | src/dict.c:938-948 | the result is a power of two from 4 on and the least that holds the size, up to the LONG_MAX cap |
| DictModel.ExpandOk | src/dict.c:141-171 | an expansion, taken or refused, keeps the invariant and the map |
| DictModel.ResizeOk | src/dict.c:129-138 | a resize keeps the map, and takes place if and only if resizing is allowed, no rehash is on, used is below 2^31 and the least fitting size differs from the current one |
| DictModel.ExpandIfNeededOk | src/dict.c:916-935 | below the overflow limit the expansion an insertion triggers never fails and leaves a table to insert into |
| DictModel.AddFailsOnDuplicateOnly | src/dict.c:286-312 | barring overflow an add fails if and only if the key is already present |
| DictModel.EmptyHasNoKeys | src/dict.c:475 | with both used counters 0 no key is stored, so the early return of a lookup is right |
| DictModel.InsertOk | src/dict.c:300-311 | the new entry at the head of its bucket adds exactly its key to the map |
| DictModel.AssignOk | src/dict.c:336-338 | overwriting a value changes exactly that key |
| DictModel.UnlinkOk | src/dict.c:372-386 | unlinking removes exactly that key, from the table that holds it |
| DictModel.PointsToMeans | src/dict.c:478-485 | reading and writing through an entry found by the two-table walk is reading and assigning the key |
| DictRuns.AddRefines | src/dict.c:259-266 | dictAdd is insert-if-absent on the map, with the same answer |
| DictRuns.ReplaceRefines | src/dict.c:319-340 | dictReplace is map update, and tells whether the key was new |
| DictRuns.DeleteRefines | src/dict.c:358-393 | dictDelete and dictUnlink are map removal, and return the removed value |
| DictRuns.FindRefines | src/dict.c:470-496 | dictFind and dictFetchValue answer as the map and leave it unchanged, hidden rehash step included |
| DictRuns.ApplyRefines | src/dict.c:129-496 | any single call answers as the map does and leaves a well-formed state standing for the new map |
| DictRuns.MapRefinement | src/dict.c:129-496 | in every run of calls all answers and the final contents are those of one finite map |
| DictRuns.ApplyLoaded | src/dict.c:916-935 | every add, replace, find and delete keeps, with resizing enabled: total <= N at rest, total <= N + 1 + rehashidx with a target of 2N while growing; with resizing switched at will the same with 6N for N and a target of at least 2N |
| DictRuns.LoadFactor | src/dict.c:186-225 | over every such run total entries never exceed the size of the insertion target, or six times that size if resizing is not always enabled |
| DictRuns.LoadFactorFromEmpty | src/dict.c:286-312 | the same for every run that starts from the empty dictionary |
| DictRuns.ForcedAt | src/dict.c:928-933 | the quotient test of the forced expansion passes exactly from six entries per bucket on |
| DictPolicy.ExpandMeans | src/dict.c:141-171 | an expansion is refused exactly while rehashing, for a size below the entries, or where the table has the least fitting size; otherwise insertions go to a table of that size |
| DictPolicy.FirstTable | src/dict.c:922 | the first insertion makes four buckets |
| DictPolicy.GrowsExactly | src/dict.c:916-935 | an insertion makes a table grow exactly from one entry per bucket on if resizing is enabled, from six on in any case, and to the least power of two for twice the entries |
| DictPolicy.StepMovesOne | src/dict.c:254-256 | the step hidden in a call moves at most one bucket past at most ten empty ones, and less only where nothing is left |
| DictPolicy.CallsAdvance | src/dict.c:286-489 | every add, replace, find and delete on a dictionary with entries and no iterator drives the rehash on |
| DictPolicy.InsertsOnTop | src/dict.c:300-307 | a new entry comes first in its chain, in the new table while rehashing; all other chains stay |
| DictPolicy.MovesInReverse | src/dict.c:198-209 | the entries moved come on top of the chains of their hashes, the last one first |
| DictClass.NextPowerOf | src/dict.c:938-948 | the doubling loop computes the power NextPowerOk characterizes |
| DictClass.WalkChain | src/dict.c:970-976 | finds the first entry of a key in a chain, if and only if there is one |
| DictClass.Dict.constructor | src/dict.c:96-125 | a new dictionary is the empty one |
| DictClass.Dict.ExpandTo | src/dict.c:141-171 | refines the Expand of DictModel in place, refusals included |
| DictClass.Dict.ResizeToFit | src/dict.c:129-138 | refines Resize, with the narrowing to int |
| DictClass.Dict.MoveCurrentBucket | src/dict.c:196-211 | the inner loop on the bucket arrays refines MoveBucket |
| DictClass.Dict.SkipEmptyBuckets | src/dict.c:192-195 | the empty-bucket loop stops at a non-empty bucket or when the visits are used up, and never leaves the table |
| DictClass.Dict.RehashTurns | src/dict.c:186-212 | the loop on the arrays stops in exactly the state for which RehashVisits bounds the work |
| DictClass.Dict.RehashSteps | src/dict.c:182-225 | the nested loops refine Rehash, return value included |
| DictClass.Dict.RehashStep | src/dict.c:254-256 | one step unless an iterator is open |
| DictClass.Dict.ExpandAsNeeded | src/dict.c:916-935 | refines ExpandIfNeeded |
| DictClass.Dict.Search | src/dict.c:478-487 | the walk over one or two tables finds the key if and only if it is stored, and points to its entry |
| DictClass.Dict.AddRaw | src/dict.c:286-312 | refines Add; if nothing was added, `existing` points to the entry in the way, or an expansion overflowed |
| DictClass.Dict.ReplaceEntry | src/dict.c:319-340 | refines Replace; the entry to overwrite always exists |
| DictClass.Dict.FindEntry | src/dict.c:470-489 | a found pointer is to the key's entry after the rehash step |
| DictClass.Dict.FetchValue | src/dict.c:491-496 | refines Find |
| DictClass.Dict.GenericDelete | src/dict.c:358-393 | refines Delete |
| DictScan.ScanExpansions | src/dict.c:888-907 | the do-while emits exactly the buckets of the expansions and ends with the small table's successor |
| DictScan.Scan | src/dict.c:832-911 | a call emits the buckets, and returns the cursor, that the lemmas below reason about |
| DictScan.CallCovers | src/dict.c:842-910 | a call emits every stored key ranked between the cursor and its successor, in whichever table it is |
| DictScan.CallEmitsStored | src/dict.c:842-910 | in any state a call emits stored entries only, with their values |
| DictScan.CallEmitsOnce | src/dict.c:842-910 | in any state a call emits no entry twice, from whichever table |
| DictScan.CallEmitsLocal | src/dict.c:842-910 | in any state a call emits only entries whose hash agrees with the cursor on the smaller mask |
| DictScan.CoveredSoFar | src/dict.c:757-830 | every key stored at each call so far and below the cursor in reversed order has been emitted |
| DictScan.ScanCoverage | src/dict.c:757-830 | a scan from 0 back to 0 emits every key stored at all its calls, whatever states the dictionary is in |
| DictScan.ScanCoverageOfRuns | src/dict.c:757-830 | the same with any batches of adds, replaces, deletes, finds, expansions, shrinks, rehash steps and iterators between the calls |
| DictScan.CallProgress | src/dict.c:857-907 | a call that does not return 0 strictly increases the reversed cursor |
| DictScan.ScanEnds | src/dict.c:793-830 | if the smaller table never exceeds 2^K buckets, fewer than 2^K calls in a row return a non-zero cursor |
| DictScan.RestingScanLength | src/dict.c:842-864 | on an unchanging, non-rehashing, non-empty dictionary a scan takes exactly `size` calls |
| DictScan.RestingScanVisits | src/dict.c:842-864 | these calls visit every bucket, none twice |
| DictScan.RestingScanEmits | src/dict.c:842-864 | together they hand over every stored entry exactly once, and nothing else |
| DictIterator.NextOk | src/dict.c:556-589 | dictNext returns one key still ahead and takes exactly it from those ahead, or null if and only if none is |
| DictIterator.CallKeepsAhead | src/dict.c:254-256 | while a safe iterator is open a call moves no key other than its own, expansions included |
| DictIterator.PlayExact | src/dict.c:549-600 | from any point of an iteration on, no key comes twice and null comes only after all that were present throughout |
| DictIterator.SafeIteration | src/dict.c:549-600 | the same for whole iterations, with any tolerated calls in between |
| DictIterator.SafeIterationEnds | src/dict.c:556-589 | among more dictNext calls than there were keys at the start and adds and replaces since, one returns null, and then all present throughout were returned and none twice |
| IteratorOrder.NextInOrder | src/dict.c:556-589 | dictNext returns the first key of what is still to come, in the order of buckets and chains, and leaves the rest |
| IteratorOrder.StartsWithAll | src/dict.c:536-547 | at the start that is all of the old table and then all of the new one |
| DictIterator.SafeIterator.Next | src/dict.c:556-589 | the loop with its field updates refines NextFrom and registers the iterator at its first call |
| DictIterator.SafeIterator.Turn | src/dict.c:558-586 | a turn of the loop arrives at an entry, ends, or comes closer to the end of the tables |
| DictIterator.SafeIterator.Release | src/dict.c:591-600 | unregisters the iterator unless it never started |
| SdsArgs.CatRepr | src/sds.c:877-900 | appends the quoted representation of the bytes, which the next four rows fix |
| SdsLaws.PrintsVerbatim | src/sds.c:891-892 | bytes from space to '~' but quote and backslash are printed as they are, between double quotes |
| SdsLaws.PrintsNamed | src/sds.c:880-889 | the seven bytes with two-byte escapes of their own |
| SdsLaws.PrintsHex | src/sds.c:893-894 | any other byte is printed as \x and two lower-case hexadecimal digits |
| SdsLaws.PrintsPrintable | src/sds.c:877-900 | everything printed lies between space and '~' |
| SdsArgs.ReadEscaped | src/sds.c:969-1003 | inside double quotes the escaped text of any bytes reads back as these bytes |
| SdsArgs.InQuotes | src/sds.c:969-1003 | one turn in double quotes: hex escapes, letter escapes, the closing quote, its error cases |
| SdsArgs.InSingleQuotes | src/sds.c:1004-1018 | one turn in single quotes, with its error cases |
| SdsArgs.ReadToken | src/sds.c:961-1045 | the character loop reads exactly one token of Split, or fails as it does |
| SdsArgs.SplitArgs | src/sds.c:952-1060 | the tokenizer with its index and flags computes the recursive reading Split, failures included |
| SdsLaws.ReadsWord | src/sds.c:1020-1036 | an unquoted word ends at space, tab, line feed or carriage return, which is consumed |
| SdsLaws.ReadsLastWord | src/sds.c:1025-1027 | or at the end of the line |
| SdsLaws.SkipsBlank | src/sds.c:960 | the six blanks of the C locale are skipped in front of a token |
| SdsLaws.ReadsLine | src/sds.c:952-1051 | a line of words between spaces, with a line feed at its end, gives these words |
| SdsLaws.OpensQuote | src/sds.c:1028-1033 | a quote inside a word opens a quoted part of the same token |
| SdsLaws.Closes | src/sds.c:993-1012 | a closing quote ends the token before NUL, the end or one of the six blanks, and is an error before anything else |
| SdsLaws.Unclosed | src/sds.c:998-1015 | a line that ends inside quotes is an error |
| SdsLaws.ReadsQuoted | src/sds.c:1001-1017 | in quotes every byte but NUL, backslash and the quote stands for itself |
| SdsLaws.ReadsBackslash | src/sds.c:1005-1017 | in single quotes a backslash is special before a single quote only |
| SdsLaws.ReadsSingle | src/sds.c:1004-1018 | in single quotes, with \' for the quote, any bytes but NUL and backslash read back |
| SdsLaws.ReadsEscape | src/sds.c:980-992 | in double quotes the five named escapes, and any other escaped byte for itself |
| SdsLaws.ReadsHex | src/sds.c:970-979 | \x and two hexadecimal digits of either case give their byte |
| SdsLaws.ReadsPlainX | src/sds.c:980-992 | \x without two hexadecimal digits gives x |
| SdsArgs.ReprRoundTrip | src/sds.c:877-900 | for every list of byte strings, tokenizing their representations joined by blanks gives back the list |
| SdsNumbers.WriteLowFirst | src/sds.c:454-459 | the do-while writes the digits, lowest first |
| SdsNumbers.ReverseRange | src/sds.c:466-474 | the swap loop reverses the written bytes in place |
| SdsNumbers.LowFirstBackwards | src/sds.c:452-474 | the reversed digits are the decimal numeral |
| SdsNumbers.Ll2Str | src/sds.c:447-476 | the buffer holds the canonical decimal and a NUL within 21 bytes |
| SdsNumbers.Ull2Str | src/sds.c:479-505 | the same for unsigned values |
| SdsNumbers.AtolDecimal | src/db.c:107 | the decimal of any integer, followed by no digit, parses back to it |
| SdsNumbers.DecimalMeans | src/sds.c:447-476 | the decimal of a number is the sequence of digits that stands for it without a leading zero, behind '-' if it is negative |
| SdsNumbers.AtolReads | src/db.c:107 | of any text atol reads the number of the digits behind blanks and an optional sign, and 0 if there are none |
| SdsNumbers.LeadingZero | src/db.c:107 | leading zeros change nothing |
| SdsBuffer.ReqType | src/sds.c:61-75 | the least header type whose length field holds the size |
| SdsBuffer.HeaderSizes | src/sds.c:61-75 | the sizes each of the five headers is for |
| SdsBuffer.Sds.SetLen | src/include/sds.h:134-156 | the length field holds what its width can, other fields unchanged |
| SdsBuffer.Sds.IncLen | src/include/sds.h:158-181 | the length grows, modulo the width of its field |
| SdsBuffer.Sds.SetAlloc | src/include/sds.h:201-220 | the allocation field holds what its width can; the 5-bit header has none |
| SdsBuffer.Sds.constructor | src/sds.c:90-146 | a valid string of the given length: the bytes given, zero bytes for NULL, any bytes for SDS_NOINIT; the header is the least for it, but never the 5-bit one for an empty string |
| SdsBuffer.Sds.MakeRoomFor | src/sds.c:205-248 | at least addlen bytes are available afterwards, by doubling the new length below 1 MB and adding 1 MB above, under the least header from 8 bits on; bytes and length are kept across header changes |
| SdsBuffer.Sds.RemoveFreeSpace | src/sds.c:256-287 | content kept, no byte available |
| SdsBuffer.Sds.IncrLen | src/sds.c:330-369 | what passes the asserts changes the length by incr as they see it, earlier bytes kept, terminated |
| SdsBuffer.IncrAssertedMeans | src/sds.c:334-364 | for every incr the asserts pass exactly when incr as the casts leave it yields a length within the allocation; for the 5-bit header, within 31 and incr not 0 |
| SdsBuffer.IncrSeenWhole | src/sds.c:334-364 | the casts leave incr as it is exactly for 64-bit headers, for changes below 2^32, and for extensions of all but 32-bit headers |
| SdsBuffer.Sds.GrowZero | src/sds.c:376-387 | content is followed by zero bytes up to the length |
| SdsBuffer.Sds.CatLen | src/sds.c:394-403 | content is the concatenation |
| SdsBuffer.Sds.CpyLen | src/sds.c:423-432 | content is the copied bytes |
| SdsBuffer.Sds.UpdateLen | src/sds.c:185-188 | content is cut at its first NUL |
| SdsBuffer.Sds.Clear | src/sds.c:194-197 | content is empty; the allocation stays where the header has a field for it |
| SdsBuffer.Sds.Trim | src/sds.c:701-714 | content is the trimmed string |
| SdsBuffer.TrimmedIsTheCut | src/sds.c:701-714 | any cut that leaves both ends outside the set and drops only bytes of the set, NUL included, is the trimmed string |
| SdsBuffer.TrimmedAway | src/sds.c:701-714 | a string with no byte outside the set becomes empty |
| SdsBuffer.Sds.Range | src/sds.c:732-758 | content is the part from start to end, both included, negative indices from the end |
| SdsBuffer.RangeMeans | src/sds.c:732-758 | which bytes a range keeps, for indices inside, past and before the string |
| SdsBuffer.RangeClampsEnd | src/sds.c:738-741 | an end before the start of the string keeps its first character |
| SdsFormat.PlainFormat | src/sds.c:673-676 | text without a percent sign stands for itself |
| SdsFormat.Conversion | src/sds.c:622-666 | the six conversions stand for a text or the decimal of a number, in the order of the arguments |
| SdsFormat.Escaped | src/sds.c:667-670 | a percent sign before any other byte stands for that byte |
| SdsFormat.AppendArg | src/sds.c:622-666 | a conversion appends exactly the text of its argument, growing the buffer when it has to |
| SdsFormat.WriteOne | src/sds.c:667-676 | a single byte is stored without a check for room, inside the allocation because one byte is available |
| SdsFormat.RoomForOne | src/sds.c:612-615 | the check at the top of a turn makes that byte available, bytes and length kept |
| SdsFormat.FormatOne | src/sds.c:606-679 | one turn appends exactly what its piece of the format stands for, and leaves the write index equal to the length |
| SdsFormat.CatFmt | src/sds.c:597-685 | appends the expansion of the format; at every turn the write index is the length and the length is within the allocation |
| SdsSplit.SplitLen | src/sds.c:813-861 | the loop over a doubling slot array computes the recursive split, all writes inside the array |
| SdsSplit.JoinSds | src/sds.c:1099-1108 | the loop computes the join |
| SdsSplit.JoinConcat | src/sds.c:1099-1108 | a join puts the separator between the tokens and nowhere else |
| SdsSplit.JoinSplit | src/sds.c:813-861 | joining the tokens of a string rebuilds it |
| SdsSplit.SplitFree | src/sds.c:827-849 | no token contains the separator |
| SdsSplit.SplitJoin | src/sds.c:1099-1108 | for all tokens and separators, splitting the join gives the tokens back if and only if they are not one empty token, in each token but the last joined with the separator no match begins before its end, and the last holds none |
| SdsSplit.SafeSeparators | src/sds.c:827-849 | splitting the join gives back every list of tokens free of the separator, other than one empty token, if and only if no proper beginning of the separator is also its end |
| SdsSplit.BorderedFails | src/sds.c:827-849 | otherwise the separator without that end, followed by an empty token, does not come back |
| SdsSplit.CommonSeparators | src/sds.c:827-849 | single bytes and the line end have no such beginning |
| SdsSplit.LongSeparatorsOverlap | src/sds.c:827-849 | an instance: the tokens "a" and "" joined by "aa" come back as "" and "a" |
| EightBlocks.ForBlocks | src/siphash.c:135-142 | the loop over whole blocks absorbs exactly the whole blocks |
| EightBlocks.FallThroughAll | src/siphash.c:144-153 | entering the fall-through switch at label n combines bytes n-1 down to 0 |
| EightBlocks.FoldPadded | src/siphash.c:127-153 | whole blocks and then the filled tail are the blocks of the padded message |
| SipHash.TailIsPadding | src/siphash.c:129-153 | the tail word is the little-endian last block of the padded message with the length in its top byte |
| SipHash.SipHashOf | src/siphash.c:115-172 | equals SipHash-c-d defined on the padded message, for one and two rounds and every length |
| SipVectors.EmptyVector | src/siphash.c:240 | with two and four rounds that definition gives the first listed value, for the empty message |
| SipVectors.FifteenVector | src/siphash.c:255 | and the value for fifteen bytes, with a whole block, a tail and the length |
| SipHash.SipHashNoCase | src/siphash.c:174-232 | equals the hash of the lower-cased message, for every length |
| SipHash.LoweredMeans | src/siphash.c:50-56 | folding makes two strings equal if and only if they agree byte by byte up to the case of ASCII letters |
| SipHash.NoCaseHash | src/siphash.c:174-232 | strings that agree byte by byte up to the case of ASCII letters hash alike, and like the plain hash of one without upper case |
| AdList.List.AddNodeHead | src/adlist.c:88-106 | the new node comes first; links in both directions, ends and length stay right |
| AdList.List.AddNodeTail | src/adlist.c:114-132 | the new node comes last |
| AdList.List.InsertNode | src/adlist.c:134-161 | the new node stands right before or after the given one |
| AdList.List.DelNode | src/adlist.c:167-180 | exactly that node is gone |
| AdList.List.Rotate | src/adlist.c:331-344 | the last node comes first |
| AdList.List.Join | src/adlist.c:348-363 | the nodes of both in order; the other list is empty |
| AdList.List.Index | src/adlist.c:316-328 | the node at the index, negative ones from the tail, null outside |
| AdList.ListIter.constructor | src/adlist.c:186-213 | the iterator stands before the first or behind the last node |
| AdList.ListIter.Next | src/adlist.c:229-240 | returns the node ahead in its direction and stands behind it |
| AdList.VisitAndPrune | src/adlist.c:216-240 | deleting nodes as they are returned, from the head or from the tail: every node is visited once and in order, the rest remains |
| AdList.KeptMeans | src/adlist.c:216-240 | the nodes that remain are exactly those to be kept |
| AdList.KeptConcat | src/adlist.c:216-240 | and they remain in their order |
| AdList.SearchKey | src/adlist.c:291-309 | the first matching node, null if and only if none matches |
| AdList.DupList | src/adlist.c:250-280 | a fresh list of the duplicated values, or null exactly if dup fails on some node; the original is untouched |
| AdList.MapAllMeans | src/adlist.c:261-278 | the duplicated values are those of the nodes, in order, and there are none exactly if one duplication fails |
| AdList.ValuesOfMeans | src/adlist.c:250-280 | the i-th value is that of the i-th node |
| AdList.ValuesOfConcat | src/adlist.c:348-363 | the values of appended node sequences are the appended values |
| Wire.ClientBuf | src/db.c:141-155 | the formatted output is "*n", then "$len" and the bytes of each argument |
| WireLengths.ReadsArgument | src/db.c:149-152 | "$", the length, a line end, that many bytes, a line end: the length sent is that of the argument, whatever its bytes |
| WireLengths.LengthsRoundTrip | src/db.c:141-155 | a reader that goes by count and lengths gets back every argument vector |
| Wire.WireSafeMeans | src/sds.c:1020-1036 | the wire-safe arguments are the words that can be typed without quotes |
| Wire.WireRoundTrip | src/db.c:141-155 | for wire-safe arguments the server's tokens are exactly these lines |
| Wire.WireTokenAt | src/command.c:19-28 | token 2 + 2i is argument i |
| WireExact.UnsafeIsLost | src/sds.c:952-1060 | any other argument is not the token read from its place, since an opened quote runs past its end |
| WireExact.WireExactly | src/db.c:138-155 | for C strings the tokens come through if and only if every argument is non-empty, begins with no blank and holds no byte that ends a token or opens a quote |
| Database.LookupKey | src/object.c:56-74 | the stored value or none, with the map unchanged by the rehashing inside |
| Database.DbAdd | src/db.c:54-58 | stores the key; the assertion never fires after a lookup that found nothing |
| Database.DbOverwrite | src/db.c:65-75 | overwrites the value; the assertion never fires though lookups move entries |
| Database.SetKey | src/db.c:85-93 | map update, on dictionaries in any phase of rehashing |
| Database.IncrKey | src/db.c:96-114 | stores 1, or the decimal of the parsed value plus one; beyond long range nothing is promised |
| Database.ReadRequest | src/command.c:19-28 | the loop fills action, key and value from tokens 2, 4 and 6 |
| Database.GetKey | src/command.c:31-41 | get replies the text of the value, or that the key is missing |
| Database.Dispatch | src/command.c:31-55 | set, incr, get and unknown commands act and reply as on a plain map; nothing is promised of the dictionary behind an undefined command |
| Database.CommandServer | src/command.c:9-56 | one input line, from tokens to reply, where its command is defined |
| Database.ServeAll | src/command.c:9-56 | for every run of lines the replies up to the first undefined command are those of a plain string map, and so is the final content if there is none |
| Database.ServeAllMore | src/command.c:9-56 | serving two runs of lines in turn is serving both, and nothing is served behind an undefined command |
| Database.ServeEncoded | src/command.c:19-55 | what the client encodes is executed with exactly its arguments |
| Database.IncrRun | src/db.c:96-114 | n increments of a key holding v take it to the decimal of v + n, while that is a long |
| Database.CounterRun | README.md:22-27 | from any store: set k v, n times incr k, get k replies "ok" n + 1 times and then the decimal of v + n |
| Database.FreshCounterRun | src/db.c:101-105 | n increments of a missing key make get reply the decimal of n |
| Database.IncrText | src/db.c:106-111 | incr of any text stores the decimal of what atol reads, plus one |
| Database.SetThenGet | src/command.c:31-46 | get replies what set stored, from any store |
| Database.GetMissing | src/command.c:34-37 | get of a missing key replies "missing key" |
| Database.UnknownCommand | src/command.c:31-55 | any other command leaves the reply as it is |
| Database.TypedCounterRun | README.md:22-27 | the lines "set k v", n times "incr k" and "get k", typed with their line feeds and sent by the client, have these replies |
| Database.GetAfterSet | src/command.c:31-46 | get after set returns the text of the value, unless the key holds a NUL, in which case get does not see it |

## Left out

- Entry pointers of the dictionary: a chain is a sequence held in its bucket, an entry pointer a position in it, and an iterator refers to entries by key. Relinking `next` fields, sharing and freeing of entries are not captured.
- DictModel.Hash: an arbitrary function of the key's content. The seed and the choice of SipHash are not tied to it.
- Allocation failure, and tables or strings too large to allocate; `zmalloc` is assumed to succeed.
- DictModel.CanGrow: `dictReplace` and the run theorems ask for fewer than 2^62 entries, since doubling `used` wraps beyond.
- DictModel.Rehash: the number of steps is not negative, and ten times it fits an `int`.
- Unsafe iterators with fingerprints, `dictGetRandomKey`, `dictGetSomeKeys`, `dictRehashMilliseconds`, `dictFindEntryRefByPtrAndHash`: randomness, probabilistic checks or wall-clock time.
- `dictEmpty`, `dictRelease`, destructors and dup callbacks; scan callbacks are taken not to modify the dictionary.
- DictIterator.Tolerated: deleting the entry the iterator has saved as its next one, and explicit `dictRehash` calls, are excluded as the code does not support them.
- Key comparison in `dictSdsKeyCompare` narrows lengths to `int`; keys are compared by content here.
- SdsBuffer.Sds.MakeRoomFor: lengths are below 2^61 so that no `size_t` sum wraps; bytes that `realloc` leaves undefined are zero, and other pointers to a moved string are not modelled.
- SdsBuffer.Sds.IncrLen: for the 5-bit header the terminator has to fall inside the buffer, which the asserts do not check; the smallest `ssize_t` is excluded, as the code negates it, and the sum in the 5-bit assert is exact.
- SdsNumbers.Ll2Str: LLONG_MIN is excluded, as the negation in the code is undefined for it.
- `sdscatprintf` and `vsnprintf`; in `sdscatrepr` their output is written out.
- `isspace` and `isprint` are those of the C locale.
- Memory handling in `sdssplitargs` and `sdssplitlen`; case folding, `sdsmapchars`, `sdscmp` as an order.
- Database.IncrKey: the room behind the digits in the string it writes to is not modelled, only the text; where `atol` or the addition overflows, neither the reply nor the store is described.
- Database.Dispatch: `decr` is not modelled, because `decrKey` stores integers as pointers where the other commands expect text; nor are commands with missing tokens, which read uninitialized objects. No reply behind such a command is described.
- Database.CommandServer: as Database.Dispatch, for lines that hold `decr` or too few tokens.
- Database.ServeAll: stops at the first such command.
- The capacity of the reply buffer, reference counts and the LRU clock.
- AdList.DupList: dup, free and match callbacks are functions of the value; a node's value is not rewritten.
- AdList.List.Join: a list is not joined to itself.
- SipHash.SipHashOf: words are loaded little-endian; the byte-wise fallback of the load macro is not modelled separately.
- Sockets, epoll, the client loop, sqlite and the test programs.
