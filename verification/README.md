# Verified model of the video server's core algorithms

The repository is a small C++ video server with a vendored copy of nlohmann/json 3.10.5. This
project models the parts whose correctness is not obvious from reading them and proves what
they promise. `dafny verify dfyconfig.toml` checks everything.

**JSON Pointer, Patch, Merge Patch, flatten, ordering, teardown.**
`StringEscape`, `JsonPointer`, `JsonValue`, `Patch`, `Diff`, `DiffRoundTrip`, `MergePatch`,
`DiffPlaces`, `Flatten`, `FlattenSteps`, `FlattenRoundTrip`, `UnflattenAccepts`, `Ordering`, `Destroy` (with
`TextOrder`, `Digits`, `Words`).
A JSON value is a recursive datatype with the ten value types of the library; 64-bit integers, the
casts between them and the rounding cast to double are explicit; errors carry the exception class
and number that the library throws, and a violated `JSON_ASSERT` is an outcome of its own. Loops of
the source are loops here, each proved against a recursive definition; the laws are proved about
those definitions. The main results: printing and parsing pointers undo each other; patching with
`diff(s, t)` never fails and reaches `t`; flattening can be undone exactly when a stated condition on
keys holds; merge patch is the function of RFC 7386 and idempotent; `operator<` is a strict
weak order on the values where it can be one; the teardown loop empties every tree.

**Printing of doubles.**
`DiyFp`, `Boundaries`, `CachedPowerTable`, `CachedPowers`, `DigitGen`, `Grisu2`, `FormatBuffer`,
`ToChars` (with `Powers`, `Buffers`). A double is its bits without the sign; its value is an exact real number.
Every 64-bit and 32-bit variable of the algorithm has a bounded type, so a wrap-around would be a
proof failure. The chain ends in `ToChars.WriteDouble`: the text left in the buffer for any finite double is a JSON
number that is closer to this double than to any other, so it reads back as the same double.

**Server classes.**
`PoolMachine` and `ThreadPool` (the thread pool as a transition system over its critical sections,
and as an object that takes exactly those steps), `Snowflake` (with `Bits`: IDs from an arbitrary
clock), `Heartbeat` (the evictor of silent connections), `SocketIo` (the full-length send and
receive loops).

## What the code does differently from what it says

- `json_pointer::contains` checks digits by hand so that it can return false where `array_index` would
  throw, but it still throws when the walk meets an array with the empty token or with a token of
  digits that is too large for an index. `JsonPointer.Contains` gives the exact condition, and
  `JsonPointer.EmptyTokenThrows` an input.
- `patch` calls an existing primitive parent impossible for "add" (json.hpp:4717), yet its
  `JSON_ASSERT(false)` is reached for exactly such parents (`Patch.AddReachesAssertion`,
  `Patch.AssertionBelowBoolean`).
- Section 4.1 of RFC 6902 wants the parent of an added value to exist. `patch` checks only the first
  token of the path and creates the rest: `Patch.AddSucceeds` says exactly when an "add" succeeds,
  and `Patch.AddMakesParent` shows one without a parent.
- Section 4.2 wants the target of "remove" to exist. Below a primitive parent `patch` removes nothing
  and succeeds: `Patch.RemoveSucceeds` says exactly when, `Patch.RemoveBelowBoolean` shows one.
- Section 4.4 forbids moving a value into one of its children. `patch` does not look: `Patch.MoveSucceeds`
  says exactly when a "move" succeeds, and `Patch.MoveIntoOwnChild` shows one that writes into the next
  element.
- A value equal to nothing, not even to itself (NaN, discarded), cannot be reached by any patch:
  `patch(diff(s, t)) == t` holds exactly when `t` contains neither (`DiffRoundTrip.PatchOfDiff`).
- `unflatten` takes an object for an array when the first entry below it has the token "0", so
  `unflatten(flatten(j))` loses `j` on exactly those objects (`FlattenRoundTrip.FlattenThenUnflatten`,
  with {"0":null} in `FlattenRoundTrip.ZeroKeyIsLost`).
- `operator<` is a strict weak order on a domain with one subtype of binary values, unsigned numbers
  below 2^63, and beside floats only integers that are doubles (`Ordering.StrictWeakOrder`). Each
  bound is needed: `Ordering.LargeUnsignedCycle`, `Ordering.BinarySubtypesIncomparable` and
  `Ordering.InexactBreaksEquality` are about every value behind it.
- The heartbeat comment speaks of three missed checks; a silent connection goes at the fourth poll
  (`Heartbeat.EvictedAtFourthPoll`).
- The epoch of the ID generator is commented as 2021-01-01; the constant 1514736000000 is
  2017-12-31 16:00 UTC.

## Model

| member | source | states |
|---|---|---|
| StringEscape.ReplaceSubstring | json/include/nlohmann/detail/string_escape.hpp:31-41 | the find/replace loop that edits the string in place ends, although the string may grow, and equals one left-to-right replacement of all occurrences |
| StringEscape.Escape | json/include/nlohmann/detail/string_escape.hpp:51-56 | the two passes give the character-by-character escaping |
| StringEscape.EscapeRefines | json/include/nlohmann/detail/string_escape.hpp:51-56 | replacing "~" first and "/" second is escaping each character on its own |
| StringEscape.Unescape | json/include/nlohmann/detail/string_escape.hpp:66-70 | the two passes; on well-escaped text they give the character-by-character decoding |
| StringEscape.UnescapeRefines | json/include/nlohmann/detail/string_escape.hpp:66-70 | replacing "~1" first and "~0" second decodes well-escaped text in one reading |
| StringEscape.UnescapeEscape | json/include/nlohmann/detail/string_escape.hpp:51-70 | unescaping undoes escaping on every string |
| StringEscape.EscapeUnescape | json/include/nlohmann/detail/string_escape.hpp:51-70 | escaping undoes unescaping on every well-escaped token without "/" |
| StringEscape.EscapedInjective | json/include/nlohmann/detail/string_escape.hpp:51-56 | different tokens have different escaped forms |
| JsonPointer.CheckEscapes | json/include/nlohmann/detail/json_pointer.hpp:689-703 | the scan for "~" accepts exactly the tokens in which "0" or "1" follows every "~" |
| JsonPointer.Split | json/include/nlohmann/detail/json_pointer.hpp:653-711 | the scanning loop returns the tokens, or error 107 or 108, of the recursive reading |
| JsonPointer.ToString | json/include/nlohmann/detail/json_pointer.hpp:66-74 | the fold prints every token escaped behind a slash |
| JsonPointer.ParsePrint | json/include/nlohmann/detail/json_pointer.hpp:66-74 | parsing a printed pointer gives its tokens back, for every list of tokens |
| JsonPointer.PrintParse | json/include/nlohmann/detail/json_pointer.hpp:653-711 | printing the tokens of an accepted text gives the text back |
| JsonPointer.ParsedAccepts | json/include/nlohmann/detail/json_pointer.hpp:653-711 | a text is accepted if and only if it is empty, or starts with "/" and is well escaped; otherwise the error is 107 without the slash and 108 with it |
| JsonPointer.ArrayIndexOfText | json/include/nlohmann/detail/json_pointer.hpp:201-236 | the decimal text of every index below the largest size is read as that index |
| JsonPointer.ArrayIndexIsCanonical | json/include/nlohmann/detail/json_pointer.hpp:201-236 | whatever is read as an index is its only decimal text |
| JsonPointer.ArrayIndexAccepts | json/include/nlohmann/detail/json_pointer.hpp:201-236 | a token is an index if and only if it is the decimal text of a number below the largest size |
| JsonPointer.GetChecked | json/include/nlohmann/detail/json_pointer.hpp:516-563 | the loop over the tokens finds the value, or throws the error, that the recursive look-up gives |
| JsonPointer.ChildFound | json/include/nlohmann/detail/json_pointer.hpp:409-451 | an object has a child for each of its keys and throws 403 for others; an array has one for the decimal text of each index and throws 106, 109, 401, 402, 404 or 410 for others, as the token says; everything else throws 404 |
| JsonPointer.LookUpThrows | json/include/nlohmann/detail/json_pointer.hpp:409-451 | a look-up that fails does so at a token behind a place that exists, with the error for that token |
| JsonPointer.DigitChecks | json/include/nlohmann/detail/json_pointer.hpp:590-610 | the hand-written checks pass exactly single digits, digits without a leading zero, and the empty token |
| JsonPointer.DigitChecksAgree | json/include/nlohmann/detail/json_pointer.hpp:590-617 | what these checks turn away the index reader refuses; what they pass it refuses only if empty or too large |
| JsonPointer.Contains | json/include/nlohmann/detail/json_pointer.hpp:565-642 | true if and only if the checked look-up returns; throws if and only if the walk meets an array with an empty or too large token, and then what the checked look-up throws |
| JsonPointer.EmptyTokenThrows | json/include/nlohmann/detail/json_pointer.hpp:565-642 | at an empty array the empty token makes `contains` throw although nothing is there |
| JsonValue.EqualToItself | json/include/nlohmann/json.hpp:3529-3598 | a value equals itself if and only if it holds no NaN and no discarded value |
| JsonValue.EqualImpliesClean | json/include/nlohmann/json.hpp:3529-3598 | values that are equal to anything hold no NaN and no discarded value |
| Patch.ApplyPatch | json/include/nlohmann/json.hpp:4625-4895 | the loop applies the operations one after the other up to the first that throws |
| Patch.AddedValueIsFound | json/include/nlohmann/json.hpp:4664-4728 | after every successful "add" below the root, whether the parent was there or is made, the value is found at its pointer if and only if the walk met no array with the append token "-" |
| Patch.AddSucceeds | json/include/nlohmann/json.hpp:4664-4728 | "add" succeeds if and only if the pointer is the root's, or the parent exists and takes the child, or the first token leads somewhere and every missing token can be made |
| Patch.AddThroughMissing | json/include/nlohmann/json.hpp:4664-4681 | with a missing parent the addition changes only the deepest value that exists, and never violates the assertion |
| Patch.AddMakesParent | json/include/nlohmann/json.hpp:4672-4682 | at {"a":{}} the pointer "/a/b/c" has no parent, and the addition makes it |
| Patch.AddReachesAssertion | json/include/nlohmann/json.hpp:4664-4728 | "add" violates the assertion if and only if the parent exists and is neither null, array nor object |
| Patch.AssertionBelowBoolean | json/include/nlohmann/json.hpp:4717-4726 | as at "/a/b" below {"a":true} |
| Patch.AddEffect | json/include/nlohmann/json.hpp:4684-4715 | at an existing parent "add" creates or replaces the member, inserts before the index, appends for "-", or makes an object of null, and changes nothing else (section 4.1) |
| Patch.AddMakesOneLevel | json/include/nlohmann/json.hpp:4672-4682 | "add" whose parent alone is missing makes it: as a member, as an element behind the others with nulls in between, and null becomes an array for a number or "-", and an object otherwise |
| Patch.AddThrows | json/include/nlohmann/json.hpp:4703-4714 | "add" at an existing array throws the error for the index |
| Patch.AddThrowsOnTheWay | json/include/nlohmann/json.hpp:4672-4682 | "add" with a missing parent throws the error of the first token if that leads nowhere, and otherwise of the first token from which nothing can be made |
| Patch.RemoveSucceeds | json/include/nlohmann/json.hpp:4731-4757 | "remove" succeeds if and only if the parent exists and holds the child or is neither array nor object; in the last case nothing is removed |
| Patch.RemoveBelowBoolean | json/include/nlohmann/json.hpp:4731-4757 | as at "/a/b" below {"a":true} |
| Patch.RemoveEffect | json/include/nlohmann/json.hpp:4731-4757 | "remove" takes the member out, or the element, and moves the later ones up (section 4.2) |
| Patch.RemoveThrows | json/include/nlohmann/json.hpp:4731-4757 | "remove" throws 405 at the root, and otherwise the look-up error of the parent or of the child |
| Patch.RemoveUndoesAdd | json/include/nlohmann/json.hpp:4664-4757 | "remove" after adding a new member or inserting an element restores the whole document |
| Patch.CopyIsAdd | json/include/nlohmann/json.hpp:4846-4859 | "copy" is "add" with the value found at "from", or its look-up error (section 4.5 of RFC 6902) |
| Patch.MoveIsRemoveThenAdd | json/include/nlohmann/json.hpp:4829-4844 | "move" is "remove" at "from" followed by "add" of what was there, or the look-up error (section 4.4) |
| Patch.MoveSucceeds | json/include/nlohmann/json.hpp:4829-4844 | "move" succeeds if and only if "from" leads to a value that is not the root, and that value can be added at the path once it is gone |
| Patch.MoveIntoOwnChild | json/include/nlohmann/json.hpp:4829-4844 | moving the first of two elements from "/0" to "/0/b" writes it into the second one, which is an object |
| Patch.ReplaceMeans | json/include/nlohmann/json.hpp:4822-4827 | "replace" succeeds if and only if there is a value, at the root or below, and exchanges it; otherwise it throws the look-up error |
| Patch.PutElsewhere | json/include/nlohmann/json.hpp:4822-4827 | exchanging a value changes what is found there and below, and nothing beside it |
| Patch.ReplaceIsRemoveThenAdd | json/include/nlohmann/json.hpp:4822-4827 | below the root "replace" of an existing value is "remove" followed by "add" at the same place, and exchanges just that value (section 4.3) |
| Patch.TestPasses | json/include/nlohmann/json.hpp:4861-4882 | "test" succeeds if and only if a value is found and equals the given one, and leaves the document alone; otherwise it throws 501, or the parse error of its look-up |
| Patch.MalformedIsRefused | json/include/nlohmann/json.hpp:4769-4891 | an operation that is no object, has an unknown name or lacks a member throws on every document: error 104 or 105, unless its path does not parse or "test" fails before it looks for its value |
| Patch.PointersMustParse | json/include/nlohmann/json.hpp:4776-4850 | a path, or else a "from", that does not parse is refused with its own error |
| Diff.ComputeDiff | json/include/nlohmann/json.hpp:4900-5030 | the loops and recursive calls emit exactly the operations of the recursive definition, in order |
| Diff.DiffArrays | json/include/nlohmann/json.hpp:4925-4967 | the three loops over two arrays: common elements, removals, appends |
| Diff.InsertRemovals | json/include/nlohmann/json.hpp:4939-4952 | inserting every removal at one fixed position leaves the removals in descending order of index |
| Diff.DiffObjects | json/include/nlohmann/json.hpp:4969-5009 | the two loops over two objects in key order: removals and changes, then additions |
| Diff.NoOpsIfEqual | json/include/nlohmann/json.hpp:4904-4910 | the difference is empty if and only if the values are equal |
| Diff.OpsStayBelow | json/include/nlohmann/json.hpp:4922-5009 | between two arrays or two objects every operation works on something strictly inside: the whole is never replaced |
| DiffPlaces.EmittedExactly | json/include/nlohmann/json.hpp:4900-5030 | an operation is in the difference if and only if some place asks for it at which both documents have values, alike all along the way: to replace the one value by the other if they are unequal and not both arrays or both objects, to remove what only the source has there, to add what only the target has |
| DiffPlaces.ReplacedOnlyLeaves | json/include/nlohmann/json.hpp:4912-5025 | so no array is replaced by an array and no object by an object, at any depth |
| DiffPlaces.OpsInOrder | json/include/nlohmann/json.hpp:4922-5009 | of two operations the first is at the earlier place: members of the source before new ones, each in key order; common elements from the front, then removals from the back, or appends; no place gets two, but appends |
| DiffRoundTrip.DiffApplies | json/include/nlohmann/json.hpp:4625-5030 | applied to any document that holds s at path p, the difference of s and t succeeds, replaces that value by the reached one and changes nothing else |
| DiffRoundTrip.ReachedEqualsTarget | json/include/nlohmann/json.hpp:4900-5030 | the reached value equals the target if and only if the target holds no NaN and no discarded value |
| DiffRoundTrip.PatchOfDiff | json/include/nlohmann/json.hpp:4625-5030 | for all values s and t patching s with their difference succeeds, and the result equals t if and only if t holds no NaN and no discarded value |
| DiffRoundTrip.DiffThenPatch | json/include/nlohmann/json.hpp:4625-5030 | the same law for the two loops, run one after the other |
| MergePatch.MergeInto | json/include/nlohmann/json.hpp:5043-5067 | the loop that edits the target equals the function MergePatch of section 2 of RFC 7386 |
| MergePatch.PlaceAfterMerge | json/include/nlohmann/json.hpp:5043-5067 | after a merge every place of keys, however deep, holds the value that the patch sets there, nothing where the patch has null or no object above, and what it held before where the patch says nothing |
| MergePatch.ObjectAfterMerge | json/include/nlohmann/json.hpp:5043-5067 | where the patch has an object there is one after the merge |
| MergePatch.MergeTwice | json/include/nlohmann/json.hpp:5043-5067 | applying a merge patch twice is applying it once |
| MergePatch.MergeIntoNull | json/include/nlohmann/json.hpp:5043-5067 | merging into null builds the patch itself if and only if it has no null member at any depth |
| MergePatch.MergeReaches | json/include/nlohmann/json.hpp:5043-5067 | some merge patch makes the target of the source if and only if every null member of the target, at any depth, is null in the source already |
| MergePatch.MergeDiffReaches | json/include/nlohmann/json.hpp:5043-5067 | then a patch that names only what differs does so: members that are not named stay |
| Flatten.FlattenInto | json/include/nlohmann/detail/json_pointer.hpp:722-780 | the recursive writes into one shared result give the entries of the value over what was there |
| Flatten.FlattenValue | json/include/nlohmann/json.hpp:4600-4605 | `flatten` yields the object of all entries |
| Flatten.Unflatten | json/include/nlohmann/detail/json_pointer.hpp:793-819 | the loop over the entries in key order, with errors 313, 314 and 315 |
| UnflattenAccepts.CreateSucceeds | json/include/nlohmann/detail/json_pointer.hpp:261-319 | creating an entry succeeds if and only if every value on its way is null, an object, or an array whose next token is an index |
| UnflattenAccepts.CreateEffect | json/include/nlohmann/detail/json_pointer.hpp:261-319 | what every place holds after an entry has been created: the entry, a container above it, nothing below it, and elsewhere what was there |
| UnflattenAccepts.UnflattenSucceeds | json/include/nlohmann/detail/json_pointer.hpp:793-819 | a value is accepted if and only if it is an object of primitives under JSON pointers in which every entry fits behind the earlier ones: nothing but null above it, and an index wherever the first entry made an array |
| UnflattenAccepts.UnflattenedHolds | json/include/nlohmann/detail/json_pointer.hpp:793-819 | what is built holds the value of every entry below which no other leads, an array or object as the first entry below a place says, and nothing but nulls elsewhere |
| UnflattenAccepts.CreateThrows | json/include/nlohmann/detail/json_pointer.hpp:261-319 | an entry that cannot be created is refused where its walk first stops, with 313 or the error for the index |
| UnflattenAccepts.UnflattenThrows | json/include/nlohmann/detail/json_pointer.hpp:793-819 | a refused value is no object (314), or its first entry in key order that cannot be put decides: 315 if it is not primitive, then the error of its key, then that of its walk |
| FlattenSteps.LeafEntry | json/include/nlohmann/detail/json_pointer.hpp:722-780 | everything inside a value that is primitive, discarded or empty has its own entry under its printed pointer, empty arrays and objects as null |
| FlattenSteps.EntryLeaf | json/include/nlohmann/detail/json_pointer.hpp:722-780 | the flat object has no other entries, and every key parses to the path of its value |
| FlattenSteps.CreateStep | json/include/nlohmann/detail/json_pointer.hpp:261-319 | creating one more leaf in what has been rebuilt gives what is rebuilt with that leaf, in any order of visits |
| FlattenRoundTrip.ComesBack | json/include/nlohmann/detail/json_pointer.hpp:722-819 | a value in which no object is entered at its key "0" comes back, empty arrays and objects as null |
| FlattenRoundTrip.DoesNotComeBack | json/include/nlohmann/detail/json_pointer.hpp:261-319 | a value with an object that is entered at its key "0" never comes back |
| FlattenRoundTrip.ZeroKeyIsLost | json/include/nlohmann/detail/json_pointer.hpp:271-283 | as with {"0":null}, whose entries come back as [null] |
| FlattenRoundTrip.FlattenThenUnflatten | json/include/nlohmann/detail/json_pointer.hpp:261-819 | unflatten after flatten restores the value (empty ones as null) if and only if it holds no discarded value and no object entered at key "0" |
| FlattenRoundTrip.FlattenThenUnflattenNoZero | json/include/nlohmann/detail/json_pointer.hpp:261-819 | in particular it restores every value without discarded values in which no object has the key "0" |
| FlattenRoundTrip.FlattenAndBack | json/include/nlohmann/json.hpp:4600-4612 | the same law for the two loops, run one after the other |
| Ordering.FlipIsSwap | json/include/nlohmann/json.hpp:3529-3598 | comparing with the roles exchanged is comparing the other way round, at every depth |
| Ordering.OrderIsTotal | json/include/nlohmann/json.hpp:3735-3802 | on one domain exactly one of a < b, a == b, b < a holds |
| Ordering.StrictWeakOrder | json/include/nlohmann/json.hpp:3529-3802 | on values without NaN and discarded values, with unsigned numbers below 2^63, one binary subtype, and beside floats only integers that are doubles, `operator<` is irreflexive and transitive, its incomparability is exactly `==`, and equal values compare alike |
| Ordering.TypesInOrder | json/include/nlohmann/detail/value_t.hpp:83-104 | values of different types are ordered null, boolean, number, object, array, string, binary |
| Ordering.FirstDifferenceDecides | json/include/nlohmann/json.hpp:3537-3538 | of two arrays the elements at the first difference decide, and an array is less than every longer one that it begins |
| Ordering.FirstMemberDecides | json/include/nlohmann/json.hpp:3540-3541 | of two objects the first differing key in key order decides, or the first differing value under the same key |
| Ordering.StringsInOrder | json/include/nlohmann/json.hpp:3546-3547 | of two strings the smaller character at the first difference decides, and a proper prefix is less |
| Ordering.BinariesInOrder | json/include/nlohmann/json.hpp:3561-3562 | binaries likewise by their bytes |
| Ordering.NumbersInOrder | json/include/nlohmann/json.hpp:3552-3592 | numbers of all three types are compared by value, integers beside floats after rounding, infinities at the ends, NaN neither less nor equal |
| Ordering.CastIsNearest | json/include/nlohmann/json.hpp:3569-3584 | the cast of an integer to a double yields the nearest number of 53 binary places, the even one of two equally near |
| Ordering.ConstantsInOrder | json/include/nlohmann/json.hpp:3543-3550 | false is less than true; null and a discarded value are not less than themselves |
| Ordering.DiscardedIsUnordered | json/include/nlohmann/detail/value_t.hpp:83-104 | a discarded value is neither less nor greater than any value |
| Ordering.LargeUnsignedCycle | json/include/nlohmann/json.hpp:3585-3592 | every unsigned number from 2^63 on takes part in a cycle of `operator<` |
| Ordering.BinarySubtypesIncomparable | json/include/nlohmann/byte_container_with_subtype.hpp:56-60 | binaries with the same bytes are never less than each other, and equal only with the same subtype |
| Ordering.InexactBreaksEquality | json/include/nlohmann/json.hpp:3569-3584 | every integer that is no double equals a float that equals another integer, which it does not equal |
| Ordering.SomeIntegerIsInexact | json/include/nlohmann/json.hpp:3569-3584 | 2^53 + 1 is such an integer |
| Destroy.Teardown | json/include/nlohmann/json.hpp:567-616 | the stack loop ends on every tree, takes each proper descendant off the stack exactly once, and lets go only of items without children |
| Destroy.Pop | json/include/nlohmann/json.hpp:589-615 | one turn of the loop removes just the popped item from everything that the stack holds |
| Destroy.ReachedIsTaken | json/include/nlohmann/json.hpp:589-615 | what is taken off the stack includes everything that a path leads to below the value |
| DiyFp.Mul | json/include/nlohmann/detail/conversions/to_chars.hpp:83-142 | the four 32-bit products yield the 128-bit product rounded to its upper half, and nothing overflows |
| DiyFp.Normalize | json/include/nlohmann/detail/conversions/to_chars.hpp:148-159 | the shifting loop keeps the value and ends with the top bit set |
| DiyFp.NormalizeTo | json/include/nlohmann/detail/conversions/to_chars.hpp:165-173 | a shift to a given exponent keeps the value |
| Boundaries.ComputeBoundaries | json/include/nlohmann/detail/conversions/to_chars.hpp:190-255 | for every finite positive double the result is the double itself and the exact midpoints to both neighbours, on one exponent |
| Boundaries.ValuesIncrease | json/include/nlohmann/detail/conversions/to_chars.hpp:196-214 | doubles are ordered like their bits |
| Boundaries.StrictlyBetweenIsNearest | json/include/nlohmann/detail/conversions/to_chars.hpp:222-226 | a number strictly between the midpoints is nearer to its double than to any other finite double |
| CachedPowerTable.TableIsAccurate | json/include/nlohmann/detail/conversions/to_chars.hpp:384-466 | each of the 79 significands is within half a unit of the exact power of ten |
| CachedPowers.ForBinaryExponent | json/include/nlohmann/detail/conversions/to_chars.hpp:329-487 | the integer logarithm picks a row of the table that brings the product between alpha and gamma |
| CachedPowers.FirstRow | json/include/nlohmann/detail/conversions/to_chars.hpp:329-487 | of all rows that bring the product up to alpha it picks the first |
| CachedPowers.OnlyTheseExponents | json/include/nlohmann/detail/conversions/to_chars.hpp:472-485 | for exponents within the asserted 1500 the assertions behind the formula hold if and only if the exponent is in -1137..964 |
| CachedPowers.ProductError | json/include/nlohmann/detail/conversions/to_chars.hpp:847-862 | a rounded product with a rounded power of ten is off by less than one unit |
| DigitGen.FindLargestPow10 | json/include/nlohmann/detail/conversions/to_chars.hpp:493-545 | the number of decimal digits and the largest power of ten not above n |
| DigitGen.Round | json/include/nlohmann/detail/conversions/to_chars.hpp:547-582 | the loop never decrements '0', never leaves the interval, and ends at the candidate nearest to w, the larger of two equally near; only the last digit changes |
| DigitGen.IntegralDigits | json/include/nlohmann/detail/conversions/to_chars.hpp:651-710 | the first loop keeps "digits and rest make up M+" and stops early only when no larger power of ten would do; no leading zero |
| DigitGen.FractionalDigits | json/include/nlohmann/detail/conversions/to_chars.hpp:751-793 | the second loop keeps the same for the fraction, ends, and never overflows 64 bits |
| DigitGen.Generate | json/include/nlohmann/detail/conversions/to_chars.hpp:588-821 | behind what is in the buffer the digits denote a number in [M-, M+], nearest to w among those of its length (the larger of two equally near), and no multiple of any larger power of ten lies there |
| DigitGen.LargerPowersMiss | json/include/nlohmann/detail/conversions/to_chars.hpp:807-821 | without a multiple of one power of ten in the interval there is none of a larger one |
| Grisu2.StrictlyBetween | json/include/nlohmann/detail/conversions/to_chars.hpp:853-876 | a decimal number between the shrunken products lies strictly between the true boundaries |
| Grisu2.DigitsBetween | json/include/nlohmann/detail/conversions/to_chars.hpp:829-880 | at most 17 digits, the shortest between the shrunken boundaries and among those nearest to the scaled number, denoting a number strictly between the given boundaries; nothing else in the buffer changes |
| Grisu2.DigitsOfDouble | json/include/nlohmann/detail/conversions/to_chars.hpp:889-920 | for every finite positive double at most 17 digits without leading zero, denoting a number strictly between its midpoints, the shortest and nearest between the shrunken ones |
| FormatBuffer.AppendExponent | json/include/nlohmann/detail/conversions/to_chars.hpp:929-968 | a sign and two or three digits are appended behind what is in the buffer, which stays |
| FormatBuffer.ExponentTextReads | json/include/nlohmann/detail/conversions/to_chars.hpp:929-968 | that text reads as the exponent |
| FormatBuffer.FormatInPlace | json/include/nlohmann/detail/conversions/to_chars.hpp:981-1049 | the overlapping moves leave, behind what was there, exactly the digits, point, zeros and exponent of the case that applies, up to the returned end |
| FormatBuffer.FormattedMeans | json/include/nlohmann/detail/conversions/to_chars.hpp:981-1049 | in every case the text read as a numeral denotes exactly digits * 10^exponent |
| FormatBuffer.FormattedIsJson | json/include/nlohmann/detail/conversions/to_chars.hpp:981-1049 | digits without a leading zero become a number in the grammar of section 6 of RFC 8259 |
| FormatBuffer.FormChosen | json/include/nlohmann/detail/conversions/to_chars.hpp:970-1049 | an exponent is written if and only if the number is outside the fixed-point range, and every text has a point or an exponent |
| FormatBuffer.FormattedForm | json/include/nlohmann/detail/conversions/to_chars.hpp:970-1049 | digits without zeros at either end give, in the fixed-point range, a text with a point, at least one digit on either side and no superfluous zeros, and outside it one digit, a point only before further digits, "e", a sign and two digits, or three where needed |
| ToChars.DigitsInRange | json/include/nlohmann/detail/conversions/to_chars.hpp:931-932 | the asserted range of the printed exponent holds for every double |
| ToChars.WriteDouble | json/include/nlohmann/detail/conversions/to_chars.hpp:1066-1116 | for every finite double, zero and sign included, the buffer holds from `first` to the returned end a JSON number closer to this double than to any other, made of the shortest and nearest digits between the shrunken midpoints, "0.0" for zero, in fixed form from 10^-4 to before 10^15 and with an exponent outside, and what was before stays |
| ToChars.TextsDiffer | json/include/nlohmann/detail/conversions/to_chars.hpp:1066-1116 | no two doubles share a text |
| PoolMachine.StepKeeps | threadpool.cpp:33-159 | every critical section keeps the invariant of the pool |
| PoolMachine.ReachableIsSafe | threadpool.cpp:14-159 | in every run: min <= live <= max; live is the number of threads in the slots until they are joined; busy is the number of running tasks, at most live; 0 <= destroy <= 2; accepted tasks are the started ones, in order, and the queue; started tasks are running or finished |
| PoolMachine.WorkerTakesTask | threadpool.cpp:84-111 | a worker that has the lock leaves if and only if it was asleep, somebody is asked to leave and more than three threads live; otherwise it sleeps if and only if the queue is empty, and else takes the first task and counts as busy |
| PoolMachine.WorkerReturns | threadpool.cpp:102-106 | behind the destructor's call a worker that has the lock returns and does nothing else |
| PoolMachine.TaskIsQueued | threadpool.cpp:33-39 | a submission is queued last, or refused behind the destructor's call |
| PoolMachine.OtherSections | threadpool.cpp:41-119 | what the end of a task, the destructor's call and its two joins change |
| PoolMachine.StartsWithThree | threadpool.cpp:14-31 | three workers, all other slots free, nothing to do |
| PoolMachine.TickGrows | threadpool.cpp:139-157 | a tick adds exactly min(2, max - live) threads if and only if tasks outnumber threads, in the first free slots, asks two to leave if and only if less than half are busy and more than three live, and changes nothing else |
| PoolMachine.FewLeave | threadpool.cpp:86-101 | between two ticks at most as many threads leave as were asked to, never more than two |
| PoolMachine.StartsInOrder | threadpool.cpp:107-110 | tasks start in the order of their acceptance, and what has started stays started |
| PoolMachine.NothingAfterShutdown | threadpool.cpp:33-54 | after the destructor's call nothing is accepted or started, in any run |
| PoolMachine.ShutdownProgress | threadpool.cpp:41-54 | from then on every step leaves less to be done before the destructor returns |
| PoolMachine.NeverStuck | threadpool.cpp:41-54 | until the destructor has returned some such step can be taken |
| PoolMachine.ShutdownEnds | threadpool.cpp:41-54 | so every run behind the destructor's call is no longer than what was left to be done |
| PoolMachine.ReturnedIsClean | threadpool.cpp:41-54 | when the destructor has returned no thread is left, every started task was finished exactly once, and the others are still queued |
| ThreadPool.ThreadPool.constructor | threadpool.cpp:14-31 | three workers, all other slots free |
| ThreadPool.ThreadPool.AddTask | threadpool.cpp:33-39 | the submission step |
| ThreadPool.ThreadPool.WorkerEnters | threadpool.cpp:84-111 | the step of a worker at the head of its loop |
| ThreadPool.ThreadPool.WorkerWakes | threadpool.cpp:87-111 | the step of a worker that was asleep |
| ThreadPool.ThreadPool.WorkerFinishes | threadpool.cpp:117-119 | the step of a worker behind its task |
| ThreadPool.ThreadPool.ManagerTicks | threadpool.cpp:132-157 | the step of the manager |
| ThreadPool.ThreadPool.AddThreads | threadpool.cpp:141-151 | the scan over the slots fills the first free ones and finds as many as it may add |
| ThreadPool.ThreadPool.BeginShutdown | threadpool.cpp:43-46 | the destructor's critical section |
| Bits.OrDisjoint | snowflakeidworker.cpp:56-59 | a bitwise or of words without a common bit is their sum |
| Bits.AndMask | snowflakeidworker.cpp:40 | masking with 2^n - 1 is the remainder by 2^n |
| Snowflake.SnowflakeIdWorker.TilNextMillis | snowflakeidworker.cpp:77-84 | the first clock reading after the last timestamp |
| Snowflake.SnowflakeIdWorker.GetNextId | snowflakeidworker.cpp:21-60 | the outcome and the new counter and timestamp of one call, for any clock readings |
| Snowflake.PackedIsLayout | snowflakeidworker.cpp:56-59 | for every clock reading the four fields do not overlap, and the milliseconds are kept modulo 2^42 |
| Snowflake.PackedRoundTrip | snowflakeidworker.cpp:56-59 | within the 42 bits an ID gives back the time, both numbers and the counter |
| Snowflake.PackedRepeats | snowflakeidworker.cpp:56-59 | 2^42 milliseconds later the same ID comes again |
| Snowflake.FieldsInNumbers | snowflakeidworker.cpp:56-59 | an ID is the milliseconds since 1514736000000 modulo 2^42, five bits of data center, five of worker, twelve of counter |
| Snowflake.OneCall | snowflakeidworker.cpp:29-54 | a call is refused if and only if the clock has moved back, and then changes nothing; an ID carries a later time and counter zero, or the same time and the next counter; a call blocks only with a full counter and no later reading, and the later time is the first such reading |
| Snowflake.IdsIncrease | snowflakeidworker.cpp:21-60 | the IDs of one generator are strictly increasing in every run |
| Snowflake.FewPerMillisecond | snowflakeidworker.cpp:38-44 | at most 4096 of them share a millisecond |
| Snowflake.NoCollision | snowflakeidworker.cpp:56-59 | generators with different numbers never return the same ID, whatever their clocks |
| Heartbeat.UserStatusEvaluator.PollAll | userstatusevaluator.cpp:26-45 | the walk over a copy, in any order, equals one simultaneous update, and closes exactly the evicted connections |
| Heartbeat.UserStatusEvaluator.AddEntry | userstatusevaluator.cpp:86-102 | adds an entry with count zero, and leaves an entry that is there as it is |
| Heartbeat.UserStatusEvaluator.RemoveEntry | userstatusevaluator.cpp:104-114 | removes the entry |
| Heartbeat.UserStatusEvaluator.Reset | userstatusevaluator.cpp:116-126 | sets the count to zero, and throws if and only if there is no entry |
| Heartbeat.UserStatusEvaluator.SetUserId | userstatusevaluator.cpp:128-137 | stores the user, and throws if and only if there is no entry |
| Heartbeat.NumIsPollsSince | userstatusevaluator.cpp:18-126 | in every run the count is the number of polls since the entry was added or last reset, and lies in 0..3 |
| Heartbeat.EvictedAtFourthPoll | userstatusevaluator.cpp:32-43 | a connection is evicted if and only if this is the fourth poll since then |
| Heartbeat.StaysIfRegular | userstatusevaluator.cpp:18-126 | a connection that is neither added nor removed again is still there if and only if every stretch without a heartbeat had at most three polls |
| Heartbeat.EntryIsMade | userstatusevaluator.cpp:86-137 | in every run an entry holds the address with which its connection was added while it was absent, and the user last set since |
| SocketIo.MySend | config.cpp:42-63 | for every script of outcomes the loop ends, sends a prefix of the data, and returns its length, or -1 on failure |
| SocketIo.MyRecv | config.cpp:17-40 | for every script the loop ends, fills a prefix of the buffer from the stream and leaves the rest of it alone |
| SocketIo.CompleteIfEnough | config.cpp:17-63 | without failure or early end a loop is complete if and only if the kernel was willing to move enough, however it was chunked and interrupted |
| SocketIo.EndOfTransfer | config.cpp:17-63 | for every script the amount moved is the least of what is asked for, what is there, and what the kernel moves before its first failure or end; when enough is there the loop ends as that says |
| SocketIo.NeverTooMuch | config.cpp:17-63 | never more than asked for is moved, and all of it if and only if the loop is complete |
| SocketIo.SendThenReceive | config.cpp:17-63 | sending and then receiving the same length delivers exactly the bytes sent |

## Left out

- Aliasing: `patch`, `merge_patch`, `get_and_create` and the non-const `get_unchecked` edit a document
  through references; here an edit yields the changed document, so nothing is said about
  references that outlive an edit.
- Patch.ApplyPatch: C++ leaves open whether "test", and before C++17 whether "replace", looks up the place or
  the value first; here "test" looks up the place first and "replace" the value. This matters only
  for which error is thrown when both fail.
- A huge array index makes `operator[]` allocate that many nulls and may run out of memory; here the nulls
  are simply there.
- DiffRoundTrip.PatchOfDiff and DiffPlaces.EmittedExactly: arrays are taken to be shorter than the
  largest `size_type`, as every vector is; the same bound appears in the flatten laws.
- Strings are sequences of characters without an encoding; the sign of zero is not kept in `Double`, since no
  comparison sees it.
- ToChars.WriteDouble: NaN and infinities, which the function asserts away, and `float` and `long double`
  are not modelled.
- DigitGen.Generate: needs M+ to have an integral part, which `find_largest_pow10` needs and every double gives.
- The algorithm Grisu2 does not promise the shortest digits between the true boundaries, only between the
  shrunken ones; so nothing is claimed about the true ones but that the number lies between them.
- PoolMachine.ReachableIsSafe: assumes at least three processors. With fewer the constructor writes
  beyond its vector (threadpool.cpp:27-30), which is undefined.
- Thread pool: a worker is known by its slot, not by a thread identifier, and a task by a number; a sleeping worker
  may wake at any time, which covers every use of the condition variable. Nothing is claimed about a
  task ever starting: a worker woken for it may leave instead (threadpool.cpp:87-99).
- PoolMachine.NeverStuck and PoolMachine.ShutdownEnds take every running task to end: the step that
  finishes it is always enabled. A task that never returns keeps the destructor waiting.
- Snowflake.IdsIncrease: clock readings from the epoch on for 2^42 milliseconds and numbers up to 31. The setters do
  not check the numbers, and `Snowflake.PackedRepeats` shows why the clock is bounded. The build
  without the lock is not modelled.
- Heartbeat: every method is one atomic step. The original's writers hold only a shared lock
  (userstatusevaluator.cpp:91, 106, 118), so data races between them are outside the model.
- Sockets: what the kernel does is a parameter; packet headers that arrive in pieces are not resumed by the
  callers and nothing is claimed about them.
- The parser, serializer and binary codecs of the JSON library, `ordered_map`, hashing and the other
  comparison operators.
- SQL, files, logging, epoll, Boost.Asio and the business classes of the server.
