# GenericData: a loosely typed data tree, modelled in Dafny

This project models `GenericData`, the variant tree node of the opencore commons data library, and
the default methods of its interface `Data`. A node carries one tag (null, boolean, string, integral,
numeric, object or array) with a payload field for each tag, an insertion-ordered map of named
children, an array of positional children and a mutability flag. The model covers:

- the reads: `size`, `isEmpty`, `keySet`, `get(String)` and `get(int)`, which fall back to the
  shared immutable sentinel `NULL`; the probes `isAtomic`, `isBoolean`, `isIntegral` and `isNumeric`;
  and the coercing getters `getBoolean`, `getString`, `getLong`, `getInt`, `getShort`, `getByte`
  (module `DataNode`);
- the interface defaults `isObject`, `isNull`, `getString(property, default)` and
  `getLong(property, default)` (module `DataDefaults`);
- the mutators `clear`, the whole-value, keyed and indexed setters, `set(Data, mutable)` and
  `checkMutable`, as functions from the old node to the new one (module `DataWrite`). Their
  properties are lemmas in module `WriteProperties`. `ensureCapacity` has no function of its own:
  since it changes nothing, its effect is part of `DataWrite.WriteSlot`, and the class method
  `GenericData.EnsureCapacity` models its body;
- `equals` (module `DataEquality`);
- the object itself, as class `GenericData` with the Java fields, whose methods update them in
  place and are proved against the functions above (module `GenericDataObject`);
- the Java library calls the core depends on: the `parseX` parsers, `Long.toString`,
  `Boolean.parseBoolean` and `Boolean.toString`, and the narrowing casts (module `JavaLang`).

Java exceptions are values. A getter returns `Result` (`Ok` or `Throw`). A mutator returns a
`Step`, which pairs the state the node has reached when the call ends with whether it returned or
raised. Children are held by value.

The main model follows the code as written, including its defects. Module `Corrected` holds the
behaviour the code evidently intends at each defect, with that behaviour proved (see "## Findings").

The interface documentation says that a node holding an object has size 1 (Data.java:30). The
implementation returns the number of entries (GenericData.java:168-169), and the model follows the
implementation.

## Model

| member | source | states |
|---|---|---|
| JavaLang.ToInt | data-all/data/src/main/java/tech/opencore/commons/data/GenericData.java:315-331 | the cast (int) of a long is the identity inside the int range and otherwise congruent modulo 2^32 |
| JavaLang.ToShort | data-all/data/src/main/java/tech/opencore/commons/data/GenericData.java:343-359 | the cast (short) is the identity inside the short range and otherwise congruent modulo 2^16 |
| JavaLang.ToByte | data-all/data/src/main/java/tech/opencore/commons/data/GenericData.java:371-387 | the cast (byte) is the identity inside the byte range and otherwise congruent modulo 2^8 |
| JavaLang.ParseDecimal | data-all/data/src/main/java/tech/opencore/commons/data/GenericData.java:298-299 | a decimal parse that succeeds yields a value inside the requested width's range |
| JavaLang.NatToString | data-all/data/src/main/java/tech/opencore/commons/data/GenericData.java:266-267 | the decimal rendering is non-empty, all digits and without a leading zero |
| JavaLang.ParseBooleanIsLowerCaseTrue | data-all/data/src/main/java/tech/opencore/commons/data/GenericData.java:242-243 | Boolean.parseBoolean is true exactly for the text whose ASCII lower case is "true" |
| JavaLang.BooleanRoundTrip | data-all/data/src/main/java/tech/opencore/commons/data/GenericData.java:264-265 | Boolean.parseBoolean(Boolean.toString(b)) == b |
| JavaLang.LongRoundTrip | data-all/data/src/main/java/tech/opencore/commons/data/GenericData.java:266-267 | Long.parseLong(Long.toString(v)) == v for every long |
| JavaLang.RenderedParses | data-all/data/src/main/java/tech/opencore/commons/data/GenericData.java:298-299 | parsing a rendered long gives it back when it lies in the width's range, and raises NumberFormatException otherwise |
| JavaLang.NarrowParsesOfRendered | data-all/data/src/main/java/tech/opencore/commons/data/GenericData.java:315-331 | parseInt, parseShort and parseByte of a rendered long give it back exactly when it fits, and never wrap |
| JavaLang.ParsersNest | data-all/data/src/main/java/tech/opencore/commons/data/GenericData.java:287-387 | a text accepted by a narrower parser is accepted by every wider one with the same value |
| DataNode.LookupMiss | data-all/data/src/main/java/tech/opencore/commons/data/GenericData.java:186-191 | the map lookup misses exactly the keys the map does not hold |
| DataNode.LookupFinds | data-all/data/src/main/java/tech/opencore/commons/data/GenericData.java:186-191 | with unique keys, get(key) answers the value stored under that key |
| DataNode.KeysCount | data-all/data/src/main/java/tech/opencore/commons/data/GenericData.java:168-169 | with unique keys, the key set has one key per entry |
| DataNode.SizeByKind | data-all/data/src/main/java/tech/opencore/commons/data/GenericData.java:153-175 | size() is 1 for a scalar, the key count of an object and the length of an array; isEmpty() holds exactly for a null node or a composite holding nothing |
| DataNode.FirstElement | data-all/data/src/main/java/tech/opencore/commons/data/GenericData.java:193-229 | get(0) of a non-empty object or array answers its first element |
| DataNode.GetIndexByKind | data-all/data/src/main/java/tech/opencore/commons/data/GenericData.java:193-229 | get(index) by tag: an object answers the index-th value in insertion order or NULL past the end; a scalar answers itself at 0 and NULL elsewhere; NULL answers NULL; an array raises ArrayIndexOutOfBoundsException exactly outside its bounds |
| DataNode.ProbesImplyAtomic | data-all/data/src/main/java/tech/opencore/commons/data/GenericData.java:71-151 | isBoolean, isIntegral and isNumeric each imply isAtomic |
| DataNode.ProbesGuardGetters | data-all/data/src/main/java/tech/opencore/commons/data/GenericData.java:71-151 | each probe guarantees its getter returns: isBoolean for getBoolean, isIntegral for getLong, isNumeric for getDouble, isAtomic for getString |
| DataNode.EveryStringIsBoolean | data-all/data/src/main/java/tech/opencore/commons/data/GenericData.java:96-102 | isBoolean holds for every string node, and getBoolean of "abc" is false |
| DataDefaults.IsObjectIffEntries | data-all/data/src/main/java/tech/opencore/commons/data/Data.java:43-45 | isObject() holds exactly for an object node with at least one entry |
| DataDefaults.EmptyContract | data-all/data/src/main/java/tech/opencore/commons/data/Data.java:51-63 | isNull() iff isEmpty(); an empty node has size 0, no keys, and is neither an object nor atomic |
| DataDefaults.MissingKeyDefaults | data-all/data/src/main/java/tech/opencore/commons/data/Data.java:91-105 | a key the node does not hold reads as NULL, and both defaulting getters answer their default |
| DataDefaults.GetStringOrDefaultUse | data-all/data/src/main/java/tech/opencore/commons/data/Data.java:91-94 | the default of getString(property, d) changes the answer exactly when getString(property) is null |
| DataDefaults.GetLongOrDefaultUse | data-all/data/src/main/java/tech/opencore/commons/data/Data.java:99-105 | the default of getLong(property, d) changes the answer exactly when the property's data is empty |
| WriteProperties.ClearContract | data-all/data/src/main/java/tech/opencore/commons/data/GenericData.java:460-470 | clear() raises only on a non-empty immutable node and then changes nothing; an empty node is left as it is; otherwise the node becomes null with no keys and no array, and keeps its mutability |
| WriteProperties.SetValueGuard | data-all/data/src/main/java/tech/opencore/commons/data/GenericData.java:566-573 | a whole-value setter on a non-empty immutable node raises IllegalStateException and changes nothing |
| WriteProperties.SentinelAcceptsSetLong | data-all/data/src/main/java/tech/opencore/commons/data/GenericData.java:684-691 | setLong succeeds on the immutable sentinel NULL, which then reads the value and stays immutable |
| WriteProperties.SentinelBecomesMutable | data-all/data/src/main/java/tech/opencore/commons/data/GenericData.java:478-511 | set(value, true) on the immutable sentinel NULL returns, leaves NULL mutable and holding the copied integer, and a keyed setter on it then succeeds and stores the property |
| WriteProperties.SetValueRoundTrip | data-all/data/src/main/java/tech/opencore/commons/data/GenericData.java:566-691 | on a mutable or empty node, setBoolean, setString and setLong return, leave one atomic unkeyed value, and read back through the matching getter |
| WriteProperties.NarrowSettersRoundTrip | data-all/data/src/main/java/tech/opencore/commons/data/GenericData.java:743-868 | setInt, setShort and setByte read back unchanged through getLong, getInt, getShort and getByte |
| WriteProperties.RenderedStringReadsAsLong | data-all/data/src/main/java/tech/opencore/commons/data/GenericData.java:298-299 | setString(Long.toString(v)) reads back as the long v, is integral, and getInt gives v or NumberFormatException |
| WriteProperties.RenderedStringReadsAsBoolean | data-all/data/src/main/java/tech/opencore/commons/data/GenericData.java:242-243 | setString(Boolean.toString(b)) reads back through getBoolean as b |
| WriteProperties.PutAppendsOrReplaces | data-all/data/src/main/java/tech/opencore/commons/data/GenericData.java:529 | the map put appends a new key and replaces a present key's value in place |
| WriteProperties.PutLookup | data-all/data/src/main/java/tech/opencore/commons/data/GenericData.java:529 | after put the key holds the new value, every other key keeps its value, the key set gains the key and keys stay unique |
| WriteProperties.SetKeyedGuard | data-all/data/src/main/java/tech/opencore/commons/data/GenericData.java:516-518 | a keyed setter on an immutable node raises IllegalStateException and changes nothing |
| WriteProperties.SetKeyedOnNullOrScalar | data-all/data/src/main/java/tech/opencore/commons/data/GenericData.java:516-537 | on a mutable null or scalar node a keyed setter yields an object whose only entry is the property with the value as given |
| WriteProperties.SetKeyedOnObject | data-all/data/src/main/java/tech/opencore/commons/data/GenericData.java:516-537 | on a mutable object a keyed setter adds or replaces only that key; other keys keep their values and the size grows exactly when the key is new |
| WriteProperties.SetKeyedOnArray | data-all/data/src/main/java/tech/opencore/commons/data/GenericData.java:531-533 | on a mutable array a keyed setter works on get(0), the node stays an array of the same length, and it raises on an empty array or an empty first slot |
| WriteProperties.KeyedSetterRoundTrip | data-all/data/src/main/java/tech/opencore/commons/data/GenericData.java:693-714 | setLong(property, v) then getLong(property, d) is v, and setString(property, s) then getString(property, d) is s, or d when s is null |
| WriteProperties.KeyedDataReadsThrough | data-all/data/src/main/java/tech/opencore/commons/data/GenericData.java:516-537 | after set(property, value) on a mutable null, scalar or object node, getLong(property, d) is the value's getLong, or d when the value is empty, and getString(property, d) is the value's string, or d when it is null |
| WriteProperties.ClearKeepsWellFormed | data-all/data/src/main/java/tech/opencore/commons/data/GenericData.java:460-470 | NULL and a new node are well formed (unique keys at every level), and clear() and the whole-value setters keep a node well formed |
| WriteProperties.PutKeepsWellFormed | data-all/data/src/main/java/tech/opencore/commons/data/GenericData.java:529 | put keeps every stored value well formed when the new value is |
| WriteProperties.SetKeyedKeepsWellFormed | data-all/data/src/main/java/tech/opencore/commons/data/GenericData.java:516-537 | a keyed setter storing a well-formed value keeps the node well formed |
| WriteProperties.CopyIntoKeepsWellFormed | data-all/data/src/main/java/tech/opencore/commons/data/GenericData.java:477-514 | set(value, mutable) keeps a well-formed node well formed, whatever the source and however the copy ends |
| WriteProperties.CopyEntriesKeepsWellFormed | data-all/data/src/main/java/tech/opencore/commons/data/GenericData.java:485-488 | the keyed copy loop keeps the node well formed |
| WriteProperties.FillSlotsKeepsWellFormed | data-all/data/src/main/java/tech/opencore/commons/data/GenericData.java:489-494 | the array copy loop keeps the node well formed |
| WriteProperties.CopyScalarKeepsWellFormed | data-all/data/src/main/java/tech/opencore/commons/data/GenericData.java:495-508 | the scalar branch of the copy changes only the tag and a payload field, leaving a non-null tag |
| WriteProperties.SetIndexedKeepsWellFormed | data-all/data/src/main/java/tech/opencore/commons/data/GenericData.java:539-564 | an indexed setter keeps a node well formed, whatever it stores and however it ends |
| WriteProperties.SetIndexedGuard | data-all/data/src/main/java/tech/opencore/commons/data/GenericData.java:539-541 | an indexed setter on an immutable node raises IllegalStateException and changes nothing |
| WriteProperties.SetIndexedOnArray | data-all/data/src/main/java/tech/opencore/commons/data/GenericData.java:558-560 | on a mutable array an indexed setter stores the child inside the bounds, leaving other slots alone, and raises ArrayIndexOutOfBoundsException with the node unchanged at any other index |
| WriteProperties.PromoteNegativeIndex | data-all/data/src/main/java/tech/opencore/commons/data/GenericData.java:553 | a negative index on a non-array node raises NegativeArraySizeException before anything changes |
| WriteProperties.NullNodeIndexZero | data-all/data/src/main/java/tech/opencore/commons/data/GenericData.java:552-557 | index 0 on a mutable null node raises ArrayIndexOutOfBoundsException and leaves an empty array |
| WriteProperties.PromotePositiveIndex | data-all/data/src/main/java/tech/opencore/commons/data/GenericData.java:543-560 | a positive index on a mutable non-array node always raises, leaving an array of index slots whose slot 0 reads as a null string |
| WriteProperties.CopyOfEmptySlots | data-all/data/src/main/java/tech/opencore/commons/data/GenericData.java:489-494 | a copy of an array of empty slots reads as a null string, and holds fresh empty nodes when it has several slots |
| WriteProperties.FillEmptySlots | data-all/data/src/main/java/tech/opencore/commons/data/GenericData.java:489-494 | the copy loop over empty slots stores a fresh empty node in every slot |
| WriteProperties.CopiedEntriesKeys | data-all/data/src/main/java/tech/opencore/commons/data/GenericData.java:485-488 | a keyed copy has exactly the source's keys |
| WriteProperties.CopyEntriesSpec | data-all/data/src/main/java/tech/opencore/commons/data/GenericData.java:485-488 | the keyed copy loop completes exactly when every child copies, and then holds each key with a copy of its value, in the source's order |
| WriteProperties.FillSlotsSpec | data-all/data/src/main/java/tech/opencore/commons/data/GenericData.java:489-494 | the array copy loop completes exactly when every element copies, and then holds a copy of each element |
| WriteProperties.CopyOfEmpty | data-all/data/src/main/java/tech/opencore/commons/data/GenericData.java:480-483 | copying an empty source leaves the node as clear() left it and does not apply the requested mutability |
| WriteProperties.CopyKeyed | data-all/data/src/main/java/tech/opencore/commons/data/GenericData.java:485-488 | copying a keyed source into a mutable node gives an object with the source's keys, each holding a copy, with the requested mutability |
| WriteProperties.CopyKeyedIntoEmptyArray | data-all/data/src/main/java/tech/opencore/commons/data/GenericData.java:485-488 | copying a keyed source into a mutable empty array raises ArrayIndexOutOfBoundsException at the first key and leaves the node unchanged |
| WriteProperties.CopyArray | data-all/data/src/main/java/tech/opencore/commons/data/GenericData.java:489-494 | copying an array of more than one element gives an array of the same length holding copies, with the requested mutability |
| WriteProperties.CopyPrecedence | data-all/data/src/main/java/tech/opencore/commons/data/GenericData.java:495-508 | a one-element source is copied as integral, else numeric, else boolean, else string, each read through its getter |
| WriteProperties.CopyMutability | data-all/data/src/main/java/tech/opencore/commons/data/GenericData.java:511 | a completed copy of a non-empty source has the requested mutability |
| WriteProperties.RenderedLongCopiesAsIntegral | data-all/data/src/main/java/tech/opencore/commons/data/GenericData.java:496-498 | copying the text of a long yields that long as an integral node |
| WriteProperties.NonNumericStringCopiesAsBoolean | data-all/data/src/main/java/tech/opencore/commons/data/GenericData.java:496-507 | copying a string that is neither integral nor numeric yields a boolean, losing the text |
| WriteProperties.KeyedStoresIndexedCopies | data-all/data/src/main/java/tech/opencore/commons/data/GenericData.java:529-560 | set(String, Data) stores the caller's node as given while set(int, Data) stores a mutable copy |
| DataEquality.EqualsKeysSpec | data-all/data/src/main/java/tech/opencore/commons/data/GenericData.java:1107-1113 | the key loop answers true exactly when every remaining key's value equals the other node's value under that key |
| DataEquality.EqualsSlotsSpec | data-all/data/src/main/java/tech/opencore/commons/data/GenericData.java:1116-1122 | the position loop answers true exactly when the other node answers get(j) at every remaining position and each element equals it |
| DataEquality.EqualsEmptyAndAtomic | data-all/data/src/main/java/tech/opencore/commons/data/GenericData.java:1090-1096 | an empty node equals exactly the empty nodes; atomic nodes are equal exactly when their getString() values are, and a null string raises NullPointerException |
| DataEquality.EqualsKeyed | data-all/data/src/main/java/tech/opencore/commons/data/GenericData.java:1098-1114 | keyed nodes are equal exactly when the sizes match, the other node is keyed, and each key's value is equal |
| DataEquality.EqualsPositional | data-all/data/src/main/java/tech/opencore/commons/data/GenericData.java:1098-1122 | other non-empty nodes are arrays, equal exactly when the sizes match and each element equals the other node's get(j) |
| DataEquality.EqualsIgnoresMutability | data-all/data/src/main/java/tech/opencore/commons/data/GenericData.java:1078-1123 | changing either node's mutability never changes the answer of equals |
| DataEquality.NullStringNotReflexive | data-all/data/src/main/java/tech/opencore/commons/data/GenericData.java:1094-1096 | a string node holding null does not equal itself: equals raises NullPointerException |
| DataEquality.EqualsNotSymmetric | data-all/data/src/main/java/tech/opencore/commons/data/GenericData.java:1102-1122 | an array [1, 2] equals the object {"x": 1, "y": 2}, which does not equal the array |
| GenericDataObject.GenericData.constructor | data-all/data/src/main/java/tech/opencore/commons/data/GenericData.java:57 | a new node is null and mutable, with no array |
| GenericDataObject.GenericData.WithMutability | data-all/data/src/main/java/tech/opencore/commons/data/GenericData.java:59-61 | a new node is null with the given mutability |
| GenericDataObject.GenericData.CheckMutable | data-all/data/src/main/java/tech/opencore/commons/data/GenericData.java:1046-1050 | checkMutable raises IllegalStateException exactly when the node is immutable |
| GenericDataObject.GenericData.Clear | data-all/data/src/main/java/tech/opencore/commons/data/GenericData.java:460-470 | clear() updates the fields as DataWrite.Clear states |
| GenericDataObject.GenericData.SetValue | data-all/data/src/main/java/tech/opencore/commons/data/GenericData.java:566-573 | the whole-value setters update the fields as DataWrite.SetValue states |
| GenericDataObject.GenericData.SetKey | data-all/data/src/main/java/tech/opencore/commons/data/GenericData.java:516-537 | set(property, value) updates the fields as DataWrite.SetKeyed states |
| GenericDataObject.GenericData.SetKeyValue | data-all/data/src/main/java/tech/opencore/commons/data/GenericData.java:575-596 | setX(property, value) stores new GenericData().setX(value) under the property |
| GenericDataObject.GenericData.SetData | data-all/data/src/main/java/tech/opencore/commons/data/GenericData.java:472-475 | set(value) is the deep copy with the node's own mutability |
| GenericDataObject.GenericData.Set | data-all/data/src/main/java/tech/opencore/commons/data/GenericData.java:477-514 | set(value, mutable) updates the fields as DataWrite.CopyInto states |
| GenericDataObject.GenericData.CopyKeys | data-all/data/src/main/java/tech/opencore/commons/data/GenericData.java:485-488 | the keyed copy loop updates the fields as DataWrite.CopyEntries states |
| GenericDataObject.GenericData.CopySlots | data-all/data/src/main/java/tech/opencore/commons/data/GenericData.java:489-494 | the array copy loop fills a new array as DataWrite.FillSlots states |
| GenericDataObject.GenericData.CopyScalarFrom | data-all/data/src/main/java/tech/opencore/commons/data/GenericData.java:495-508 | the scalar branch of the copy updates the fields as DataWrite.CopyScalar states |
| GenericDataObject.GenericData.EnsureCapacity | data-all/data/src/main/java/tech/opencore/commons/data/GenericData.java:1038-1044 | ensureCapacity leaves the array field and its contents as they were |
| GenericDataObject.GenericData.WriteSlot | data-all/data/src/main/java/tech/opencore/commons/data/GenericData.java:558-560 | the array case of an indexed setter writes the slot as DataWrite.WriteSlot states |
| GenericDataObject.GenericData.SetIndex | data-all/data/src/main/java/tech/opencore/commons/data/GenericData.java:539-564 | set(index, value) and setX(index, value) update the fields as DataWrite.SetIndexed states |
| GenericDataObject.GenericData.EqualTo | data-all/data/src/main/java/tech/opencore/commons/data/GenericData.java:1078-1123 | equals answers DataEquality.Equals of the node's value |
| Corrected.GetIndexNeverRaises | data-all/data/src/main/java/tech/opencore/commons/data/GenericData.java:220-224 | with the bounds test written with \|\|, get(index) never raises, answers NULL outside an array's bounds, and agrees with the code inside them |
| Corrected.SentinelRejectsSetters | data-all/data/src/main/java/tech/opencore/commons/data/GenericData.java:460-470 | with checkMutable() ahead of clear() in the setters, the whole-value, keyed, indexed and copying setters on NULL raise IllegalStateException and leave it empty and immutable, every immutable node rejects the whole-value and copying setters, clear() on an empty node still returns, and on a mutable node the whole-value setters agree with the code |
| Corrected.WriteSlotStores | data-all/data/src/main/java/tech/opencore/commons/data/GenericData.java:1038-1044 | when the grown array is kept, an indexed write at any index below Integer.MAX_VALUE succeeds, the gap reads NULL, other slots are kept and get(index) answers the child |
| Corrected.PromotionKeepsValue | data-all/data/src/main/java/tech/opencore/commons/data/GenericData.java:553-557 | with the copy taken before the retag, and every copy the corrected one, an indexed set on a mutable null or scalar node succeeds below Integer.MAX_VALUE, get(index) answers the child, and slot 0 holds new GenericData(old node), where an integer or a boolean reads as itself and a string that is neither a number nor boolean text keeps its text |
| Corrected.IsBooleanMeansBooleanText | data-all/data/src/main/java/tech/opencore/commons/data/GenericData.java:96-102 | the corrected isBoolean holds of a string exactly when it spells true or false, and still guarantees getBoolean returns |
| Corrected.CopyKeepsText | data-all/data/src/main/java/tech/opencore/commons/data/GenericData.java:495-508 | with the corrected isBoolean and guard, copying a string that is not a number or a boolean into a mutable node keeps its text, boolean text becomes the boolean it spells, and an immutable target raises IllegalStateException unchanged |
| Corrected.CopyAppliesMutability | data-all/data/src/main/java/tech/opencore/commons/data/GenericData.java:480-483 | with the assignment on every returning path, a completed copy has the requested mutability, an empty source included |
| Corrected.EqualsReflexive | data-all/data/src/main/java/tech/opencore/commons/data/GenericData.java:1094-1096 | with a null-safe string comparison, equals is reflexive on every well-formed node |

## Left out

- serialize and deserialize (GenericData.java:1062-1076): Java object serialization through streams.
- Floating point: setDouble, setFloat, getFloat and the (float) and (double) conversions. A double
  is represented by what the core observes of it (its text, its (long) and (int) casts, and whether
  it is zero). Double.parseDouble and the widening of a long to double are parameters (`FloatOps`).
- hashCode (GenericData.java:1125-1152): its 32-bit sums of String hash codes belong to the Java library.
- getDataFactory and createData (GenericData.java:1052-1060): they return this and a new node.
- nio/src/main/java/tech/opencore/commons/nio/ssl/SSLChannel.java and its test: TLS over network
  channels, not part of this model.
- Aliasing: children are values, so a mutation through one reference is not seen through another.
  This affects the sentinel NULL after a whole-value setter on it succeeds (the value itself is
  modelled, see "## Findings"), a keyed set that stores the caller's node, and set(Data) of a node
  into itself.
- equals against a Java null or an object that is not a Data (GenericData.java:1080-1086): the other
  side is always a node here.
- Java null: null property keys, null String arguments to the keyed getters, and null Data
  arguments. set(property, null) stores a null that get(property) answers as NULL while size()
  counts it, and set(null) and set(index, null) raise NullPointerException at value.isNull();
  keys are strings and every Data argument is a node here.
- Digits outside ASCII, which Java's parsers also accept.
- The constructors GenericData(Data) and GenericData(Data, mutable) are a new node followed by
  GenericData.Set, as DataWrite.Copy states; they have no member of their own.
- The getters by key and by index, getX(property) and getX(index), are the getter applied to
  get(property) or get(index); they have no member of their own.
- The keyed copy and the keyed equals read a child as the entry's value rather than through
  get(key). With unique keys the two agree (DataNode.LookupFinds); NULL and a new node have unique
  keys, and the ...KeepsWellFormed lemmas of WriteProperties show every mutator keeps them.
- isMutable() (GenericData.java:456-458) only reads the field.
- WriteProperties.CopyMutability: states the requested mutability only for a non-empty source,
  because the code returns early on an empty one (see "## Findings").
- WriteProperties.PromotePositiveIndex: states that slot 0 reads as a null string rather than the
  old value, because the code copies the node after retagging it (see "## Findings").

## Findings

| source | as written | input that shows it | evidently intended | confidence | as-written member | corrected member |
|---|---|---|---|---|---|---|
| data-all/data/src/main/java/tech/opencore/commons/data/GenericData.java:221 | `index < 0 && index > array.length` can never hold, so an out-of-range index reaches the raw access | get(-1) or get(2) on an array of length 2 raises ArrayIndexOutOfBoundsException | `index < 0 \|\| index >= array.length`, answering NULL as every other kind does | not executed | DataNode.GetIndexByKind | Corrected.GetIndexNeverRaises |
| data-all/data/src/main/java/tech/opencore/commons/data/GenericData.java:460-464 | clear() returns on an empty node before checkMutable(), so the setters that start with clear() write into an empty immutable node, the shared sentinel NULL included, and set(value, true) even makes NULL mutable, after which the keyed and indexed setters accept it too | setLong(7) on GenericData.NULL returns and NULL then reads 7; NULL.set(new GenericData(7), true) returns and leaves NULL mutable | checkMutable() at the start of setBoolean, setString, setLong and set(Data, mutable), before their clear(); clear() itself keeps returning on an empty node, so clearing data that is already empty, NULL included, stays harmless | not executed | WriteProperties.SentinelAcceptsSetLong | Corrected.SentinelRejectsSetters |
| data-all/data/src/main/java/tech/opencore/commons/data/GenericData.java:1038-1044 | the grown, NULL-filled copy is built and dropped, so the array never grows | setLong(2, 7) on a mutable array of length 2 raises ArrayIndexOutOfBoundsException | array = newArray, so the write at index succeeds | not executed | WriteProperties.SetIndexedOnArray | Corrected.WriteSlotStores |
| data-all/data/src/main/java/tech/opencore/commons/data/GenericData.java:553-557 | the node is retagged as an array of index slots before new GenericData(this), and the array has exactly index slots | setLong(1, 7) on the integral 5 raises, leaving a one-slot array whose slot reads as a null string; setLong(0, 7) on a null node raises | slot 0 keeps a copy of the old value and the array grows to hold index | not executed | WriteProperties.PromotePositiveIndex | Corrected.PromotionKeepsValue |
| data-all/data/src/main/java/tech/opencore/commons/data/GenericData.java:96-102 | Boolean.parseBoolean never throws, so isBoolean holds for every string and set(Data) copies "abc" as the boolean false | copying the string "abc" | isBoolean only for the text true or false, so "abc" is copied as a string | not executed | WriteProperties.NonNumericStringCopiesAsBoolean | Corrected.CopyKeepsText |
| data-all/data/src/main/java/tech/opencore/commons/data/GenericData.java:480-483 | an empty source returns before isMutable = mutable | new GenericData(NULL, false) is mutable | the copy has the requested mutability whatever the source | not executed | WriteProperties.CopyOfEmpty | Corrected.CopyAppliesMutability |
| data-all/data/src/main/java/tech/opencore/commons/data/GenericData.java:1095 | getString().equals(...) is called on a null string | a string node holding null compared with itself raises NullPointerException | a null-safe comparison, so equals is reflexive | not executed | DataEquality.NullStringNotReflexive | Corrected.EqualsReflexive |
