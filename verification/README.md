# Verified models of parts of the Geode native client

This project models five parts of the repository and proves what they are for.

**Checksums and the put/get exchange.** `CacheableHelper.CRC32` is a table-driven cyclic
redundancy check. The wrappers of the test objects feed it the little-endian bytes of their
values and combine the elements of containers by exclusive or. The put/get test stores keys,
values and checksums in a region from one client and compares them from another.
`Words`, `Gf2Division`, `Crc32Table`, `Crc32` and `Crc32Theory` show that the byte loop is
polynomial division and which changes it can miss. `LittleEndian`, `Checksums`,
`WrapperBytes` and `ContainerChecksums` carry this to objects. `Keys` and `PutGet` carry it to the exchange.

**Duplicate-detecting listener.** `DupListener` is a state machine over event streams; its
local check and its final counts together are shown to mean in-order, exactly-once delivery,
and what else is needed for that is stated.

**Indenting stream.** `OutputFormatter` is the per-character machine with a sink that may
fail at any call; `FormatterTheory` gives its meaning line by line and for nested blocks.

**Serializer templates.** `SerialValues`, `Serializer`, `SerializerTheory`,
`SerializerEncoding` and `SerializerCounterexamples` model the recursive writers and readers
for strings, wide strings, vectors and maps, nested to any depth. The readers keep one object for a whole loop and
append to it, so reading is not always the inverse of writing; the theory says exactly what
comes back and exactly when it is what was written.

**Diffie-Hellman context.** `SkAlgo`, `DiffieHellman`, `Cbc`, `DhContext` and `DhRun` model the
algorithm string, the shared secret in its 128-byte buffer, the choice of key and
initialisation vector, and encryption and decryption over any invertible block cipher.

`Options`, `Integers` and `Sequences` hold what several of them share. Code that updates objects or buffers in place
is modelled by classes and methods with loops, each tied by its contract to a function of
values; the lemmas are about those functions.

## How the model stands for the code

- A property that turns out false is kept with its counterexample and its exact condition:
  longs collide (`Checksums.LongCounterexample`, `Checksums.LongCollision`), a stream with
  lost and extra events can pass validation (`DupListener.LostAndExtraValidate`,
  `DupListener.ValidatedDelivery`), nested containers do not round-trip
  (`SerializerCounterexamples.NestedComesBackChanged`, `SerializerTheory.RoundTripIff`), formatted
  text cannot always be stripped (`FormatterTheory.StripLosesBlank`, `FormatterTheory.StripRecovers`),
  and a context used again may disagree with its peer (`DhRun.Marker`, `DhRun.ReuseIff`).
- Every lemma has automatic induction switched off, so that its proof rests on the steps
  written in it. The induction hypotheses that Dafny 4.11 adds for sequences of datatype
  values are not guarded by the element type, which can make them contradictory.
- Failed assertions, exceptions and NULL results are `None`, `false`, error codes or `null`.
- Random values, private keys and the outcome of each sink call are parameters.
- A region is a map that keeps what is put; `GetEntry` sees the same map as a get. What
  `InvalidateRegion` leaves in it is a parameter.
- C# integers are integers with their ranges written out; casts wrap explicitly. The listener's
  counter wraps at 32 bits.
- The size of a container takes as many bytes as `std::size_t` has, a parameter of the
  writers and readers. String lengths always take four. Wide characters are cut to 16 bits as
  the writer does. Line 113 of `ASBuiltins.hpp` names an undeclared type; it is read as the
  index type.
- A shared secret is written without leading zeros, as the crypto library's function does,
  although section 2.1.2 of RFC 2631 keeps them. The bytes behind it stay as they were.

## Model

| member | source | states |
|---|---|---|
| `Gf2Division.DivisionIdentity` | src/clicache/integration-test/BuiltinCacheableWrappersN.cs:98-113 | schoolbook division over GF(2): every dividend is quotient times generator plus remainder |
| `Gf2Division.DivisionUnique` | src/clicache/integration-test/BuiltinCacheableWrappersN.cs:98-113 | and quotient and remainder are the only ones, so "the remainder" is well defined |
| `Crc32Table.TableIsDivision` | src/clicache/integration-test/BuiltinCacheableWrappersN.cs:33-77 | each of the 256 table entries is its index after eight division steps by the reflected polynomial 0xEDB88320 |
| `Crc32Table.ShiftInjective` | src/clicache/integration-test/BuiltinCacheableWrappersN.cs:98-113 | any number of division steps is a bijection on the register |
| `Crc32.CRC32` | src/clicache/integration-test/BuiltinCacheableWrappersN.cs:98-113 | the loop returns the checksum of the buffer, which for a null or empty one is 0 |
| `Crc32.FoldIsBitRun` | src/clicache/integration-test/BuiltinCacheableWrappersN.cs:106-111 | the table-driven byte loop equals bit-serial division, from any register and for any bytes (section 8 of RFC 1952) |
| `Crc32Theory.ChecksumIsRemainder` | src/clicache/integration-test/BuiltinCacheableWrappersN.cs:98-113 | the complemented checksum of every buffer, the empty one included, is the remainder, by schoolbook division, of the message polynomial with its first 32 bits inverted |
| `Crc32Theory.CheckValue` | src/clicache/integration-test/BuiltinCacheableWrappersN.cs:98-113 | a known answer: the ASCII digits 1 to 9 have the checksum 0xCBF43926 |
| `Crc32Theory.ChecksumAffine` | src/clicache/integration-test/BuiltinCacheableWrappersN.cs:98-113 | the checksum of the bytewise exclusive or of three equally long buffers is the exclusive or of their checksums |
| `Crc32Theory.CollisionIffSilent` | src/clicache/integration-test/BuiltinCacheableWrappersN.cs:98-113 | two equally long buffers collide if and only if their difference leaves a zero register zero |
| `Crc32Theory.CollisionIffDivisible` | src/clicache/integration-test/BuiltinCacheableWrappersN.cs:98-113 | two equally long buffers collide if and only if the generator divides their difference |
| `Crc32Theory.BurstCaught` | src/clicache/integration-test/BuiltinCacheableWrappersN.cs:98-113 | no change confined to 32 consecutive bits keeps the checksum |
| `Crc32Theory.BurstMissedIffGenerator` | src/clicache/integration-test/BuiltinCacheableWrappersN.cs:98-113 | a change confined to 33 consecutive bits keeps it if and only if it is the generator itself |
| `Crc32Theory.FourByteWindow` | src/clicache/integration-test/BuiltinCacheableWrappersN.cs:98-113 | buffers that differ, and only inside a window of four bytes, have different checksums |
| `Crc32Theory.WindowCollision` | src/clicache/integration-test/BuiltinCacheableWrappersN.cs:98-113 | whether two windows collide does not depend on what surrounds them |
| `Crc32Theory.EightByteWindow` | src/clicache/integration-test/BuiltinCacheableWrappersN.cs:98-113 | two eight-byte windows collide if and only if the difference of the high words is that of the low words after 32 division steps |
| `LittleEndian.SplitIntoBytes` | src/clicache/integration-test/BuiltinCacheableWrappersN.cs:573-586 | the shift-and-mask loop fills the buffer with the low bytes of the value, lowest first |
| `LittleEndian.LeBytesValue` | src/clicache/integration-test/BuiltinCacheableWrappersN.cs:928-942 | those bytes stand for the value modulo 256^n: two's complement for negative values |
| `LittleEndian.LeBytesAt` | src/clicache/integration-test/BuiltinCacheableWrappersN.cs:928-942 | byte i is digit i of the value in base 256 |
| `LittleEndian.DigitsAreLeBytes` | src/clicache/integration-test/BuiltinCacheableWrappersN.cs:928-942 | and no other bytes are |
| `LittleEndian.LeBytesInjective` | src/clicache/integration-test/BuiltinCacheableWrappersN.cs:928-942 | values less than 256^n apart with the same n bytes are equal |
| `Checksums.WriteInteger` | src/clicache/integration-test/BuiltinCacheableWrappersN.cs:1942-1960 | the inner loop of the array wrappers appends the little-endian bytes of one element |
| `Checksums.WriteArray` | src/clicache/integration-test/BuiltinCacheableWrappersN.cs:1990-2008 | the outer loop writes the bytes of all elements in order |
| `Checksums.ArrayChecksum` | src/clicache/integration-test/BuiltinCacheableWrappersN.cs:2041-2059 | the array wrappers return the checksum of those bytes |
| `Checksums.IntegerChecksum` | src/clicache/integration-test/BuiltinCacheableWrappersN.cs:872-885 | the scalar wrappers return the checksum of the bytes of the value |
| `Checksums.GetListChecksum` | src/clicache/integration-test/BuiltinCacheableWrappersN.cs:2289-2308 | the list wrappers fold the non-null elements by exclusive or; no wrapper for an element is a failure |
| `Checksums.GetSetChecksum` | src/clicache/integration-test/BuiltinCacheableWrappersN.cs:1831-1847 | the set wrappers fold the keys by exclusive or |
| `Checksums.GetMapChecksum` | src/clicache/integration-test/BuiltinCacheableWrappersN.cs:1547-1573 | the map wrappers fold the entries by exclusive or |
| `Checksums.GetEntryChecksum` | src/clicache/integration-test/BuiltinCacheableWrappersN.cs:1556-1571 | an entry contributes the exclusive or of its key's and its value's checksum |
| `Checksums.GetChecksum` | src/clicache/integration-test/BuiltinCacheableWrappersN.cs:471-2492 | every modelled wrapper, nested containers included, computes ChecksumOf |
| `WrapperBytes.HoldsArrayBytes` | src/clicache/integration-test/BuiltinCacheableWrappersN.cs:1942-2059 | the bytes of an array are the digits of its elements in groups of their width, one after another |
| `WrapperBytes.HeldAt` | src/clicache/integration-test/BuiltinCacheableWrappersN.cs:1942-2059 | element k is in group k |
| `WrapperBytes.RepresentedChecksum` | src/clicache/integration-test/BuiltinCacheableWrappersN.cs:522-2059 | each scalar, string and array wrapper checksums exactly the bytes that represent the object, given by position and width |
| `WrapperBytes.SmallChecksums` | src/clicache/integration-test/BuiltinCacheableWrappersN.cs:471-477 | true has 1, false 0, the empty string 0 |
| `Checksums.NarrowChecksumInjective` | src/clicache/integration-test/BuiltinCacheableWrappersN.cs:471-942 | for bool, sbyte, char, short and int objects equal checksums mean equal objects |
| `Checksums.LongCollision` | src/clicache/integration-test/BuiltinCacheableWrappersN.cs:986-999 | two longs collide if and only if the difference of their high words is that of their low words after 32 division steps |
| `Checksums.LongCounterexample` | src/clicache/integration-test/BuiltinCacheableWrappersN.cs:986-999 | 0 and 0x1_DB71_0641 have the same checksum, so the law for the narrow types fails for long |
| `Checksums.ArrayElementChange` | src/clicache/integration-test/BuiltinCacheableWrappersN.cs:1942-2008 | short and int arrays (elements of at most four bytes) that differ in one element have different checksums |
| `Checksums.LongElementChange` | src/clicache/integration-test/BuiltinCacheableWrappersN.cs:2041-2059 | long arrays that differ in one element collide if and only if its old and new values do |
| `Checksums.HalfChangeCaught` | src/clicache/integration-test/BuiltinCacheableWrappersN.cs:2041-2059 | a change of one 32-bit half of a long is never such a collision |
| `ContainerChecksums.ParityDecides` | src/clicache/integration-test/BuiltinCacheableWrappersN.cs:1831-1847 | a fold by exclusive or depends only on which words occur an odd number of times |
| `ContainerChecksums.EnumerationOrderIrrelevant` | src/clicache/integration-test/BuiltinCacheableWrappersN.cs:2473-2492 | objects that differ only in the order in which they and the containers inside them enumerate, at any depth, have the same checksum, or both fail |
| `ContainerChecksums.PermutedItems` | src/clicache/integration-test/BuiltinCacheableWrappersN.cs:2473-2492 | every permutation of the elements is such a reordering |
| `ContainerChecksums.ListParts` | src/clicache/integration-test/BuiltinCacheableWrappersN.cs:2289-2308 | the checksum of a list is the exclusive or of those of its two parts, and fails if either does |
| `ContainerChecksums.ListOfOne` | src/clicache/integration-test/BuiltinCacheableWrappersN.cs:2289-2308 | a list of one object has its checksum, a list of a null or of nothing has 0 |
| `ContainerChecksums.SetParts` | src/clicache/integration-test/BuiltinCacheableWrappersN.cs:1831-1847 | the same for the parts of a set |
| `ContainerChecksums.SetOfOne` | src/clicache/integration-test/BuiltinCacheableWrappersN.cs:1831-1847 | a set of one key has its checksum, the empty set 0 |
| `ContainerChecksums.MapParts` | src/clicache/integration-test/BuiltinCacheableWrappersN.cs:1556-1571 | the checksum of a map is that of the set of its keys and of the list of its values combined, failing exactly when one of them does |
| `ContainerChecksums.NullValueFails` | src/clicache/integration-test/BuiltinCacheableWrappersN.cs:1563-1567 | a null value makes it fail |
| `ContainerChecksums.DictionaryAddsNothing` | src/clicache/integration-test/BuiltinCacheableWrappersN.cs:1758-1785 | a dictionary inside a container contributes 0 |
| `ContainerChecksums.ElementWrapper` | src/clicache/integration-test/CacheableWrapperN.cs:160-172 | any other element is handled by the only wrapper that takes its type, a string by the plain one |
| `ContainerChecksums.ContainersAreNoKeys` | src/clicache/integration-test/CacheableWrapperN.cs:189-204 | containers and arrays have no key wrapper |
| `ContainerChecksums.ListChecksumByParity` | src/clicache/integration-test/BuiltinCacheableWrappersN.cs:2289-2308 | elements whose checksums occur an even number of times cancel |
| `Keys.InitKeySucceeds` | src/clicache/integration-test/BuiltinCacheableWrappersN.cs:1031-1035 | making a key fails only for strings of size zero or less, and every key made has a checksum |
| `Keys.InitKeyInjective` | src/clicache/integration-test/BuiltinCacheableWrappersN.cs:451-1291 | below the number of keys of a type, different indices give different keys, through all casts and the padded decimals |
| `Keys.ScalarKeys` | src/clicache/integration-test/BuiltinCacheableWrappersN.cs:451-977 | a scalar key is the index modulo the range of the type; bool keys alternate |
| `Keys.StringKeys` | src/clicache/integration-test/BuiltinCacheableWrappersN.cs:1031-1291 | a string key is one letter repeated and the index in ten digits, as long as asked for; index 0 is the empty string |
| `Keys.KeyCounts` | src/clicache/integration-test/BuiltinCacheableWrappersN.cs:442-1020 | how many keys each type admits |
| `Keys.KeyEntryForm` | src/clicache/integration-test/PutGetTestsN.cs:41 | a key checksum is stored under KeyChecksum: and the index in decimal |
| `Keys.ValEntryForm` | src/clicache/integration-test/PutGetTestsN.cs:42 | a value checksum is stored under ValChecksum: and the index in decimal |
| `Keys.EntryNamesDistinct` | src/clicache/integration-test/PutGetTestsN.cs:41-42 | the names of the checksum entries are distinct for distinct indices and kinds |
| `Keys.KeysAreNotNames` | src/clicache/integration-test/PutGetTestsN.cs:773-797 | no key is the name of a checksum entry |
| `PutGet.Client.InitKeys` | src/clicache/integration-test/PutGetTestsN.cs:101-126 | clamps the count to the type's, and fills the keys and their checksums; fails exactly for a count of zero or less or an unusable string size |
| `PutGet.Client.InitValues` | src/clicache/integration-test/PutGetTestsN.cs:131-152 | fills the values and their checksums; fails exactly when there are none or one has no checksum |
| `PutGet.Client.DoPuts` | src/clicache/integration-test/PutGetTestsN.cs:159-190 | puts every value under its key, also a null after removing the entry |
| `PutGet.Client.DoKeyChecksumPuts` | src/clicache/integration-test/PutGetTestsN.cs:773-784 | puts every key checksum as a signed int under its name |
| `PutGet.Client.DoValChecksumPuts` | src/clicache/integration-test/PutGetTestsN.cs:786-797 | puts every value checksum as a signed int under its name |
| `PutGet.Client.DoGetsVerify` | src/clicache/integration-test/PutGetTestsN.cs:840-902 | passes if and only if every key is found with a value that is not null and both checksums agree with the stored ones |
| `PutGet.PutsSurvive` | src/clicache/integration-test/PutGetTestsN.cs:159-190 | after all three rounds of puts every key still has its value and both its checksums: nothing overwrote anything |
| `PutGet.VerificationComplete` | src/clicache/integration-test/PutGetTestsN.cs:840-902 | over a faithful region the verification passes if and only if none of the values put is null |
| `PutGet.VerificationSound` | src/clicache/integration-test/PutGetTestsN.cs:840-902 | whatever happened to the region, a pass means that every stored key checksum is that of the key, and with the value checksums intact that values have equal checksums and for the narrow types are equal |
| `PutGet.KeyEntryDecides` | src/clicache/integration-test/PutGetTestsN.cs:856-868 | after a pass, another object in place of a key checksum passes if and only if it is the int of the key's checksum |
| `PutGet.ValEntryDecides` | src/clicache/integration-test/PutGetTestsN.cs:870-873 | and in place of a value checksum if and only if it is that of the value |
| `PutGet.MissingFails` | src/clicache/integration-test/PutGetTestsN.cs:850-873 | without the key, its value or either checksum entry verification fails |
| `PutGet.CastsKeepResidue` | src/clicache/integration-test/PutGetTestsN.cs:780 | the casts between int and uint keep the value modulo 2^32 |
| `PutGet.LongAcceptedIff` | src/clicache/integration-test/PutGetTestsN.cs:840-902 | if a long passes, one that replaces it in the region passes if and only if its halves match those of the first |
| `PutGet.SameSetupSameKeys` | src/clicache/integration-test/PutGetTestsN.cs:101-126 | clients that initialise with the same type, count and size have the same keys |
| `PutGet.PutThenVerify` | src/clicache/integration-test/PutGetTestsN.cs:929-932 | one direction of the exchange, and when the other client passes |
| `PutGet.PutGetSteps` | src/clicache/integration-test/PutGetTestsN.cs:924-944 | both directions with an invalidation between them pass if and only if neither client puts a null |
| `PutGet.TestKeyValuePair` | src/clicache/integration-test/PutGetTestsN.cs:983-999 | from fresh clients: the exact condition on counts, sizes and values under which the whole exchange passes |
| `DupListener.Listener.Check` | src/clicache/integration-test/DupListenerN.cs:56-72 | counts the event; a first value of its key, or one more than the last, is stored, and any other is reported and not stored |
| `DupListener.Listener.Handle` | src/clicache/integration-test/DupListenerN.cs:89-112 | create and update events are checked, all others change nothing |
| `DupListener.Listener.Validate` | src/clicache/integration-test/DupListenerN.cs:74-85 | passes if and only if there are four keys, 400 operations and every last value is 100 |
| `DupListener.Deliver` | src/clicache/integration-test/DupListenerN.cs:56-97 | a listener that was sent a stream of events is in the state Run gives, and failed once per rejected event |
| `DupListener.RunInvariant` | src/clicache/integration-test/DupListenerN.cs:56-72 | in every run the values kept for a key are consecutive from its first one and end with the stored one |
| `DupListener.OpsCountsChecks` | src/clicache/integration-test/DupListenerN.cs:56-58 | the operation counter is the number of checked events, with 32-bit wrap-around |
| `DupListener.Conservation` | src/clicache/integration-test/DupListenerN.cs:56-72 | every checked event is kept for exactly one key or rejected |
| `DupListener.EventsAreSpans` | src/clicache/integration-test/DupListenerN.cs:56-72 | the events are the sum over the keys of last - first + 1, plus the rejected ones |
| `DupListener.ValidationBalance` | src/clicache/integration-test/DupListenerN.cs:74-85 | if validation passes and first values are at least 1, nothing was rejected if and only if each key got 1 to 100 exactly once |
| `DupListener.ValidatedDelivery` | src/clicache/integration-test/DupListenerN.cs:74-85 | for an accepted, validated stream: every key received exactly 1 to 100 in order if and only if all first values are at least 1 |
| `DupListener.LostAndExtraValidate` | src/clicache/integration-test/DupListenerN.cs:74-85 | without that condition a stream with lost and extra events passes validation |
| `OutputFormatter.OutputFormatStreamBuf.constructor` | contrib/pdxautoserializer/src/OutputFormatter.cpp:28-43 | a new formatter is at level 0, at the start of a line, after no open brace |
| `OutputFormatter.OutputFormatStreamBuf.Overflow` | contrib/pdxautoserializer/src/OutputFormatter.cpp:63-92 | one character: the indentation and the character are offered to the sink in order until it fails, and the new state in each case |
| `OutputFormatter.OutputFormatStreamBuf.Write` | contrib/pdxautoserializer/src/OutputFormatter.cpp:63-92 | a text reaches the sink formatted, or a prefix of that up to the first failure |
| `OutputFormatter.WriteAll` | contrib/pdxautoserializer/src/OutputFormatter.cpp:63-92 | so does any sequence of writes: the chunking does not matter |
| `OutputFormatter.AfterConcat` | contrib/pdxautoserializer/src/OutputFormatter.cpp:63-92 | formatting a concatenation is formatting its parts one after the other |
| `FormatterTheory.LineAndEnd` | contrib/pdxautoserializer/src/OutputFormatter.cpp:63-92 | a line gets its indentation, and changes the level by its opening and closing braces |
| `FormatterTheory.FormatsByCounting` | contrib/pdxautoserializer/src/OutputFormatter.cpp:63-92 | each line of any text is indented by the level counted from the lines before it; empty lines and lines starting with # are not |
| `FormatterTheory.WritesItems` | contrib/pdxautoserializer/src/OutputFormatter.cpp:63-92 | block-structured text is pretty-printed: the level is restored after every block and never falls below it inside, at every depth |
| `FormatterTheory.EraseInsertions` | contrib/pdxautoserializer/src/OutputFormatter.cpp:63-92 | erasing what was inserted gives back the text |
| `FormatterTheory.StripFormatted` | contrib/pdxautoserializer/src/OutputFormatter.cpp:63-92 | formatting changes a text only in the indent characters at the start of its lines |
| `FormatterTheory.StripLosesBlank` | contrib/pdxautoserializer/src/OutputFormatter.cpp:63-92 | the one-line text " x" with a blank as indent character is not recovered |
| `FormatterTheory.StripRecovers` | contrib/pdxautoserializer/src/OutputFormatter.cpp:63-92 | stripping them recovers the text if and only if no line of it starts with an indent character |
| `SerialValues.CompareLaws` | contrib/pdxautoserializer/src/ASBuiltins.hpp:93-102 | the key order is total: zero only for equal values, and antisymmetric |
| `SerialValues.CompareTransitive` | contrib/pdxautoserializer/src/ASBuiltins.hpp:93-102 | and transitive |
| `SerialValues.LessIff` | contrib/pdxautoserializer/src/ASBuiltins.hpp:93-102 | it is the lexicographic order of the standard containers: a prefix comes first, otherwise the first difference decides, for strings, wide strings, vectors and maps |
| `SerialValues.Canonical` | contrib/pdxautoserializer/src/ASBuiltins.hpp:93-102 | a map has one list of entries in key order |
| `SerialValues.InsertAsMap` | contrib/pdxautoserializer/src/ASBuiltins.hpp:115 | storing an entry overrides or adds exactly its key |
| `SerialValues.InsertSorted` | contrib/pdxautoserializer/src/ASBuiltins.hpp:115 | and keeps the key order |
| `Serializer.BigEndianRoundTrip` | src/cppcache/include/geode/DataOutput.hpp:193-239 | integers are read back as they were written |
| `Serializer.DataOutput.WriteASCIIHuge` | src/cppcache/include/geode/DataOutput.hpp:357-367 | a string is its length in four bytes and its bytes |
| `Serializer.DataOutput.WriteUTFHuge` | src/cppcache/include/geode/DataOutput.hpp:487-502 | a wide string is its length and the low 16 bits of each character |
| `Serializer.DataInput.ReadInt` | src/cppcache/include/geode/DataInput.hpp:192-233 | reads the number in front of the buffer, or fails without moving |
| `Serializer.DataInput.ReadBytesOnly` | src/cppcache/include/geode/DataInput.hpp:117-123 | reads exactly that many bytes, or fails |
| `Serializer.DataInput.ReadWideChars` | src/cppcache/include/geode/DataInput.hpp:557-576 | reads that many characters of two bytes each, or fails |
| `Serializer.WriteObject` | contrib/pdxautoserializer/src/ASBuiltins.hpp:35-102 | the writers append Written, the encoding of the value, at every nesting depth |
| `Serializer.WriteVector` | contrib/pdxautoserializer/src/ASBuiltins.hpp:67-75 | the loop over a vector |
| `Serializer.WriteMap` | contrib/pdxautoserializer/src/ASBuiltins.hpp:93-102 | the loop over a map, in key order |
| `Serializer.ReadObject` | contrib/pdxautoserializer/src/ASBuiltins.hpp:41-119 | the readers leave in target and buffer what Read says, and fail when it does, at every nesting depth |
| `Serializer.ReadVector` | contrib/pdxautoserializer/src/ASBuiltins.hpp:78-90 | the loop that reads into one object and appends copies of it |
| `Serializer.ReadMap` | contrib/pdxautoserializer/src/ASBuiltins.hpp:105-119 | the loop that reads into one key and one value and stores copies of them |
| `SerializerTheory.ReadWritten` | contrib/pdxautoserializer/src/ASBuiltins.hpp:35-119 | reading what was written, into any target of the type, consumes exactly those bytes and leaves ReadBack |
| `SerializerTheory.FlatVector` | contrib/pdxautoserializer/src/ASBuiltins.hpp:67-90 | a vector of strings or wide strings is appended to the target, its wide characters cut to 16 bits |
| `SerializerTheory.NestedVector` | contrib/pdxautoserializer/src/ASBuiltins.hpp:78-90 | a vector of vectors of any depth: after the target's elements, element i is the first i + 1 inner contributions together |
| `SerializerTheory.MapReadBack` | contrib/pdxautoserializer/src/ASBuiltins.hpp:105-119 | a map of any type: the target overridden by the successive states of key and value, still in key order |
| `SerializerTheory.FlatKeyedMap` | contrib/pdxautoserializer/src/ASBuiltins.hpp:105-119 | with flat keys: the result has the keys of the target and the cut keys written, and each of these holds the state of val when it was last stored |
| `SerializerTheory.FlatMap` | contrib/pdxautoserializer/src/ASBuiltins.hpp:105-119 | with flat keys and values the result is the target overridden by what was written, cut to 16 bits; as it is if it fits |
| `SerializerTheory.KeysKept` | contrib/pdxautoserializer/src/ASBuiltins.hpp:105-119 | keys that fit 16 bits are not changed by the cut, and none is stored again later |
| `SerializerTheory.MapOfVectors` | contrib/pdxautoserializer/src/ASBuiltins.hpp:105-119 | with vector values, the cut key i in key order holds the values of the first i + 1 keys together, unless a later key is cut to the same |
| `SerializerTheory.FaithfulSuffices` | contrib/pdxautoserializer/src/ASBuiltins.hpp:35-119 | a value of any type that meets the condition Faithful comes back unchanged |
| `SerializerTheory.MapRoundTripIff` | contrib/pdxautoserializer/src/ASBuiltins.hpp:105-119 | a map of any type comes back unchanged if and only if the states of key and val and the target restore it |
| `SerializerTheory.ReadBackNarrow` | contrib/pdxautoserializer/src/ASBuiltins.hpp:57-119 | reading never leaves a wide map key above 16 bits in a target that had none |
| `SerializerTheory.StatesAreKeys` | contrib/pdxautoserializer/src/ASBuiltins.hpp:105-119 | for keys without maps inside: if every state of key is a key of the map, the states are its keys |
| `SerializerTheory.FaithfulNeeded` | contrib/pdxautoserializer/src/ASBuiltins.hpp:35-119 | only Faithful values come back unchanged, if no map occurs inside a map key and not both target and value hold wide keys above 16 bits |
| `SerializerTheory.RoundTripIff` | contrib/pdxautoserializer/src/ASBuiltins.hpp:35-119 | so under that condition, writing and reading gives the same value if and only if it is Faithful for the target |
| `SerializerTheory.FreshRoundTripIff` | contrib/pdxautoserializer/src/ASBuiltins.hpp:35-119 | from an empty start this holds for every value whose type has no map inside a map key |
| `SerializerCounterexamples.HiddenKey` | contrib/pdxautoserializer/src/ASBuiltins.hpp:105-119 | a map read over a target that already holds its wide key above 16 bits comes back unchanged although it is not Faithful |
| `SerializerCounterexamples.HiddenMapKey` | contrib/pdxautoserializer/src/ASBuiltins.hpp:105-119 | so does a map keyed by maps, read over a target that already holds one of the keys |
| `SerializerCounterexamples.NestedComesBackChanged` | contrib/pdxautoserializer/src/ASBuiltins.hpp:67-90 | [[a], [b]] comes back as [[a], [a, b]] for any two strings |
| `SerializerTheory.NestedChain` | contrib/pdxautoserializer/src/ASBuiltins.hpp:78-90 | for vectors of vectors that means: all but the last empty, and the last one faithful |
| `SerializerTheory.VectorOfVectors` | contrib/pdxautoserializer/src/ASBuiltins.hpp:67-90 | a vector of vectors of strings round-trips into an empty vector if and only if all inner vectors but the last are empty |
| `SerializerEncoding.PrefixFree` | contrib/pdxautoserializer/src/ASBuiltins.hpp:35-102 | encodings of one type followed by anything are equal only if the values agree in the low 16 bits of their wide characters and what follows is equal |
| `SerializerEncoding.SameBytesIff` | contrib/pdxautoserializer/src/ASBuiltins.hpp:35-102 | values have the same bytes if and only if they agree so, and no encoding is a proper prefix of another |
| `SerializerEncoding.StringForm` | contrib/pdxautoserializer/src/ASBuiltins.hpp:35-38 | a string is its length as a four-byte number, high byte first, and its bytes |
| `SerializerEncoding.WideForm` | contrib/pdxautoserializer/src/ASBuiltins.hpp:51-54 | a wide string is its length and each character's low 16 bits as a two-byte number |
| `SerializerEncoding.VectorForm` | contrib/pdxautoserializer/src/ASBuiltins.hpp:67-75 | a vector is its size as a number and its elements in order |
| `SerializerEncoding.MapForm` | contrib/pdxautoserializer/src/ASBuiltins.hpp:93-102 | a map is its size and its entries in order, each key before its value |
| `SerializerEncoding.EqualMapsSameBytes` | contrib/pdxautoserializer/src/ASBuiltins.hpp:93-102 | equal maps give identical bytes in whatever order they were filled |
| `SkAlgo.ToLowerCase` | src/cryptoimpl/DHImpl.cpp:284-287 | the loop that lowers the letters of the algorithm name |
| `SkAlgo.Alphabet` | src/cryptoimpl/DHImpl.cpp:284-287 | each capital letter is lowered to its small one, and each digit has its value |
| `SkAlgo.SpaceCodes` | src/cryptoimpl/DHImpl.cpp:290-292 | which characters are white space |
| `SkAlgo.SampleAesName` | src/cryptoimpl/DHImpl.cpp:289-295 | the string AES selects AES with 128 bits |
| `SkAlgo.SampleBlowfishName` | src/cryptoimpl/DHImpl.cpp:299-305 | the string Blowfish selects Blowfish with 128 bits |
| `SkAlgo.SampleDesedeName` | src/cryptoimpl/DHImpl.cpp:309-312 | the string DESede selects DESede with 192 bits |
| `SkAlgo.SampleUnknownName` | src/cryptoimpl/DHImpl.cpp:316-317 | the string des is unsupported |
| `SkAlgo.SampleBlowfish` | src/cryptoimpl/DHImpl.cpp:299-305 | a size after the colon is taken |
| `SkAlgo.SampleAes` | src/cryptoimpl/DHImpl.cpp:289-295 | also after white space and a sign, and with other characters behind it |
| `SkAlgo.SampleIllegal` | src/cryptoimpl/DHImpl.cpp:296-298 | other sizes are illegal |
| `SkAlgo.EverySizeText` | src/cryptoimpl/DHImpl.cpp:290-292 | every text is white space, a sign, digits, each possibly missing, and a rest |
| `SkAlgo.AtoiText` | src/cryptoimpl/DHImpl.cpp:290-292 | such a text is read as its number, 0 without digits, whatever the rest is |
| `SkAlgo.ParseSized` | src/cryptoimpl/DHImpl.cpp:278-308 | a name in any letter case with any size text: accepted with its number if and only if that is legal for the cipher |
| `SkAlgo.ParseUnsized` | src/cryptoimpl/DHImpl.cpp:278-308 | a size text without digits is illegal |
| `SkAlgo.ParseNamed` | src/cryptoimpl/DHImpl.cpp:278-318 | a name alone gets the default size of its cipher, or is unsupported |
| `SkAlgo.ParseRejected` | src/cryptoimpl/DHImpl.cpp:309-318 | a size after DESede is illegal, after an unknown name the name is the error |
| `SkAlgo.CaseInsensitive` | src/cryptoimpl/DHImpl.cpp:278-318 | letter case never matters |
| `DiffieHellman.Agreement` | src/cryptoimpl/DHImpl.cpp:262-270 | each side's power of the other's public key is the same number |
| `DiffieHellman.PrimeFits` | src/cryptoimpl/DHImpl.cpp:44-49 | the modulus is below 256^128, so a secret fits the key buffer |
| `DiffieHellman.LongSecret` | src/cryptoimpl/DHImpl.cpp:269-270 | how many bytes a secret has |
| `DiffieHellman.SecretIsPower` | src/cryptoimpl/DHImpl.cpp:269-270 | the secret is the generator to the product of the private keys |
| `DiffieHellman.BigEndianAt` | src/cryptoimpl/DHImpl.cpp:269-270 | the bytes of a secret are its digits in base 256, highest first |
| `DiffieHellman.NoLeadingZero` | src/cryptoimpl/DHImpl.cpp:269-270 | without leading zeros |
| `DiffieHellman.BuffersAgreeIff` | src/cryptoimpl/DHImpl.cpp:269-270 | after the same secret, two key buffers agree on the used bytes if and only if the old bytes behind the secret do |
| `DhContext.SlicesFit` | src/cryptoimpl/DHImpl.cpp:326-343 | every legal setting has a cipher, and key and initialisation vector are adjacent slices inside the 128 bytes |
| `DhContext.CipherMatches` | src/cryptoimpl/DHImpl.cpp:326-343 | each algorithm has its own ciphers, and a cipher with a key length of its own has that of the setting |
| `DhContext.CipherDecides` | src/cryptoimpl/DHImpl.cpp:326-343 | equal ciphers mean equal algorithms, and except for Blowfish equal sizes |
| `DhContext.LegalSizes` | src/cryptoimpl/DHImpl.cpp:289-312 | the legal sizes are those of the AES ciphers, of triple DES, and 16 to 56 bytes for Blowfish |
| `DhContext.ConfiguredCipher` | src/cryptoimpl/DHImpl.cpp:278-343 | the block cipher that an algorithm string selects |
| `DhContext.PreparedSlices` | src/cryptoimpl/DHImpl.cpp:367-386 | key and initialisation vector together are the used bytes of the buffer, the key as long as the setting says and the vector one block |
| `DhContext.PreparedBySlice` | src/cryptoimpl/DHImpl.cpp:367-386 | encryption and decryption depend on the used bytes only |
| `DhContext.DHImpl.constructor` | src/cryptoimpl/DHImpl.hpp:89-94 | a new context has no keys, no cipher and a zero buffer |
| `DhContext.DHImpl.SetSkAlgo` | src/cryptoimpl/DHImpl.cpp:275-324 | sets cipher and size as parsed; on an error the code is returned and nothing changes |
| `DhContext.DHImpl.InitDhKeys` | src/cryptoimpl/DHImpl.cpp:76-113 | sets the cipher and makes a key pair, or does nothing for no algorithm or an illegal one |
| `DhContext.DHImpl.SetPublicKeyOther` | src/cryptoimpl/DHImpl.cpp:235-251 | replaces the other side's public key |
| `DhContext.DHImpl.ComputeSharedSecret` | src/cryptoimpl/DHImpl.cpp:262-273 | writes the secret over the front of the key buffer and leaves the rest |
| `DhContext.DHImpl.ClearDhKeys` | src/cryptoimpl/DHImpl.cpp:167-191 | forgets both keys and zeroes the buffer |
| `DhContext.DHImpl.EncryptDH` | src/cryptoimpl/DHImpl.cpp:345-412 | null for no input; otherwise the padded, chained encryption, at most 16 bytes longer and inside the buffer of len + 50 |
| `DhContext.DHImpl.DecryptDH` | src/cryptoimpl/DHImpl.cpp:414-481 | null for no input or a malformed one; otherwise the message, shorter than the input and inside the buffer of len + 50 |
| `Cbc.DecryptedIff` | src/cryptoimpl/DHImpl.cpp:345-481 | decryption gives a message if and only if the input is that message's encryption, for any invertible block cipher |
| `Cbc.EncryptCalls` | src/cryptoimpl/DHImpl.cpp:390-404 | the update and final calls together encrypt the padded message |
| `Cbc.DecryptCalls` | src/cryptoimpl/DHImpl.cpp:459-473 | the update and final calls together decrypt and unpad it, or fail |
| `Cbc.EncryptAt` | src/cryptoimpl/DHImpl.cpp:390-404 | each block is encrypted after exclusive or with the encrypted block before it, the first with the vector (section 6.2 of NIST SP 800-38A) |
| `Cbc.PaddedForm` | src/cryptoimpl/DHImpl.cpp:399-404 | padding fills up to whole blocks with 1 to block bytes, each of which is their number (section 6.3 of RFC 5652) |
| `Cbc.UnpaddedIff` | src/cryptoimpl/DHImpl.cpp:459-473 | padding is undone, and nothing else is accepted as padding |
| `DhRun.CrossDecrypt` | src/cryptoimpl/DHImpl.cpp:262-481 | with one setting and nothing stale in the buffers, each side decrypts exactly what the other encrypted |
| `DhRun.ReuseIff` | src/cryptoimpl/DHImpl.cpp:262-273 | a context used again agrees with a new one whatever its earlier secret, if and only if the new secret covers the used bytes |
| `DhRun.TwoPartyRun` | src/cryptoimpl/DHImpl.cpp:76-481 | from new contexts with equal settings a message in each direction arrives intact |

## Left out

- `src/sqliteimpl`, `src/cryptoimpl/SSLImpl.cpp` and `src/dhimpl`: thin wrappers over other libraries, or an older copy of the modelled code.
- Certificates, `gf_verifyDH`, the X.509 form of public keys and key store files: calls into the crypto library only; a public key is the number it carries.
- Public-key validity checks inside the crypto library: the secret is computed for every public key, as in section 2.1.1 of RFC 2631.
- `atoi` outside the range of int: undefined in C; the model uses the number as written, which is never a legal key size.
- Calls on a context without keys or without a cipher: the source dereferences NULL there, so the methods require them.
- Wrappers for float, double, dates, file names, string arrays, null, empty and undefined objects and Pdx data: floating point, calendar or reflection, and the same loops otherwise.
- `CacheableIdentityHashMapWrapper`: it iterates an empty dictionary, so its checksum is 0 in the model and nothing is proved about it.
- Uninitialised and null arrays of the put/get clients: modelled as empty ones.
- `DoGets`, queries, timing and logging of the put/get test; the other tests and listeners; `CacheHelper`: drivers for a region implementation that is not part of this model.
- The code generator's and parser's factories and `InputParser`: simple map lookups.
- Overflow of level times indent size in the formatter: the product is unbounded in the model.
- A serialised length of 2^31 or more in the input: the source's buffer check converts it to a negative number; the model fails instead.
- Events for keys of other types and null values in the listener: values are ints.
- SerializerTheory.FaithfulNeeded: not for types with maps inside map keys, and not when both target and value hold wide keys above 16 bits; there it is false, because a target that already holds a key can hide that it was not read back (SerializerCounterexamples.HiddenMapKey and HiddenKey). SerializerTheory.MapRoundTripIff gives the exact condition for every type.
- SerializerTheory.RoundTripIff: the same exceptions as SerializerTheory.FaithfulNeeded, for the same reason.
- DupListener.ValidationBalance: for fewer than 2^31 events, because the operation counter wraps.
- DupListener.ValidatedDelivery: for fewer than 2^31 events, because the operation counter wraps.
- DupListener.EventsAreSpans: for keys that do not count past the largest int, where last - first + 1 would wrap.
