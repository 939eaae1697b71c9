# ArchiveResourceManager in Dafny

A model of two pieces of the Java library `ArchiveResourceManager`, with
proofs about them.

1. **`JSONConverter`**, the value-tagging converter between a nested
   `Map<String,Object>` and a JSON object.
   - JSON has no timestamp or binary type. A timestamp, or a non-empty list
     of timestamps only, is written under its key followed by `@ISOtime`.
     A `byte[]`, or a non-empty list of them, is written under its key
     followed by `@base64`.
   - The reader uses the suffix to decode the text back into an instant or
     bytes.
   - Numbers are integral (`long`) or not (`double`).
   - The converter also has `doIndentation`, a pretty-printing pass over
     JSON text.
2. **The resource manager**: the concrete methods of `ArchiveResourceManager`
   (`getNumber`, the two-argument `getImage`, `readDataMap`, `writeDataMap`)
   over an abstract store, and the life cycle of `ZipArchiveResourceManager`.

Modules, leaves first:

| file | module | what it holds |
|---|---|---|
| `results.dfy` | `Results` | `Option` and `Result` (the Java exceptions) |
| `assoc_lists.dfy` | `AssocLists` | Java maps as entry sequences in iteration order; `put` and `putAll` |
| `base64.dfy` | `Base64` | the codec of section 4 of RFC 4648, as `java.util.Base64` writes and reads it |
| `instants.dfy` | `Instants` | instants and an abstract `ISO_INSTANT` formatter/parser pair |
| `values.dfy` | `Values` | the `Value` kinds the converter tells apart, and the JSON tree |
| `json_converter.dfy` | `JsonConverter` | `constructJSONObject`, `constructJSONArray`, `constructMap`, `fillMap`, `fillList*`, `toNumber` |
| `json_round_trip.dfy` | `JsonRoundTrip` | the write-then-read round trip, value by value and map by map |
| `json_properties.dfy` | `JsonProperties` | exact round trip, second-pass stability, null keys and values, failures, suffixed keys |
| `array_suffix_finding.dfy` | `ArraySuffixFinding` | the suffixed-array key defect (see Findings) |
| `indentation.dfy` | `Indentation` | `doIndentation`, and that deleting what it inserts gives the input back |
| `number_text.dfy` | `NumberText` | `Long.toString`, `Long.parseLong`, and the text classification of `getNumber` |
| `archive_resource_manager.dfy` | `ArchiveResources` | properties, numbers, images, `readDataMap` and `writeDataMap` over a store |
| `zip_archive_resource_manager.dfy` | `ZipArchive` | the `closed` flag, `checkValid`, `open`, `close`, and the unimplemented operations |

## Modelling choices

- **Maps.** A Java map is the sequence of its entries in iteration order.
  - `Put` is `Map.put`: it replaces the value of an existing key in place, or
    appends a new entry.
  - The JSON object builder keeps insertion order, and so does the model.
  - A `HashMap` iterates in hash order. The model uses insertion order there
    too, so a proved sequence equality implies the Java map equality.
- **Folds and errors.** The converter's loops are left folds. The first entry
  that fails decides the error, as the first exception does in the loop.
  Errors are a `ConversionError` datatype whose wrapping constructors carry
  the key, as the exception messages do.
- **ISO_INSTANT.** The formatter is an abstract `TimeCodec` (a formatter and
  a strict parser). `Instants.Valid` states the one property the converter
  relies on: the parser reads back every formatted instant.
- **Numbers.** A JSON number is the decimal `unscaled * 10^-scale`.
  - It is integral exactly when `scale == 0`, as `JsonNumber.isIntegral`
    decides for a `BigDecimal`.
  - An integral number becomes a `long` by keeping its low 64 bits
    (`Values.Wrap64`), as `longValue` does.
  - Doubles are not modelled beyond their decimal expansion (`Real`).
- **Strings and bytes.** Strings are `seq<char>`; bytes are a 0..255
  `newtype`.
- **The store.** The resource manager's store maps a locator to what it
  holds: a properties file, a JSON document or an image.
  - The abstract methods the concrete ones call are modelled by what their
    doc-comments promise: `getProperty`, `setProperty`, the three-argument
    `getImage`, and the streams.
  - I/O outcomes that do not depend on the store are parameters. These are
    whether the output stream opens, and whether `Double.parseDouble`
    accepts a text.
- **The zip manager.** `ZipArchiveResourceManager` is a record of the
  working directory, the `closed` flag and an abstract file system (sets of
  directory and file paths).

Where the code and the design description of the library disagree, the
model follows the code:

- **`readDataMap`.** The code puts the document's entries into the caller's
  map with `putAll`, overwriting keys the document has. It does not return a
  fresh map.
- **Repeated `close`.** A second `close` fails, because `checkValid` runs
  before `closed` is set. `flush` does not check anything, so it still
  succeeds on a closed manager.
- **Suffixed arrays.** The reader does not strip the suffix from a key whose
  value is an array (see Findings). The described design says that stripping
  exactly reverses the appending.
- **Read errors.** A read error names the raw JSON key, suffix included.

## Model

| member | source | states |
|---|---|---|
| AssocLists.PutLookup | src/hall/collin/christopher/util/JSONConverter.java:216-254 | after a `map.put` of the reader, the key maps to the new value and every other key to what it mapped to before |
| AssocLists.PutAllLookup | src/hall/collin/christopher/util/resources/ArchiveResourceManager.java:237 | after `putAll`, a key of the added map has the value of its last entry there, and any other key keeps its value |
| AssocLists.PutAllIntoEmpty | src/hall/collin/christopher/util/resources/ArchiveResourceManager.java:237 | `putAll` of entries with distinct keys into an empty map gives exactly those entries |
| Base64.Encode | src/hall/collin/christopher/util/JSONConverter.java:90-92 | every character of the encoding is in the RFC 4648 alphabet or is the `=` pad |
| Base64.EncodeLength | src/hall/collin/christopher/util/JSONConverter.java:90-92 | the encoding has four characters for every started group of three bytes |
| Base64.IndexOf | src/hall/collin/christopher/util/JSONConverter.java:82-84 | the decoder's reverse table inverts the alphabet and rejects every other character |
| Base64.Decode | src/hall/collin/christopher/util/JSONConverter.java:82-84 | text the decoder accepts holds only alphabet and pad characters |
| Base64.DecodeLength | src/hall/collin/christopher/util/JSONConverter.java:82-84 | the decoded length lies within the bounds that four characters per three bytes allow |
| Base64.DecodeEncode | src/hall/collin/christopher/util/JSONConverter.java:82-92 | decoding undoes encoding for every byte sequence ("reverse of parseAsByteArray") |
| Instants.FormatInjective | src/hall/collin/christopher/util/JSONConverter.java:64-74 | with a parser that reads back every formatted instant, no two instants share a text |
| Values.Wrap64 | src/hall/collin/christopher/util/JSONConverter.java:307-313 | the `long` of an integral number is congruent to it modulo 2^64, and equal to it in the `long` range |
| JsonConverter.LastIndexOf | src/hall/collin/christopher/util/JSONConverter.java:217 | `lastIndexOf` finds an occurrence after which there is none, or none at all |
| JsonConverter.StripSuffix | src/hall/collin/christopher/util/JSONConverter.java:216-219 | cutting at the last occurrence of a suffix the name ends with leaves the text that the suffix completes to the name |
| JsonConverter.ConstructJsonObject | src/hall/collin/christopher/util/JSONConverter.java:101-150 | writing succeeds exactly when every entry is of a supported kind; the object's names are distinct; a failure is "Failed to store entry" |
| JsonConverter.StoreEntry | src/hall/collin/christopher/util/JSONConverter.java:103-147 | a null key writes nothing; otherwise the member's name is the key with the kind's suffix, and a failure names the key |
| JsonConverter.StoreValue | src/hall/collin/christopher/util/JSONConverter.java:110-143 | a value is stored exactly when its kind is supported, under the key tagged for its kind |
| JsonConverter.ConstructJsonArray | src/hall/collin/christopher/util/JSONConverter.java:158-190 | a list is written exactly when it is a time list, a binary list, or a list of supported plain elements; the array has one element per item |
| JsonConverter.ListTagging | src/hall/collin/christopher/util/JSONConverter.java:192-200 | `isTimeList` and `isBinaryList` never both hold; a time list is written under key + `@ISOtime` as ISO texts, a binary list under key + `@base64` as base64 texts, and any other list under the bare key |
| JsonConverter.FormatTimes | src/hall/collin/christopher/util/JSONConverter.java:160-163 | a time list becomes one ISO text per instant |
| JsonConverter.EncodeByteArrays | src/hall/collin/christopher/util/JSONConverter.java:164-167 | a binary list becomes one base64 text per array |
| JsonConverter.ConstructGenericArray | src/hall/collin/christopher/util/JSONConverter.java:168-188 | an element-wise list is written exactly when every element is supported, one JSON element per item |
| JsonConverter.ArrayElement | src/hall/collin/christopher/util/JSONConverter.java:169-186 | a list element is written exactly when it is null, a number, a boolean, a text, or a writable map or list |
| JsonConverter.ToNumber | src/hall/collin/christopher/util/JSONConverter.java:307-313 | an integral JSON number is read as a `long` with the same value modulo 2^64; any other as the double of that decimal |
| JsonConverter.ConstructMapAsWritten | src/hall/collin/christopher/util/JSONConverter.java:206-210 | `constructMap` as written: the map read has distinct, non-null keys and a failure is "Error while parsing entry"; its round trip is `JsonProperties.ExactRoundTripAsWritten` and its defect `ArraySuffixFinding.SuffixDriftExample` |
| JsonConverter.ConstructMap | src/hall/collin/christopher/util/JSONConverter.java:206-210 | the corrected `constructMap`: the same guarantees on keys and failures, with the exact round trip `JsonProperties.ExactRoundTrip` |
| JsonConverter.FillMap | src/hall/collin/christopher/util/JSONConverter.java:211-261 | the map read has distinct, non-null keys; a failure is "Error while parsing entry" |
| JsonConverter.ParseValue | src/hall/collin/christopher/util/JSONConverter.java:216-256 | a non-array under a key ending in `@ISOtime` (else `@base64`) is read as an instant (bytes) under the key without its suffix, failing exactly when the text does not parse; under any other key the key is kept and only a nested object or array can fail; an array under a suffixed key keeps the suffix as written and loses it when corrected |
| JsonConverter.ParseTime | src/hall/collin/christopher/util/JSONConverter.java:64-66 | a JSON value is read as an instant exactly when it is a string the ISO parser accepts; otherwise the error is the bad text or the non-string |
| JsonConverter.ParseFormattedTime | src/hall/collin/christopher/util/JSONConverter.java:64-74 | `parseAsTime` reads back every text `timeToJSONEntry` writes, with a parser that inverts the formatter |
| JsonConverter.ParseBinary | src/hall/collin/christopher/util/JSONConverter.java:82-84 | a JSON value is read as bytes exactly when it is a string the base64 decoder accepts; otherwise the error is the bad text or the non-string |
| JsonConverter.ParseEncodedBinary | src/hall/collin/christopher/util/JSONConverter.java:82-92 | `parseAsByteArray` reads back every text `byteArrayToJSONEntry` writes |
| JsonConverter.ParseMember | src/hall/collin/christopher/util/JSONConverter.java:213-259 | a failing member's error carries its raw JSON name and value |
| JsonConverter.FillListWithTimes | src/hall/collin/christopher/util/JSONConverter.java:263-267 | a read time list has one instant per element |
| JsonConverter.FillListWithByteArrays | src/hall/collin/christopher/util/JSONConverter.java:268-272 | a read binary list has one byte array per element |
| JsonConverter.FillList | src/hall/collin/christopher/util/JSONConverter.java:273-305 | a read list has one value per element; a failure comes from a nested object |
| JsonConverter.ListElement | src/hall/collin/christopher/util/JSONConverter.java:275-303 | only a nested object or array can make a list element fail |
| JsonRoundTrip.SuffixesExclusive | src/hall/collin/christopher/util/JSONConverter.java:216-219 | no name ends in both `@ISOtime` and `@base64`, so the reader's two suffix branches never compete |
| JsonRoundTrip.KeyOfTaggedName | src/hall/collin/christopher/util/JSONConverter.java:112-129 | removing the suffix from the name a value is written under gives its key back, unless an untagged value sits under a key that itself ends in a suffix |
| JsonRoundTrip.TaggedNamesDistinct | src/hall/collin/christopher/util/JSONConverter.java:101-150 | distinct keys of round-tripping entries get distinct JSON names, so the object builder loses no entry |
| JsonRoundTrip.TimesRoundTrip | src/hall/collin/christopher/util/JSONConverter.java:263-267 | reading the texts of a written time list gives the instants back |
| JsonRoundTrip.ByteArraysRoundTrip | src/hall/collin/christopher/util/JSONConverter.java:268-272 | reading the texts of a written binary list gives the arrays back |
| JsonRoundTrip.EntriesRoundTrip | src/hall/collin/christopher/util/JSONConverter.java:94-95 | writing a round-tripping map succeeds, names its members with the tagged keys in order, and reading gives the map back with integral numbers as longs |
| JsonRoundTrip.EntryRoundTrip | src/hall/collin/christopher/util/JSONConverter.java:103-147 | one written entry is read back as its key and its value, integral numbers as longs |
| JsonRoundTrip.ValueRoundTrip | src/hall/collin/christopher/util/JSONConverter.java:110-143 | every kind of value that round-trips is written and read back under its own key |
| JsonRoundTrip.ScalarRoundTrip | src/hall/collin/christopher/util/JSONConverter.java:132-140 | null, numbers, booleans and texts are written and read back under the unchanged key |
| JsonRoundTrip.TimeRoundTrip | src/hall/collin/christopher/util/JSONConverter.java:112-114 | an instant is written as ISO text under key + `@ISOtime` and read back as the instant under the key |
| JsonRoundTrip.BinaryRoundTrip | src/hall/collin/christopher/util/JSONConverter.java:115-117 | a byte array is written as base64 under key + `@base64` and read back as the array under the key |
| JsonRoundTrip.TimeListRoundTrip | src/hall/collin/christopher/util/JSONConverter.java:124-125 | a time list is written under key + `@ISOtime` and, with the suffix stripped, read back under the key |
| JsonRoundTrip.BinaryListRoundTrip | src/hall/collin/christopher/util/JSONConverter.java:126-127 | a binary list is written under key + `@base64` and, with the suffix stripped, read back under the key |
| JsonRoundTrip.PlainItemsUntagged | src/hall/collin/christopher/util/JSONConverter.java:192-200 | a list of plain items is neither a time list nor a binary list |
| JsonRoundTrip.ItemsRoundTrip | src/hall/collin/christopher/util/JSONConverter.java:168-188 | an element-wise list is written and read back element for element |
| JsonRoundTrip.ItemRoundTrip | src/hall/collin/christopher/util/JSONConverter.java:275-303 | one plain list element is written and read back |
| JsonProperties.NormalizeGivesNormalForm | src/hall/collin/christopher/util/JSONConverter.java:307-313 | whatever the reader produces has every integral number as a `long` |
| JsonProperties.NormalFormFixed | src/hall/collin/christopher/util/JSONConverter.java:307-313 | a value already in the reader's form is left unchanged by its number handling |
| JsonProperties.NormalizeIdempotent | src/hall/collin/christopher/util/JSONConverter.java:307-313 | reading twice converts numbers no further than reading once |
| JsonProperties.ExactRoundTrip | src/hall/collin/christopher/util/JSONConverter.java:94-95 | `constructMap(constructJSONObject(m)) == m` for every round-tripping map in the reader's number form (the "reverse operation") |
| JsonProperties.ExactRoundTripAsWritten | src/hall/collin/christopher/util/JSONConverter.java:206-261 | the reader as written achieves the same when no suffixed list occurs at the top level of a map |
| JsonProperties.SecondPassStable | src/hall/collin/christopher/util/JSONConverter.java:384-406 | with the corrected reader, the self-test's first pass reads a written map in the reader's number form, and the second pass writes and reads that map back unchanged, for maps holding lists of instants or byte arrays too |
| JsonProperties.SecondPassStableAsWritten | src/hall/collin/christopher/util/JSONConverter.java:384-406 | the self-test as the source writes it: the same two passes through `constructMap` as written, for maps with no list of instants or byte arrays at the top level |
| JsonProperties.NullKeysSkipped | src/hall/collin/christopher/util/JSONConverter.java:107-109 | an entry with a null key is skipped entirely |
| JsonProperties.NullValueWritten | src/hall/collin/christopher/util/JSONConverter.java:110-111 | a null value is written as JSON null under its unchanged key, whatever the key; it is read back as null when the key has no suffix, and reading fails when the key ends in a suffix |
| JsonProperties.FirstFailureNamed | src/hall/collin/christopher/util/JSONConverter.java:145-147 | writing fails at the first unsupported entry, with "Failed to store entry" naming that key |
| JsonProperties.TaggedAmongOthersFails | src/hall/collin/christopher/util/JSONConverter.java:168-186 | an instant or byte array in a list not made of that kind alone makes the list fail |
| JsonProperties.TimeKeyRead | src/hall/collin/christopher/util/JSONConverter.java:216-217 | a non-array under key + `@ISOtime` is read as an instant under the key; bad text or a non-text fails naming the entry |
| JsonProperties.BinaryKeyRead | src/hall/collin/christopher/util/JSONConverter.java:218-219 | a non-array under key + `@base64` is read as bytes under the key; bad text or a non-text fails naming the entry |
| JsonProperties.IntegralReadAsLong | src/hall/collin/christopher/util/JSONConverter.java:132-134 | a Byte, Short, Integer or Long is written as a JSON integer and read back as the same `long` |
| JsonProperties.NestedTimeListReadAsTexts | src/hall/collin/christopher/util/JSONConverter.java:289-293 | a time list nested in a list is written as ISO texts and read back as plain texts, never suffix-decoded |
| ArraySuffixFinding.BinaryListKeepsSuffixAsWritten | src/hall/collin/christopher/util/JSONConverter.java:240-249 | as written, a binary list under `k` comes back under `k@base64` |
| ArraySuffixFinding.TimeListKeepsSuffixAsWritten | src/hall/collin/christopher/util/JSONConverter.java:240-249 | as written, a time list under `k` comes back under `k@ISOtime` |
| ArraySuffixFinding.SuffixDriftExample | src/hall/collin/christopher/util/JSONConverter.java:244-249 | the concrete map `{"b": [[1]]}` is not read back as written, and its key grows a second suffix on the next write |
| ArraySuffixFinding.BinaryListRoundTripCorrected | src/hall/collin/christopher/util/JSONConverter.java:240-249 | the corrected reader gives the binary list back under its own key |
| Indentation.Repeat | src/hall/collin/christopher/util/JSONConverter.java:330-332 | the indentation after a break is `max(level, 0)` copies of the indent unit |
| Indentation.AppendBreak | src/hall/collin/christopher/util/JSONConverter.java:329-333 | the inner loop appends a newline and as many indent units as the level, none for a negative level |
| Indentation.Step | src/hall/collin/christopher/util/JSONConverter.java:319-335 | one pass emits the character, then its break at the depth after it, and updates the level to that depth |
| Indentation.BreakAt | src/hall/collin/christopher/util/JSONConverter.java:328 | the break test with the `'\0'` sentinel holds exactly after `{`, `[`, `,` and before `}`, `]` |
| Indentation.DoIndentation | src/hall/collin/christopher/util/JSONConverter.java:315-340 | the output is every input character in order, each followed by its break |
| Indentation.UnindentIndented | src/hall/collin/christopher/util/JSONConverter.java:315-340 | for text without line breaks, deleting every inserted segment gives the input back |
| Indentation.NoBracketsUnchanged | src/hall/collin/christopher/util/JSONConverter.java:315-340 | text without brackets or commas is emitted unchanged |
| NumberText.LongToString | src/hall/collin/christopher/util/resources/ArchiveResourceManager.java:142 | the decimal text of a `long` has a minus sign exactly when it is negative, followed by digits only |
| NumberText.ParseLong | src/hall/collin/christopher/util/resources/ArchiveResourceManager.java:152 | `Long.parseLong` accepts exactly a signed run of digits whose value fits a `long`, and returns that value |
| NumberText.LongTextRoundTrip | src/hall/collin/christopher/util/resources/ArchiveResourceManager.java:142-152 | parsing the decimal text of any `long` gives it back |
| NumberText.ClassifyNumber | src/hall/collin/christopher/util/resources/ArchiveResourceManager.java:143-153 | `inf` alone is +∞ and `-inf` alone is −∞; exactly `nan` or `NaN` is NaN; a text with `.` is a double if it parses; otherwise a `long` or a NumberFormatException naming the text |
| NumberText.LongTextClassified | src/hall/collin/christopher/util/resources/ArchiveResourceManager.java:149-153 | the text of a `long` is classified as that `long` |
| NumberText.InfinityTextRejected | src/hall/collin/christopher/util/resources/ArchiveResourceManager.java:143-153 | `Infinity` and `-Infinity`, the texts `Double.toString` writes, are rejected |
| NumberText.OtherNaNCasingRejected | src/hall/collin/christopher/util/resources/ArchiveResourceManager.java:147-148 | `NAN` is not NaN and fails |
| ArchiveResources.GetProperty | src/hall/collin/christopher/util/resources/ArchiveResourceManager.java:98-107 | the stored property with nothing changed; or else the default, which is then stored; no other locator changes |
| ArchiveResources.SetProperty | src/hall/collin/christopher/util/resources/ArchiveResourceManager.java:108-116 | the property afterwards holds the new value; every other property of the file and every other locator is unchanged; a non-properties resource at the locator is an error |
| ArchiveResources.SetNumber | src/hall/collin/christopher/util/resources/ArchiveResourceManager.java:167-174 | the property afterwards holds the number's text |
| ArchiveResources.HasProperty | src/hall/collin/christopher/util/resources/ArchiveResourceManager.java:117-127 | a locator holding another kind of resource is an error, as it is for `getProperty` and `setProperty` |
| ArchiveResources.HasPropertyMeansNoDefault | src/hall/collin/christopher/util/resources/ArchiveResourceManager.java:98-127 | a property is present exactly when `getProperty` returns without storing the default, whatever the default |
| ArchiveResources.GetThenHas | src/hall/collin/christopher/util/resources/ArchiveResourceManager.java:98-127 | after `getProperty` succeeds, `hasProperty` is true |
| ArchiveResources.SetThenHas | src/hall/collin/christopher/util/resources/ArchiveResourceManager.java:108-127 | after `setProperty` succeeds, `hasProperty` is true for that property and unchanged for every other property at any locator |
| ArchiveResources.SetThenHasNumber | src/hall/collin/christopher/util/resources/ArchiveResourceManager.java:167-192 | a number set with `setNumber` is reported by `hasNumber` |
| ArchiveResources.HasNumber | src/hall/collin/christopher/util/resources/ArchiveResourceManager.java:185-192 | `hasNumber` fails exactly where `hasProperty` does, on a locator holding another kind of resource, and otherwise tells whether the property is set |
| ArchiveResources.GetNumber | src/hall/collin/christopher/util/resources/ArchiveResourceManager.java:139-157 | the classification of the property's text, with the store `getProperty` leaves even when the text fails |
| ArchiveResources.LongDefaultReturned | src/hall/collin/christopher/util/resources/ArchiveResourceManager.java:139-153 | an absent property with a `long` default reads as that `long`, which is then stored |
| ArchiveResources.StoredLongReturned | src/hall/collin/christopher/util/resources/ArchiveResourceManager.java:142-152 | a stored `long` is read back whatever the default, and nothing changes |
| ArchiveResources.SetThenGetLong | src/hall/collin/christopher/util/resources/ArchiveResourceManager.java:139-174 | a `long` set with `setNumber` is what `getNumber` reads |
| ArchiveResources.GetImageOr | src/hall/collin/christopher/util/resources/ArchiveResourceManager.java:193-204 | the stored image; else the supplier's image, which is stored; nothing is stored when the supplier yields null |
| ArchiveResources.GetImage | src/hall/collin/christopher/util/resources/ArchiveResourceManager.java:213-215 | the two-argument form stores nothing, and returns an image exactly when one is stored |
| ArchiveResources.ReadEntries | src/hall/collin/christopher/util/resources/ArchiveResourceManager.java:234-236 | the document is converted by `constructMap` as the source writes it; the map read has distinct keys, and a conversion failure is a parse error |
| ArchiveResources.ReadDataMap | src/hall/collin/christopher/util/resources/ArchiveResourceManager.java:233-238 | the merge succeeds exactly when reading does, fails with the reading error, and keeps keys distinct |
| ArchiveResources.ReadDataMapMerge | src/hall/collin/christopher/util/resources/ArchiveResourceManager.java:233-238 | after `readDataMap`, a key of the document has the document's value and every other key of the caller's map keeps its own |
| ArchiveResources.WriteDataMap | src/hall/collin/christopher/util/resources/ArchiveResourceManager.java:249-253 | the stream error comes first; then IllegalArgumentException exactly for an unsupported value; on success the locator holds the object `constructJSONObject` builds for the map, and no other locator changes |
| ArchiveResources.WriteThenRead | src/hall/collin/christopher/util/resources/ArchiveResourceManager.java:226-253 | a map the converter as written round-trips, one with no list of instants or byte arrays at the top level, is read back unchanged into an empty map after `writeDataMap` |
| ArchiveResources.WriteThenReadKeepsListSuffix | src/hall/collin/christopher/util/resources/ArchiveResourceManager.java:233-238 | a list of byte arrays written under `k` with `writeDataMap` is read back by `readDataMap` under `k@base64` |
| ZipArchive.New | src/hall/collin/christopher/util/resources/ZipArchiveResourceManager.java:50-53 | a freshly constructed manager is not closed |
| ZipArchive.CheckValid | src/hall/collin/christopher/util/resources/ZipArchiveResourceManager.java:65-69 | the closed-state error exactly when the manager is closed or its working directory is not a directory |
| ZipArchive.Open | src/hall/collin/christopher/util/resources/ZipArchiveResourceManager.java:79-84 | `open` fails exactly when the guard does; otherwise the archive's files are under the working directory and the manager is valid |
| ZipArchive.OpenFile | src/hall/collin/christopher/util/resources/ZipArchiveResourceManager.java:55-62 | opening into a new temporary directory always gives a valid manager holding the archive's files |
| ZipArchive.DeleteIfExists | src/hall/collin/christopher/util/resources/ZipArchiveResourceManager.java:172 | deleting a missing entry is not an error and changes nothing |
| ZipArchive.Close | src/hall/collin/christopher/util/resources/ZipArchiveResourceManager.java:140-173 | `close` fails exactly when the guard does; otherwise the manager is closed, nothing under the working directory remains, and everything else is kept |
| ZipArchive.Run | src/hall/collin/christopher/util/resources/ZipArchiveResourceManager.java:74-143 | `flush` never fails; any other operation on an invalid manager fails with the closed-state error; the unimplemented ones always fail |
| ZipArchive.StubsNotSupported | src/hall/collin/christopher/util/resources/ZipArchiveResourceManager.java:86-138 | on a valid manager the unimplemented operations fail with UnsupportedOperationException |
| ZipArchive.ClosedManagerRefuses | src/hall/collin/christopher/util/resources/ZipArchiveResourceManager.java:80-143 | after `close`, every operation but `flush` fails with the closed-state error |
| ZipArchive.CloseTwiceFails | src/hall/collin/christopher/util/resources/ZipArchiveResourceManager.java:141-143 | `close` is not idempotent: a second `close` fails |
| ZipArchive.OpenKeepsOpen | src/hall/collin/christopher/util/resources/ZipArchiveResourceManager.java:80-84 | `open` on a valid manager succeeds and leaves it open; `open` after `close` fails |
| ZipArchive.CloseRemovesWorkingDir | src/hall/collin/christopher/util/resources/ZipArchiveResourceManager.java:166-172 | after `close` the working directory itself is gone |

## Left out

- **Java arrays.** Wrapping a Java array with `Arrays.asList`
  (`JSONConverter.java:119-121`) is left out; only lists are modelled.
  `Arrays.asList` given one array object makes a one-element list, so every
  array other than `byte[]` fails anyway.
- **JSON text.** The JSON text itself (reading and writing by `javax.json`) is
  left out; the JSON tree is a datatype.
- **Other temporal values.** Only `java.time.Instant` is modelled as a time
  value, though Java tags every `TemporalAccessor` (`JSONConverter.java:112-114`
  and `194-196`). A `ZonedDateTime` or `OffsetDateTime` is written as its
  instant's text and read back as an `Instant`, so its round trip is not exact.
  A `LocalDate` or `LocalTime` is tagged `@ISOtime`, but `ISO_INSTANT.format`
  throws, which becomes "Failed to store entry". Both are outside the model.
- **Instant formatting.** The ISO-8601 calendar formatting of `ISO_INSTANT`
  is left out. It is an abstract formatter and parser, which the round-trip
  lemmas require to be inverse.
- **Floating point.** `doubleValue`, `Double.parseDouble`, and NaN and ∞
  arithmetic are left out. A double is its decimal expansion (`Real`), and
  whether `Double.parseDouble` accepts a text is a parameter of
  `NumberText.ClassifyNumber`.
- **Non-finite doubles.** Writing a NaN or infinite `Double` or `Float`
  fails in Java: the JSON builder throws NumberFormatException, which becomes
  "Failed to store entry". `Real` cannot hold such a value, so the model has
  no such failure.
- **Default texts.** `Number.toString` of the default passed to `getNumber`
  is the caller's text. Only `Long.toString` is modelled
  (`NumberText.LongToString`).
- NumberText.ParseLong: accepts ASCII digits only. `Long.parseLong` also
  accepts other Unicode decimal digits through `Character.digit`.
- **Locking.** The `ioLock` read/write locking in `getNumber`, `setNumber`
  and `hasNumber` is concurrency, and is left out. `getNumber` holds only the
  read lock while `getProperty` may store the default.
- **Image coding.** Image codecs, and formats inferred from file names, are
  left out; an image is an opaque value.
- **Missing implementations.** The zip manager has no implementation of
  properties, images, streams, `exists` or `save`. In `ArchiveResources`
  these are given their documented behaviour, over an abstract store. The
  two models are not composed: on a zip manager, `getNumber`, `readDataMap`
  and `writeDataMap` fail with UnsupportedOperationException, as
  `ZipArchive.StubsNotSupported` shows for the methods they call.
- ArchiveResources.ReadEntries: a missing resource (`getInputStream`
  returns null, so `Json.createReader` throws NullPointerException) and a
  document that is not a JSON object (`readObject` throws JsonException)
  are both the one error `Unreadable`.
- ArchiveResources.WriteDataMap: when conversion fails, the store is
  unchanged. In Java the output stream is already open and is never closed,
  so what the resource then holds depends on the implementation.
- **Zip extraction.** `ZipUtils`, which does the extraction and packing, is
  not part of this model. `ZipArchive.Open` adds the archive's entries as
  files under the working directory. It does not create their intermediate
  directories. It does not model the extraction swallowing IOExceptions.
- **Temporary directories.** Creating the temporary directory is modelled
  as adding the given path. `deleteOnExit` is left out.
- ZipArchive.Close: the file-tree walk is modelled by its net effect:
  everything under the working directory is removed. The visit order,
  `visitFileFailed` and symbolic links are left out.
- **`@Override` on `open`.** `ZipArchiveResourceManager.open` carries
  `@Override`, but the superclass has no such method. Its evident intent is
  modelled.
- **Unimplemented operations.** Deleting resources, listing sub-resources,
  XML documents and create-on-miss property sets are left out; the source
  has no implementation of them.
- **Error messages.** The text of exception messages is left out; only
  which error occurs and the key it names are modelled.
- **`SUPPORTED_BASIC_CLASSES`.** The constant (`JSONConverter.java:48`) is
  left out; the conversion does not use it.
- **Non-finite numbers.** There is no `setNumber` → `getNumber` round trip
  for non-finite values. `NumberText.InfinityTextRejected` shows that the
  texts `Infinity` and `-Infinity` are rejected.

## Findings

| source | as written | input that shows it | evidently intended | confidence | as-written member | corrected member |
|---|---|---|---|---|---|---|
| src/hall/collin/christopher/util/JSONConverter.java:240-249 | an array under a key ending in `@ISOtime` or `@base64` is decoded element-wise but stored under the whole key, suffix included (`map.put(name, list)`) | `{"b": [[1]]}`, a map holding a list with one one-byte array: it is written as `{"b@base64": ["AQ=="]}` and read back as `{"b@base64": [[1]]}`, and writing that gives `{"b@base64@base64": ["AQ=="]}` | the suffix is removed, as for a single value (lines 217 and 219) and as the "reverse operation" doc-comment (lines 94-95) promises | not executed; high | ArraySuffixFinding.SuffixDriftExample | JsonProperties.ExactRoundTrip |

The reader is `JsonConverter.FillMap` with a flag for suffixed array keys.
`JsonConverter.ConstructMapAsWritten` keeps the suffix, as the code does.
`ArraySuffixFinding.SuffixDriftExample` exhibits the discrepancy on the
input above. `JsonConverter.ConstructMap` strips the suffix.
`JsonProperties.ExactRoundTrip` proves the round trip for it, and
`JsonProperties.SecondPassStable` the self-test's second pass. The
resource-manager model reads documents as `readDataMap` does, with the reader
as written. `ArchiveResources.WriteThenReadKeepsListSuffix` shows the defect
reaching `readDataMap`.
