# GiftDataFormatter codec, modelled in Dafny

GiftDataFormatter writes the marked members of an object as one line of delimited text
and reads them back. This project models its codec and proves properties about it:

- **Framing.** A member is written `alias:value`. Members are joined by the type's member
  separator, which defaults to `;`.
- **Values.** Each value is written according to its declared type:
  - int, enum and long as decimal;
  - bool as `1` or `0`;
  - float, double and string between the quote marks `“` and `”`;
  - DateTime as decimal seconds since 1970.
- **Lists and arrays** are written `[item,item,...]`. **Maps** are written
  `{key::value,...}`.
- **Items.** Every list item and every map key or value carries its runtime type as a
  tag: `text#code`. The codes are 0-5 for the scalars, 20 for DateTime, 21 for ArrayList,
  22 for Array, 23 for List<> and 24 for Dictionary<,>.
- **Splitting.** Text is split by a depth-aware splitter. It never cuts inside a bracket,
  brace or quote region.
- **Decoding.** The reader is driven by the declared type. Inside an erased container
  (ArrayList, Array, List<>, Dictionary<,>) it rebuilds each item's type from the item's
  tag. For a nested list it also looks at the first element, and for a nested map at its
  first `key::value` pair.

## Modules and files

| file | module | contents |
|---|---|---|
| wrappers.dfy | Wrappers | `Result` and `Option` types, and the `Error` kinds the failures are sorted into (several stand for the same .NET exception; see "Left out"). |
| grammar.dfy | Grammar | The delimiter constants and the ordinal `StartsWith`. |
| numbers.dfy | Numbers | Decimal writing, and `Convert.ToInt32` / `Convert.ToInt64`: leading and trailing white space, an optional sign, digits, and their Format and Overflow failures. |
| type_tags.dfy | TypeTags, TypeTagProperties | The `Ty` datatype (the System.Type values the codec distinguishes), the SupportTypes table with its two linear searches, and `GetSupportItemType`. |
| values.dfy | Values | The runtime `Value` datatype and `RuntimeType` (GetType()). `Store` models how an int read back becomes an enum when it is stored in an enum slot. `SetElement` models `array[index] = v` (Array.SetValue, with its widening and null rules), `AddTo` models `list.Add(v)` and each half of `dic[k] = v` with their type checks, and `Put` models the indexer's effect on the entries. Keys of the container types, which do not override Equals, are compared by reference, so that each one the reader puts is a new key. |
| splitter.dfy | Splitter | `SplitOrganizedString`. The pure form is `Scan` over a three-counter `Depth` plus `Split`. The imperative form is the methods `FindSegmentEnd`, `CloseRegions` and `SplitOrganizedString`, each proved equal to the pure form. Also `SplitMemberItemString`. |
| splitter_props.dfy | SplitterProperties | The splitter cuts at the first separator outside every region. Its segments reassemble to the input and are each balanced. `Split(Join(pieces)) == pieces` holds for pieces without a top-level cut. |
| text_shape.dfy | TextShape | Which texts the encoder produces (value, item and entry texts) and why the splitter leaves them whole. |
| encoder.dfy | Encoder | `WriteObjectValue` as pure `Encode*` functions. The imperative `Write*` methods append to a `StringBuilder` class and are proved to append exactly the `Encode*` text. |
| encoder_shape.dfy | EncoderShape | The shape of every encoded value, item and entry. |
| decoder.dfy | Decoder | `ReadObjectValue`, `FindArrayOrListItemType`, `FindDictionaryItemType` and `FindDictionaryType` as pure functions, with the nested-list branch of FindDictionaryItemType as written and corrected. The imperative `Read*` methods fill lists and maps in loops and are proved equal to the functions. |
| round_trip.dfy | RoundTrip | Decoding inverts encoding for every value the format can carry (`RoundTrip`). |
| formatter.dfy | Formatter | `Serialize` (a StringBuilder loop) and `Deserialize` (nested loops that set the fields of a `Record` object). Each is proved against a pure function. |
| framing.dfy | Framing | The object-level round trip (`FramingRoundTrip`), the member-level readings as written and corrected, and the counterexample for the first finding. |
| read_back.dfy | ReadBackForm | The form a value takes when it is read back without its declared type (an enumeration inside an ArrayList comes back as its int), and the proof that this form is written as the same text as the value. |
| properties.dfy | Properties | The test's serialize, deserialize, serialize property, and behaviour at the edges (empty arrays, nested maps, unsupported types, the second finding). |

The reflection layer (member attributes, GetField/GetProperty) is replaced by a
sequence of `Member(name, alias, declared type, value)` descriptors. The object being
filled is replaced by a `Record` whose `fields` map starts at the type's defaults.

## Model

| member | source | states |
|---|---|---|
| Grammar.MarkersDistinct | GiftDataFormatter/GiftDataFormatter.cs:8-25 | The list, map and quote markers are the single characters `[ ] { } “ ”`, and none of the separators `;`, `:`, `#` and `,` is a marker. |
| Grammar.StartsWithChar | GiftDataFormatter/GiftDataFormatter.cs:439-453 | Testing a one-character marker with StartsWith is testing the first character. |
| Numbers.ToInt32 | GiftDataFormatter/GiftDataFormatter.cs:340-343 | Convert.ToInt32 succeeds exactly on integer text within 32 bits: optional white space (U+0009-U+000D, U+0020), an optional sign, digits, optional white space. It fails with Format exactly on text that is not of that form, and with Overflow on integer text outside 32 bits. |
| Numbers.ToInt64 | GiftDataFormatter/GiftDataFormatter.cs:363-366 | Convert.ToInt64 succeeds exactly on integer text within 64 bits: optional white space, an optional sign, digits, optional white space. It fails with Format exactly on text that is not of that form, and with Overflow on integer text outside 64 bits. |
| Numbers.IntToDecimalChars | GiftDataFormatter/GiftDataFormatter.cs:229-232 | An int is written as a non-empty string of digits, optionally led by `-`. |
| Numbers.ParseIntToDecimal | GiftDataFormatter/GiftDataFormatter.cs:229-232 | Parsing the decimal text of any integer gives that integer back. |
| Numbers.TrimPadded | GiftDataFormatter/GiftDataFormatter.cs:340-343 | White space before and after a text that neither starts nor ends with white space is removed, and nothing else. |
| Numbers.PaddedIntToDecimal | GiftDataFormatter/GiftDataFormatter.cs:340-343 | The decimal text of any integer, padded with white space on either side, parses to that integer. |
| Numbers.Int32RoundTrip | GiftDataFormatter/GiftDataFormatter.cs:340-343 | Convert.ToInt32 reads back the decimal text of every 32-bit int. |
| Numbers.Int64RoundTrip | GiftDataFormatter/GiftDataFormatter.cs:363-366 | Convert.ToInt64 reads back the decimal text of every 64-bit long. |
| TypeTagProperties.TypeForCodeFinds | GiftDataFormatter/GiftDataFormatter.cs:99-111 | The search by code returns the type of the first row with that code, or object when no row has it. |
| TypeTagProperties.CodeForTypeFinds | GiftDataFormatter/GiftDataFormatter.cs:113-126 | The search by type returns the code of the first row of that type, or the starting value when no row has it. |
| TypeTagProperties.RowsDistinct | GiftDataFormatter/GiftDataFormatter.cs:70-91 | The eleven rows have pairwise distinct codes 0, 1, 2, 3, 4, 5, 20, 21, 22, 23, 24 and pairwise distinct types. |
| TypeTagProperties.RowLookup | GiftDataFormatter/GiftDataFormatter.cs:99-126 | Each row is found by its code and by its type. |
| TypeTagProperties.CodeRoundTrip | GiftDataFormatter/GiftDataFormatter.cs:99-126 | On registered codes, ConvertTypeToIntValue inverts ConvertIntValueToType. |
| TypeTagProperties.TypeRoundTrip | GiftDataFormatter/GiftDataFormatter.cs:99-126 | On registered types, ConvertIntValueToType inverts ConvertTypeToIntValue. |
| TypeTagProperties.EnumIsTaggedAsInt | GiftDataFormatter/GiftDataFormatter.cs:113-126 | Every enumeration gets code 0, the code of int. |
| TypeTagProperties.UnregisteredType | GiftDataFormatter/GiftDataFormatter.cs:113-126 | A type that is neither registered nor an enumeration gets code -1. |
| TypeTagProperties.UnregisteredCode | GiftDataFormatter/GiftDataFormatter.cs:99-111 | An unregistered code maps to object; the lookup does not fail. |
| TypeTagProperties.SupportItemTypeOfContainers | GiftDataFormatter/GiftDataFormatter.cs:316-335 | GetSupportItemType keeps ArrayList (whose case comes before the IList case), maps every array to Array (22), every other list to List<> (23) and every map to Dictionary<,> (24). Every container item therefore gets a tag in 21-24, and scalars are unchanged. |
| TypeTagProperties.ConvertTypeToIntValueIsCodeOf | GiftDataFormatter/GiftDataFormatter.cs:113-126 | The linear search by type equals a closed-form case split. |
| TypeTagProperties.ScalarCodes | GiftDataFormatter/GiftDataFormatter.cs:70-75 | The scalar rows of the search by type give int 0, bool 1, float 2, double 3, string 4 and long 5. |
| TypeTagProperties.OtherRegisteredCodes | GiftDataFormatter/GiftDataFormatter.cs:76-80 | The other registered rows give DateTime 20, ArrayList 21, Array 22, List<> 23 and Dictionary<,> 24. |
| TypeTagProperties.ConvertIntValueToTypeIsTypeOf | GiftDataFormatter/GiftDataFormatter.cs:99-111 | The linear search by code equals a closed-form case split. |
| Values.Put | GiftDataFormatter/GiftDataFormatter.cs:416 | `dic[k] = v` replaces the value of an existing key, compared by value, and keeps the key order. A new key is appended, and so is every ArrayList, array, List<> or Dictionary<,> key, since those are compared by reference and each one read is a new instance. The entry (k, v) is then present, and every entry with another key is kept. |
| Values.Store | GiftDataFormatter/GiftDataFormatter.cs:395-399 | Storing an int into an enumeration slot gives that enumeration's value with the same ordinal, which the slot can hold. Every other value is stored as it is. |
| Values.DefaultOf | GiftDataFormatter/GiftDataFormatter.cs:395 | The default of a value type is a non-null value of exactly that type. |
| Values.Widen | GiftDataFormatter/GiftDataFormatter.cs:395 | A widening (int to long, float or double; long to float or double; float to double) gives a value of the element type, and applies only to a value not already of that type. |
| Values.SetElement | GiftDataFormatter/GiftDataFormatter.cs:395 | `array[index] = v` stores v, an enum value made from an int, when the element type can hold it. Null leaves the element's default in a value-type array and null otherwise. Otherwise the value is widened, or the store fails: with WrongType (ArgumentException) exactly when both the element type and the value's type are primitive, and with InvalidCast otherwise. What is stored is always something the element type can hold. |
| Values.AddTo | GiftDataFormatter/GiftDataFormatter.cs:399-416 | `list.Add(v)` and each half of `dic[k] = v` succeed exactly when the slot can hold the stored value. Null in a value-type slot fails with NullValue; any other value the slot cannot hold fails with WrongType. An object slot (ArrayList) takes everything. |
| Splitter.Scan | GiftDataFormatter/GiftDataFormatter.cs:430-497 | The segment end is at most the text's length. The only failure is Unterminated, a region that runs past the end. |
| Splitter.ScanFromSuffix | GiftDataFormatter/GiftDataFormatter.cs:430-497 | Scanning s from index i is scanning the suffix s[i..], shifted by i. |
| Splitter.MarkerAt | GiftDataFormatter/GiftDataFormatter.cs:439-490 | Each marker test `s.Substring(i).StartsWith(marker)` is a test of the character at i. |
| Splitter.InnerAt | GiftDataFormatter/GiftDataFormatter.cs:459-496 | One step of the inner loop, which runs while any counter is positive: outside quotes, brackets and braces move their counters; quote marks always do; anything else leaves the counters unchanged. |
| Splitter.OuterAt | GiftDataFormatter/GiftDataFormatter.cs:439-457 | One step of the outer loop at depth zero: only `[`, `{` and `“` open a region. |
| Splitter.Split | GiftDataFormatter/GiftDataFormatter.cs:423-512 | The result is empty exactly for empty input. The only failures are Unterminated and NoProgress (the source recurses forever). |
| Splitter.SplitAt | GiftDataFormatter/GiftDataFormatter.cs:499-510 | Empty input gives no segments. A cut at index 0 of non-empty input makes no progress. Otherwise the first segment is s[..i], and the rest of the text after it and the separator is split in turn. |
| Splitter.SplitSizes | GiftDataFormatter/GiftDataFormatter.cs:499-505 | Every segment is non-empty and no longer than the input; with two or more segments each is strictly shorter. |
| Splitter.FindSegmentEnd | GiftDataFormatter/GiftDataFormatter.cs:430-497 | The nested while loops over the three depth counters return exactly `Scan(s, sep, Zero)`. |
| Splitter.CloseRegions | GiftDataFormatter/GiftDataFormatter.cs:459-496 | The inner loop ends with every counter at or below zero at an index in range, and scanning on from there gives the same result as scanning from where it began. |
| Splitter.SplitOrganizedString | GiftDataFormatter/GiftDataFormatter.cs:423-512 | The method appends exactly `Split(s, sep)` to the result list, or fails as `Split` does. |
| Splitter.SplitMemberItemString | GiftDataFormatter/GiftDataFormatter.cs:514-522 | The text part of `text#code` is strictly shorter than the item, which makes the decoder's recursion terminate. |
| SplitterProperties.ScanIsFirstCut | GiftDataFormatter/GiftDataFormatter.cs:430-497 | The scan stops at the first index where the separator starts outside every region. A failed scan means there is no such index. |
| SplitterProperties.FirstCutIsScan | GiftDataFormatter/GiftDataFormatter.cs:430-497 | Conversely, the first such index is what the scan returns. |
| SplitterProperties.QuotedTextInert | GiftDataFormatter/GiftDataFormatter.cs:482-491 | Inside quotes, text without quote marks leaves every counter unchanged. |
| SplitterProperties.QuotedSeparatorNoCut | GiftDataFormatter/GiftDataFormatter.cs:459-496 | A separator inside quoted text is never a cut: strings may contain `,` or `;`. |
| SplitterProperties.FirstSegment | GiftDataFormatter/GiftDataFormatter.cs:499-510 | The first segment of a successful split is non-empty and closed, and the rest of the result is the split of the remainder. |
| SplitterProperties.SplitReassembles | GiftDataFormatter/GiftDataFormatter.cs:499-510 | Joining the segments with the separator gives back the input, or the input with one trailing separator removed. |
| SplitterProperties.SplitSegmentsClosed | GiftDataFormatter/GiftDataFormatter.cs:459-496 | No segment ends inside a region. |
| SplitterProperties.ScanAppend | GiftDataFormatter/GiftDataFormatter.cs:430-497 | A prefix without a cut is skipped whole: the scan continues in the depth the prefix leaves. |
| SplitterProperties.SplitPiece | GiftDataFormatter/GiftDataFormatter.cs:430-510 | Non-empty input splits to exactly itself if and only if it ends balanced and the separator starts at none of its top-level positions. |
| SplitterProperties.PieceWhole | GiftDataFormatter/GiftDataFormatter.cs:439-496 | A balanced text in which the separator's first character never occurs at top level has no top-level separator. |
| SplitterProperties.SplitPieceThen | GiftDataFormatter/GiftDataFormatter.cs:499-510 | A piece (balanced, the separator's first character never at top level) followed by the separator and more text splits to the piece followed by the split of the rest. |
| SplitterProperties.SplitJoin | GiftDataFormatter/GiftDataFormatter.cs:499-510 | Splitting such pieces joined by the separator gives the pieces back, in order. |
| TextShape.PlainInert | GiftDataFormatter/GiftDataFormatter.cs:439-496 | Text without markers leaves the counters unchanged at any depth. |
| TextShape.QuotedText | GiftDataFormatter/GiftDataFormatter.cs:245-250 | A quoted string without quote marks is a closed value text that no separator other than `“` cuts. |
| TextShape.Bracketed | GiftDataFormatter/GiftDataFormatter.cs:263-280 | `[...]` or `{...}` around inert text is a closed value text that no separator other than its opener cuts. |
| TextShape.SplitItemText | GiftDataFormatter/GiftDataFormatter.cs:514-522 | `text#code` splits at `#` into exactly [text, code]. |
| TextShape.SplitEntryText | GiftDataFormatter/GiftDataFormatter.cs:413 | `key::value` splits at `::` into exactly [key, value]. |
| TextShape.SplitJoined | GiftDataFormatter/GiftDataFormatter.cs:376 | Entry texts joined by `,` split back into the same texts. |
| Encoder.ItemStep | GiftDataFormatter/GiftDataFormatter.cs:266-279 | Writing one more item either extends the item texts by that item's text or fails with that item's error. |
| Encoder.ItemStepFails | GiftDataFormatter/GiftDataFormatter.cs:266-279 | A failing item fails the whole list with its error. |
| Encoder.EntryStep | GiftDataFormatter/GiftDataFormatter.cs:287-311 | Writing one more entry either extends the entry texts by that entry's text or fails with that entry's error. |
| Encoder.EntryStepFails | GiftDataFormatter/GiftDataFormatter.cs:287-311 | A failing entry fails the whole map with its error. |
| Encoder.StringBuilder.constructor | GiftDataFormatter/GiftDataFormatter.cs:148 | A new builder holds no text. |
| Encoder.StringBuilder.Append | GiftDataFormatter/GiftDataFormatter.cs:154-157 | Append adds its argument at the end of the text. |
| Encoder.WriteObjectValue | GiftDataFormatter/GiftDataFormatter.cs:227-314 | The writer gains exactly `Encode(ty, v)`, or the method fails with its error. |
| Encoder.WriteScalar | GiftDataFormatter/GiftDataFormatter.cs:229-258 | For the scalar types, the writer gains exactly the scalar's text, or the method fails with its error. |
| Encoder.WriteQuoted | GiftDataFormatter/GiftDataFormatter.cs:245-250 | The writer gains `“`, the text, then `”`. |
| Encoder.WriteCollection | GiftDataFormatter/GiftDataFormatter.cs:260-281 | The writer gains `[`, the items, then `]`, or the method fails with the first item's error. |
| Encoder.WriteItems | GiftDataFormatter/GiftDataFormatter.cs:265-279 | The foreach loop with its isFirstItem flag writes the item texts joined by `,`. |
| Encoder.WriteMap | GiftDataFormatter/GiftDataFormatter.cs:282-313 | The writer gains `{`, the entries, then `}`, or the method fails with the first entry's error. |
| Encoder.WriteEntries | GiftDataFormatter/GiftDataFormatter.cs:285-311 | The foreach loop over the keys writes the entry texts joined by `,`. |
| Encoder.WriteItem | GiftDataFormatter/GiftDataFormatter.cs:273-276 | An item is written as its text under its runtime type, `#`, then its decimal tag. |
| Encoder.WriteEntry | GiftDataFormatter/GiftDataFormatter.cs:295-307 | An entry is written as the key item, `::`, then the value item. |
| EncoderShape.DecimalAtom | GiftDataFormatter/GiftDataFormatter.cs:231 | Decimal text has no markers and no separators. |
| EncoderShape.TagOf | GiftDataFormatter/GiftDataFormatter.cs:274-276 | The tag written after an item is in 0..24. It names int for an enum and `GetSupportItemType` of the runtime type otherwise. |
| EncoderShape.EncodeShape | GiftDataFormatter/GiftDataFormatter.cs:227-314 | Every supported non-null value is written, and its text is a closed value text. |
| EncoderShape.CollectionShape | GiftDataFormatter/GiftDataFormatter.cs:260-281 | A list's text is written and closed. |
| EncoderShape.ItemShape | GiftDataFormatter/GiftDataFormatter.cs:273-276 | An item's text is the value's text, `#` and the decimal tag, and is an item text. |
| EncoderShape.ItemsShape | GiftDataFormatter/GiftDataFormatter.cs:263-280 | Each item text is that item's text, in order. |
| EncoderShape.EntryShape | GiftDataFormatter/GiftDataFormatter.cs:295-307 | An entry's text is key item, `::`, value item, and is an entry text. |
| EncoderShape.EntriesShape | GiftDataFormatter/GiftDataFormatter.cs:284-312 | Each entry text is that entry's text, in order. |
| Decoder.StripMarkers | GiftDataFormatter/GiftDataFormatter.cs:374 | Stripping the enclosing markers succeeds exactly when the text has at least two characters and returns the text between the first and last character. Otherwise it fails with BadSubstring. |
| Decoder.Part | GiftDataFormatter/GiftDataFormatter.cs:380 | Indexing the split parts succeeds exactly within range; otherwise it fails with IndexOutOfRange. |
| Decoder.NestedListType | GiftDataFormatter/GiftDataFormatter.cs:546-557 | Corrected: a nested Array or ArrayList keeps its type, and a nested List<> becomes List<T> of its first element's type. |
| Decoder.NestedListTypeAsWritten | GiftDataFormatter/GiftDataFormatter.cs:546-557 | As written: an ArrayList whose first element is not an ArrayList falls through to MakeGenericType and fails with CannotCreate. |
| Decoder.FindArrayOrListItemType | GiftDataFormatter/GiftDataFormatter.cs:575-600 | It succeeds only on text that splits as `text#code`. In an erased list the type found is never an open generic: a List<> tag gives some List<T>, a Dictionary<,> tag some Dictionary<K, V>, and any other tag its own type. |
| Decoder.FindDictionaryItemType | GiftDataFormatter/GiftDataFormatter.cs:533-563 | In a typed Dictionary<K, V> the type is K for a key and V for a value, provided the item text splits as `text#code`, and otherwise the splitting error. In Dictionary<,> a type found is never an open generic. |
| Decoder.FindErasedEntryItemType | GiftDataFormatter/GiftDataFormatter.cs:538-561 | As written: the type found for an item of Dictionary<,> is never an open generic, a nested map gives some Dictionary<K, V>, and a nested ArrayList that is typed at all is typed ArrayList (Properties.ErasedListResolved shows the one of an int failing). |
| Decoder.FindErasedEntryItemTypeCorrected | GiftDataFormatter/GiftDataFormatter.cs:538-561 | Corrected: a nested Array or ArrayList keeps its own type, a nested List<> becomes some List<T>, and a type found is never an open generic. |
| Decoder.FindDictionaryType | GiftDataFormatter/GiftDataFormatter.cs:524-531 | Success gives a Dictionary<K, V>, and needs the text to split at `::` into at least two parts. Under Dictionary<,> neither K nor V is an open generic. Under a typed Dictionary<K, V> the type found is that type. |
| Decoder.Decode | GiftDataFormatter/GiftDataFormatter.cs:337-421 | Whatever is read under a declared type is a value of that type: an int within 32 bits for int and for an enumeration, a long within 64 bits for long, a container whose items and entries its slots can hold, and null for the types without a branch. Open generics never read. |
| Decoder.DecodeCollection | GiftDataFormatter/GiftDataFormatter.cs:372-403 | A list or array read back is of the declared kind and its items fit the element slot. Under the open List<> reading always fails. |
| Decoder.DecodeItems | GiftDataFormatter/GiftDataFormatter.cs:388-401 | The loop extends the list it was given by one item per remaining part and keeps what was already there. Every item it adds fits the slot. |
| Decoder.StoreItem | GiftDataFormatter/GiftDataFormatter.cs:393-400 | An item stored into an array (SetElement) or a list (AddTo) fits the slot. |
| Decoder.DecodeMap | GiftDataFormatter/GiftDataFormatter.cs:404-419 | A map read back is a Dictionary of the declared key and value types whose every entry fits the two slots. Under the open Dictionary<,> reading always fails. |
| Decoder.DecodeEntries | GiftDataFormatter/GiftDataFormatter.cs:410-417 | Every entry the loop adds fits the key and value slots. |
| Decoder.ReadObjectValue | GiftDataFormatter/GiftDataFormatter.cs:337-421 | The method reads exactly `Decode(ty, s)`: the same value and the same error, with the as-written nested-list branch and the checked stores of SetElement and AddTo. |
| Decoder.ReadCollection | GiftDataFormatter/GiftDataFormatter.cs:372-403 | Reading a list or array gives exactly `DecodeCollection`. |
| Decoder.ReadArrayItems | GiftDataFormatter/GiftDataFormatter.cs:378-401 | The for loop with `list[index] =` gives exactly what `DecodeItems` gives under the element type: each decoded item passed through SetElement, in order, or the first error. |
| Decoder.ReadListItems | GiftDataFormatter/GiftDataFormatter.cs:383-401 | The for loop with `list.Add` gives exactly what `DecodeItems` gives under the slot: each decoded item passed through AddTo, in order, or the first error. |
| Decoder.ReadItem | GiftDataFormatter/GiftDataFormatter.cs:390-399 | An item is read under the type its tag names. |
| Decoder.ReadMap | GiftDataFormatter/GiftDataFormatter.cs:404-419 | Reading a map gives exactly `DecodeMap`. |
| Decoder.ReadEntries | GiftDataFormatter/GiftDataFormatter.cs:410-417 | The foreach loop with `dic[key] =` gives exactly `DecodeEntries`. Each entry is checked in the order the indexer checks: a null key fails with NullKey; a null value for a value type fails with NullValue; then the key and the value must be storable (AddTo); then the entry is put. |
| Decoder.ReadEntry | GiftDataFormatter/GiftDataFormatter.cs:412-416 | The method gives exactly `DecodeEntry`: the entry is split at `::`, and its key and value are read under the types FindDictionaryItemType gives. |
| RoundTrip.Peek | GiftDataFormatter/GiftDataFormatter.cs:577-599 | The type read back for an item of an erased list is never an enum and never object. |
| RoundTrip.PeekEntryItem | GiftDataFormatter/GiftDataFormatter.cs:533-563 | The type read back for a key or value of a nested erased map is never an enum and never object. As written, an ArrayList is read only when its first item reads as an ArrayList, and a List<> whose first item reads as an ArrayList is read as an ArrayList. |
| RoundTrip.TypedEncodable | GiftDataFormatter/GiftDataFormatter.cs:227-314 | A value of its declared type is written the same under that type as under its runtime type. |
| RoundTrip.CollectionParts | GiftDataFormatter/GiftDataFormatter.cs:260-281 | A written list strips to its item texts joined by `,`, and splits back into exactly those texts. |
| RoundTrip.MapParts | GiftDataFormatter/GiftDataFormatter.cs:282-313 | A written map strips to its entry texts joined by `,`, and splits back into exactly those texts. |
| RoundTrip.PeekSound | GiftDataFormatter/GiftDataFormatter.cs:582-600 | On a written item, FindArrayOrListItemType for an erased list finds exactly `Peek`. |
| RoundTrip.FlatItemSound | GiftDataFormatter/GiftDataFormatter.cs:577-600 | For a non-nested item that type is its tag's type. |
| RoundTrip.NestedItemSound | GiftDataFormatter/GiftDataFormatter.cs:587-599 | For a nested list or map item, that type is the listed or resolved generic type. |
| RoundTrip.ListPeekSound | GiftDataFormatter/GiftDataFormatter.cs:587-595 | For a nested list, the first part of its inner text gives List<T>'s T. |
| RoundTrip.MapPeekSound | GiftDataFormatter/GiftDataFormatter.cs:596-599 | For a nested single-entry map, FindDictionaryType finds exactly `Peek`. |
| RoundTrip.TwoPartType | GiftDataFormatter/GiftDataFormatter.cs:524-531 | A text that splits at `::` into two typed parts gives Dictionary<K, V> of their types. |
| RoundTrip.EntryItemSound | GiftDataFormatter/GiftDataFormatter.cs:533-563 | FindDictionaryItemType for Dictionary<,> finds exactly `PeekEntryItem`, as written, on a written key or value. |
| RoundTrip.PeekEntrySound | GiftDataFormatter/GiftDataFormatter.cs:538-563 | The same, stated for the value text and its tag type. |
| RoundTrip.CollectionEntrySound | GiftDataFormatter/GiftDataFormatter.cs:540-557 | For a nested list key or value, the first element decides the type. |
| RoundTrip.ItemsFold | GiftDataFormatter/GiftDataFormatter.cs:388-401 | If every remaining part reads back and passes StoreItem as z_j, the loop returns exactly the list it was given followed by the z_j in order. |
| RoundTrip.EntriesFold | GiftDataFormatter/GiftDataFormatter.cs:410-417 | If every entry reads back, its key and value are non-null and pass AddTo as the stored key and value, and the keys are distinct, the loop returns exactly those entries in order. |
| RoundTrip.ItemDecodes | GiftDataFormatter/GiftDataFormatter.cs:390-395 | An item is read as its text under the type found for it. |
| RoundTrip.EntryDecodes | GiftDataFormatter/GiftDataFormatter.cs:412-416 | An entry `k::w` is read as the key text under the key's type and the value text under the value's type. |
| RoundTrip.TypedItemType | GiftDataFormatter/GiftDataFormatter.cs:601-633 | In a typed List<E> or E[], an item of type E is read back under E, or under int when E is an enum. |
| RoundTrip.TypedItemRoundTrip | GiftDataFormatter/GiftDataFormatter.cs:388-401 | A written item of a typed list reads back, and storing it with StoreItem in the element slot gives the item. |
| RoundTrip.ErasedItemRoundTrip | GiftDataFormatter/GiftDataFormatter.cs:575-600 | A written item of an erased list reads back as itself under the type `Peek` finds. |
| RoundTrip.TypedEntryRoundTrip | GiftDataFormatter/GiftDataFormatter.cs:410-417 | A written entry of a typed map reads back to a non-null key and value, and AddTo stores them as the entry's key and value. |
| RoundTrip.TypedItemsRoundTrip | GiftDataFormatter/GiftDataFormatter.cs:388-401 | This holds for every item of a typed list. |
| RoundTrip.ErasedItemsRoundTrip | GiftDataFormatter/GiftDataFormatter.cs:388-401 | This holds for every item of an erased list. |
| RoundTrip.EntriesRoundTrip | GiftDataFormatter/GiftDataFormatter.cs:410-417 | This holds for every entry of a typed map. |
| RoundTrip.CollectionDecodes | GiftDataFormatter/GiftDataFormatter.cs:372-403 | When every part reads back and passes StoreItem as the matching item, a list or array text reads to the container of exactly those items. |
| RoundTrip.MapDecodes | GiftDataFormatter/GiftDataFormatter.cs:404-419 | When every entry reads back with distinct keys, a map text reads to the map of exactly those entries. |
| RoundTrip.RoundTrip | GiftDataFormatter/GiftDataFormatter.cs:337-421 | For every value of its declared type (`Typed`), the text Encode writes reads back, through the as-written reader and its checked stores. Storing what is read in a slot of that type gives the original value. |
| RoundTrip.ScalarRoundTrip | GiftDataFormatter/GiftDataFormatter.cs:340-371 | This holds for the scalars: ints and longs in range, bools, and floats, doubles and strings without quote marks. |
| RoundTrip.BoolRoundTrip | GiftDataFormatter/GiftDataFormatter.cs:344-347 | `1` reads as true and `0` as false. |
| RoundTrip.ErasedRoundTrip | GiftDataFormatter/GiftDataFormatter.cs:372-403 | An ArrayList or an erased Array reads back exactly. |
| RoundTrip.TypedCollectionRoundTrip | GiftDataFormatter/GiftDataFormatter.cs:372-403 | A List<E> or an E[] reads back exactly. |
| RoundTrip.MapRoundTrip | GiftDataFormatter/GiftDataFormatter.cs:404-419 | A Dictionary<K, V> reads back exactly. |
| Formatter.FindDataMemberSeparator | GiftDataFormatter/GiftDataFormatter.cs:648-667 | Without a model attribute the member separator is `;`. With one, it is the attribute's separator. |
| Formatter.Prefix | GiftDataFormatter/GiftDataFormatter.cs:184-186 | A member's prefix is its alias followed by `:`. |
| Formatter.MemberStep | GiftDataFormatter/GiftDataFormatter.cs:150-160 | Each member either extends the member texts by `alias:value` or fails with its value's error. |
| Formatter.SerializedText | GiftDataFormatter/GiftDataFormatter.cs:136-163 | A null object, and an object with no members, serialize to the empty string. |
| Formatter.Serialize | GiftDataFormatter/GiftDataFormatter.cs:136-163 | The StringBuilder loop returns exactly `SerializedText`. |
| Formatter.ReplaceAll | GiftDataFormatter/GiftDataFormatter.cs:189 | Removing every occurrence of a non-empty pattern never lengthens the text. |
| Formatter.ReplaceAllNoOccurrence | GiftDataFormatter/GiftDataFormatter.cs:189 | Text without the pattern is unchanged. |
| Formatter.ReplaceAllPrefix | GiftDataFormatter/GiftDataFormatter.cs:189 | A leading occurrence of the pattern is removed and the scan goes on right after it. |
| Formatter.MemberValueTextAsWritten | GiftDataFormatter/GiftDataFormatter.cs:189 | As written: the value text is the segment with every occurrence of the prefix removed. |
| Formatter.MemberValueText | GiftDataFormatter/GiftDataFormatter.cs:187-189 | Corrected: the value text is the segment after its prefix, so prefix plus value text is the segment. |
| Formatter.ReadMember | GiftDataFormatter/GiftDataFormatter.cs:181-221 | As written (the value text is the segment with every occurrence of the prefix removed): a segment either sets the member's own field or leaves the fields unchanged. It leaves them unchanged when the prefix does not match or the field is missing. No other field changes, and the field names stay the same. |
| Formatter.ReadSegment | GiftDataFormatter/GiftDataFormatter.cs:181-222 | Every descriptor is tried against the segment, with no break after a match. Only fields of the descriptors tried can change. |
| Formatter.ReadSegments | GiftDataFormatter/GiftDataFormatter.cs:179-223 | Every segment is read in turn. Fields that no descriptor names keep their defaults. |
| Formatter.Deserialized | GiftDataFormatter/GiftDataFormatter.cs:165-225 | With no members the result is `default(T)` (None). Otherwise the field names are those of a new instance. |
| Formatter.Record.constructor | GiftDataFormatter/GiftDataFormatter.cs:175 | `new T()` holds the default value of every field. |
| Formatter.Record.SetValue | GiftDataFormatter/GiftDataFormatter.cs:213-220 | Setting a field changes that field and no other. |
| Formatter.ReadMemberInto | GiftDataFormatter/GiftDataFormatter.cs:181-221 | Reading one segment into the record succeeds exactly when `ReadMember` does, leaves exactly its fields, or fails with its error. |
| Formatter.Deserialize | GiftDataFormatter/GiftDataFormatter.cs:165-225 | The nested loops, which read each segment into the record with ReadMemberInto, give a fresh record whose fields are exactly `Deserialized`, or fail with its error, or give `default(T)`. |
| Framing.AssignedFields | GiftDataFormatter/GiftDataFormatter.cs:179-223 | After every member is stored, each member's field holds the value of the last member with that name. Fields no member names keep their value. |
| Framing.EncodeClear | GiftDataFormatter/GiftDataFormatter.cs:227-314 | A written value is balanced, and a member separator never cuts it. |
| Framing.ScalarClear | GiftDataFormatter/GiftDataFormatter.cs:229-258 | The same for scalars. |
| Framing.ContainerClear | GiftDataFormatter/GiftDataFormatter.cs:260-281 | The same for lists and arrays. |
| Framing.MapClear | GiftDataFormatter/GiftDataFormatter.cs:282-313 | The same for maps. |
| Framing.MemberPiece | GiftDataFormatter/GiftDataFormatter.cs:156-158 | `alias:value` contains no top-level member separator. |
| Framing.MembersShape | GiftDataFormatter/GiftDataFormatter.cs:149-160 | Every member is written, one text per member, in order. |
| Framing.PrefixMatch | GiftDataFormatter/GiftDataFormatter.cs:187 | A member's segment starts with another member's prefix exactly when the two aliases are equal. |
| Framing.MemberReadsBack | GiftDataFormatter/GiftDataFormatter.cs:181-221 | As written: a member of its declared type whose value text does not contain its own prefix is written `alias:value`, and the value read back under its type and stored gives the value. |
| Framing.CorrectedMemberReadsBack | GiftDataFormatter/GiftDataFormatter.cs:181-221 | Corrected: every member of its declared type is written `alias:value`, and the value read back under its type and stored gives the value. |
| Framing.ReadClaimed | GiftDataFormatter/GiftDataFormatter.cs:181-222 | A segment that only its own member's prefix matches sets that member's field alone. |
| Framing.ReadAll | GiftDataFormatter/GiftDataFormatter.cs:179-223 | Reading the written segments in order stores every member's value, for members whose value text does not contain their own prefix. |
| Framing.SerializedSegments | GiftDataFormatter/GiftDataFormatter.cs:136-163 | Framable members are all written, one text each, and the serialized text is their join, which splits back at the separator into exactly those texts. |
| Framing.FramingRoundTrip | GiftDataFormatter/GiftDataFormatter.cs:136-225 | For members with distinct aliases and values the separator frames (including that a value's text does not contain the member's own prefix, which the as-written reader would remove), Deserialize of Serialize sets each member's field to its value. Every other field keeps its default. |
| Framing.ReplaceAllCounterexample | GiftDataFormatter/GiftDataFormatter.cs:189 | The string member `a` holding `xa:y` is written `a:“xa:y”`. Replace reads its value text as `“xy”`, so the field is set to `xy`; the corrected reading gives back `xa:y`. |
| Framing.PrefixRemoved | GiftDataFormatter/GiftDataFormatter.cs:187-189 | The corrected reading of a prefix followed by x is x. |
| Framing.ReplaceAllSteps | GiftDataFormatter/GiftDataFormatter.cs:189 | Replace removes both occurrences of `a:` from `a:“xa:y”`. |
| Framing.QuotedDecodes | GiftDataFormatter/GiftDataFormatter.cs:358-362 | A quoted string without quote marks reads back as that string. |
| ReadBackForm.ItemReadBackText | GiftDataFormatter/GiftDataFormatter.cs:227-314 | An item in its read-back form (an enumeration as its int, a List<E> of enumerations as a List<int>, an array as an array of its first item's type) is written as the same text as the item, under every declared type and as a tagged item. |
| ReadBackForm.ReadBackText | GiftDataFormatter/GiftDataFormatter.cs:227-314 | A value in its read-back form is written as the same text as the value, under every declared type and as a tagged item. |
| ReadBackForm.CollectionsAlike | GiftDataFormatter/GiftDataFormatter.cs:260-281 | Two lists of the same tag with the same item texts are written alike. |
| ReadBackForm.MapsAlike | GiftDataFormatter/GiftDataFormatter.cs:282-313 | Two maps with the same entry texts are written alike. |
| ReadBackForm.TypedItemReadBack | GiftDataFormatter/GiftDataFormatter.cs:575-600 | An item typed by a type the reader can find for it (no enumeration, no typed array) is its own read-back form. |
| ReadBackForm.ErasedItemReadBack | GiftDataFormatter/GiftDataFormatter.cs:575-600 | An item of an erased list that reads back as itself is its own read-back form. |
| ReadBackForm.TypedReadBack | GiftDataFormatter/GiftDataFormatter.cs:337-421 | Every value of its declared type is its own read-back form, so the read-back form only widens what RoundTrip.RoundTrip covers. |
| ReadBackForm.ReadBackRoundTrip | GiftDataFormatter/GiftDataFormatter.cs:337-421 | When the read-back form of a value is typed, the value is written, the text reads back, and what is stored is exactly the read-back form. |
| ReadBackForm.MemberReadBack | GiftDataFormatter/GiftDataFormatter.cs:156-158 | A member holding its read-back value keeps its name, alias and type and is written as the same `alias:value` text. |
| ReadBackForm.MembersAlike | GiftDataFormatter/GiftDataFormatter.cs:149-160 | Members written alike one by one are written alike together. |
| ReadBackForm.DeserializedAlike | GiftDataFormatter/GiftDataFormatter.cs:165-225 | Deserialize depends only on the members' names, aliases and types, not on the values they held. |
| Properties.ReEncode | GiftDataFormatter/GiftDataFormatter.cs:337-421 | For every value whose read-back form is typed (every typed value, and values with enumerations or object[]s inside erased containers), the written text reads back to exactly that form, and writing what is read reproduces the text. |
| Properties.WithFields | GiftDataFormatter/GiftDataFormatter.cs:213-220 | The descriptors of a deserialized object carry that object's field values. |
| Properties.SerializeDeserializeSerialize | GiftDataFormatter/GiftDataFormatterTests.cs:87-94 | The test's property: for members with distinct names and aliases whose read-back values frame, serializing an object, deserializing it and serializing the result reproduces the text, and each field holds its member's read-back value. |
| Properties.AssignedReadBack | GiftDataFormatter/GiftDataFormatter.cs:179-223 | Assigning the read-back members in order leaves each field holding its member's read-back value. |
| Properties.ArrayListReadsBack | GiftDataFormatter/GiftDataFormatter.cs:575-600 | An ArrayList whose items each read back typed is read back item by item, and its read-back form is typed. |
| Properties.EnumListReadsBack | GiftDataFormatter/GiftDataFormatter.cs:587-599 | A List<E> of enumeration values inside an erased container reads back as the List<int> of their ordinals. |
| Properties.ListOfArrayListReadsBack | GiftDataFormatter/GiftDataFormatter.cs:587-599 | A List<ArrayList> holding an ArrayList reads back as a typed List<ArrayList> of that ArrayList's read-back form. |
| Properties.NestedListReadsBack | GiftDataFormatter/GiftDataFormatter.cs:587-599 | A List<List<ArrayList>> around such an ArrayList reads back typed. |
| Properties.TestItemsReadBack | GiftDataFormatter/GiftDataFormatterTests.cs:75 | Every item of the test's ArrayList (1, "abc", 5.0d, C, true, a List<int>, a string[], a List<E> and a List<List<ArrayList>>) reads back typed. |
| Properties.TestArrayListReEncodes | GiftDataFormatter/GiftDataFormatterTests.cs:75 | The test's ArrayList is not typed (its enumeration values come back as ints), yet it is written, its text reads back, and writing what is read reproduces the text. |
| Properties.BoolReadsPositive | GiftDataFormatter/GiftDataFormatter.cs:344-347 | A bool reads as true exactly when the integer is positive. |
| Properties.PlainSplit | GiftDataFormatter/GiftDataFormatter.cs:423-512 | Splitting plain non-empty pieces joined by the separator gives the pieces back. |
| Properties.EmptyArray | GiftDataFormatter/GiftDataFormatter.cs:378-381 | An empty array is written `[]`, but reading `[]` as an array fails with IndexOutOfRange. |
| Properties.EmptyLists | GiftDataFormatter/GiftDataFormatter.cs:383-386 | `[]` reads as an empty ArrayList or List<E>. Under open List<> it fails with CannotCreate. |
| Properties.EmptyListOf | GiftDataFormatter/GiftDataFormatter.cs:383-386 | `[]` reads under ArrayList as the empty ArrayList and under List<E> as the empty List<E>. |
| Properties.IntItem | GiftDataFormatter/GiftDataFormatter.cs:514-522 | An int item is written `n#0`, and SplitMemberItemString gives back (n, 0). |
| Properties.IntElementType | GiftDataFormatter/GiftDataFormatter.cs:575-600 | An int item of an ArrayList is read under int. |
| Properties.NestedArrayListCounterexample | GiftDataFormatter/GiftDataFormatter.cs:546-557 | As written, an ArrayList holding a Dictionary<,> from an int to an ArrayList holding an int is written, but reading it back fails with CannotCreate: the inner ArrayList's first element is an int, so `ArrayList.MakeGenericType(int)` is called. |
| Properties.NestedArrayListText | GiftDataFormatter/GiftDataFormatter.cs:546-557 | The same, on the text itself: the value from a to [n] is written `[{a#0::[n#0]#21}#24]`, and reading that text as an ArrayList fails with CannotCreate. |
| Properties.NestedArrayListIntended | GiftDataFormatter/GiftDataFormatter.cs:546-557 | With the correction, the nested ArrayList keeps its type and the map from a to [n] reads back exactly. |
| Properties.ErasedListResolved | GiftDataFormatter/GiftDataFormatter.cs:546-557 | For the text of an ArrayList of one int, the as-written branch fails with CannotCreate and the corrected branch gives ArrayList. |
| Properties.NestedEntryTypeFails | GiftDataFormatter/GiftDataFormatter.cs:524-531 | The entry `a#0::[n#0]#21` cannot be typed by FindDictionaryType as written: it fails with CannotCreate. |
| Properties.NestedMapItemFails | GiftDataFormatter/GiftDataFormatter.cs:587-599 | A written Dictionary<,> item holding that entry fails to be read as an ArrayList item with CannotCreate. |
| Properties.ValueTypeFails | GiftDataFormatter/GiftDataFormatter.cs:524-531 | When typing the value part fails, FindDictionaryType fails with that error. |
| Properties.IntListText | GiftDataFormatter/GiftDataFormatter.cs:372-386 | An ArrayList of one int strips and splits back to exactly that int's item text. |
| Properties.SingletonListText | GiftDataFormatter/GiftDataFormatter.cs:263-280 | An ArrayList of one item is written as `[`, the item text, `]`, and as an item gets the tag 21. |
| Properties.SingletonMapText | GiftDataFormatter/GiftDataFormatter.cs:284-312 | A map of one entry is written as `{`, the key item, `::`, the value item, `}`, and as an item gets the tag 24. |
| Properties.CommaTag | GiftDataFormatter/GiftDataFormatter.cs:514-522 | Two int items glued by `,` (`b#0,c#0`) split at `#` into three parts; the tag part `0,c` is not an integer, so it fails with Format. |
| Properties.IntKey | GiftDataFormatter/GiftDataFormatter.cs:533-563 | In Dictionary<,>, an int key item is typed int. |
| Properties.ThirdPartIgnored | GiftDataFormatter/GiftDataFormatter.cs:524-531 | FindDictionaryType reads only the first two `::` parts, so a bad second part fails it. |
| Properties.ThreeParts | GiftDataFormatter/GiftDataFormatter.cs:524-531 | The inner text of a two-entry int map fails FindDictionaryType with Format. |
| Properties.IntEntryText | GiftDataFormatter/GiftDataFormatter.cs:295-307 | An int-to-int entry is written `a#0::b#0`. |
| Properties.TwoEntries | GiftDataFormatter/GiftDataFormatter.cs:284-312 | Two entries are written as their two texts, in order. |
| Properties.TwoEntryTexts | GiftDataFormatter/GiftDataFormatter.cs:284-312 | Two int entries are written as `a#0::b#0` and `c#0::d#0`. |
| Properties.TwoIntEntries | GiftDataFormatter/GiftDataFormatter.cs:596-599 | A nested map with two entries cannot be typed: FindDictionaryType is given the whole inner text and fails with Format. |
| Properties.EmptyListText | GiftDataFormatter/GiftDataFormatter.cs:263-280 | An empty list is written `[]`. |
| Properties.EmptyNestedItem | GiftDataFormatter/GiftDataFormatter.cs:587-592 | An empty List<E> item in an ArrayList fails to be typed with IndexOutOfRange. |
| Properties.FirstItemFails | GiftDataFormatter/GiftDataFormatter.cs:388-395 | A list whose first item fails to read fails with that item's error. |
| Properties.MixedArrayFails | GiftDataFormatter/GiftDataFormatter.cs:378-395 | An object[] holding an int n and then any other item y is written, but reading it back as an Array fails: the array is created as int[] after the first item's tag, and y cannot be stored in it. It fails with WrongType when y is a bool, long, float or double, and with InvalidCast otherwise. |
| Properties.StringIntoIntArray | GiftDataFormatter/GiftDataFormatter.cs:378-395 | For an int and then a string it fails with InvalidCast. |
| Properties.LongIntoIntArray | GiftDataFormatter/GiftDataFormatter.cs:378-395 | For an int and then a long it fails with WrongType: a long is not narrowed to int. |
| Properties.MixedArrayParts | GiftDataFormatter/GiftDataFormatter.cs:260-281 | That object[] is written as its two item texts between brackets, which split back into those texts. |
| Properties.MixedItemsFail | GiftDataFormatter/GiftDataFormatter.cs:388-395 | The first item text gives the element type int, and the loop fails on the second. |
| Properties.ItemNotInt | GiftDataFormatter/GiftDataFormatter.cs:393-395 | A part that reads as a non-null value of another type than int cannot be stored into an int[]. |
| Properties.RepeatedArrayListKeys | GiftDataFormatter/GiftDataFormatter.cs:410-417 | A Dictionary<ArrayList, int> whose two keys hold the same items reads back with both entries, since each key read is a new ArrayList. |
| Properties.EmptyNestedList | GiftDataFormatter/GiftDataFormatter.cs:587-592 | An ArrayList holding an empty list is written, but reading it back fails with IndexOutOfRange. |
| Properties.UnsupportedType | GiftDataFormatter/GiftDataFormatter.cs:227-314 | A type without a branch is written as nothing and read as null. Declared object is treated the same way. |

## Left out

- Reflection:
  - FindDataMemberAttributes (:670-710) and GetField/GetProperty with their DeclaringType retry (:192-205) are not modelled. A member is a descriptor. Its field exists when its name is a key of the record's fields.
  - Activator.CreateInstance, Array.CreateInstance and MakeGenericType become constructors of the `Ty` datatype. Instantiating the open List<> or Dictionary<,>, or calling MakeGenericType on a non-generic type, fails with CannotCreate.
  - The GetInterfaces and GetProperties searches of the typed branch (:601-633) are modelled by their outcome: the element type E.
- Floating point and time. Float, double and DateTime payloads are kept as their invariant decimal text. Convert.ToString, ToSingle and ToDouble, and the timestamp conversions (:637-646), are not modelled. A malformed payload is therefore not rejected.
- The attribute classes (:27-50) are not modelled: they only carry data for the reflection layer.
- Process-wide state is not modelled: the shared StringBuilders, the `m_MemberSeperator` global and the attribute caches (:129-134, :650-658). Each call uses its own builder.
- The test harness's Console output is not modelled.
- String.StartsWith is culture-sensitive in .NET. It is modelled as an ordinal prefix test.
- Exceptions are modelled as `Err` values sorted by where they arise, and several kinds stand for the same .NET exception: Unterminated, BadSubstring and IndexOutOfRange are all ArgumentOutOfRangeException; CannotCreate covers the ArgumentException and InvalidOperationException of instantiating a type; WrongType is an ArgumentException (also a primitive that Array.SetValue cannot widen into a primitive array), NullValue and NullKey are ArgumentNullException, InvalidCast is InvalidCastException, Format and Overflow are FormatException and OverflowException. `NoProgress` stands for the unbounded recursion (a StackOverflowException) on a remainder that starts with the separator.
- Numbers.ToInt32, Numbers.ToInt64: the culture's sign symbols are taken to be the invariant `+` and `-`; other NumberStyles.Integer details are not modelled.
- Values.Widen: a widened value keeps the exact decimal text, where .NET rounds an int or long to the nearest float or double and shows a float's nearest double.
- Values.SetElement: array covariance (a string[] stored in an object[] element) is not modelled. An enumeration counts as not primitive, as Type.IsPrimitive has it; the reader never stores one into an array.
- Object identity is not modelled. A key of a container type is taken to be a new instance each time it is put, which is what the reader does.
- The FieldInfo.SetValue / PropertyInfo.SetValue type check on a member's field (:213-220) is not modelled: the value read back under the member's declared type is what is stored.
- RoundTrip.RoundTrip covers only the values `Typed` admits. The source cannot read the others back:
  - empty arrays (Properties.EmptyArray);
  - an empty nested list in an erased container (Properties.EmptyNestedList);
  - a nested erased map with other than one entry (Properties.TwoIntEntries);
  - strings, floats and doubles containing a quote mark;
  - enum arrays and arrays of typed arrays, which read back as int[] and Array;
  - enumerations and object[]s inside erased containers, which read back as ints and as arrays of the first item's type. For these Properties.ReEncode still proves that writing what is read reproduces the text;
  - an ArrayList, or a List<> whose first item is an ArrayList, as a key or value of a nested erased map: as written only an ArrayList whose first item is an ArrayList reads back (the second finding; RoundTrip.PeekEntryItem);
  - unsupported types.
- Framing.FramingRoundTrip, Framing.ReadAll: stated only for members whose value text does not contain their own `alias:` prefix, because the as-written reader removes every occurrence of it (the first finding; Framing.CorrectedMemberReadsBack holds without that condition).
- Every descriptor is tried against every segment and each whose prefix matches is assigned, with no break (Formatter.ReadSegment).

## Findings

| source | as written | input that shows it | evidently intended | confidence | as-written member | corrected member |
|---|---|---|---|---|---|---|
| GiftDataFormatter/GiftDataFormatter.cs:189 | The value text is `formatterMember.Replace(prefix, "")`, which removes every occurrence of `alias:`. | The string member with alias `a` holding `xa:y` is written `a:“xa:y”` and read back as `xy`. | Drop the prefix only once, at the start of the segment. | not executed | Framing.ReplaceAllCounterexample | Framing.CorrectedMemberReadsBack |
| GiftDataFormatter/GiftDataFormatter.cs:546-557 | The nested-list branch of FindDictionaryItemType tests `listItemType == ArrayList`, the first element's type. | Reading `[{1#0::[5#0]#21}#24]` as an ArrayList (an ArrayList holding a Dictionary<,> from 1 to an ArrayList holding 5): the first element of the inner ArrayList is an int, the test fails and `ArrayList.MakeGenericType(int)` throws. | Test `type == ArrayList`, the nested container's own type, as the Array case does. | not executed | Properties.NestedArrayListText | Properties.NestedArrayListIntended |
