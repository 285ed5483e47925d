# Verified model of the VM configuration codec and its neighbours

The guideXOS hypervisor writes a virtual machine's configuration as JSON, reads it back, serves a REST interface
with a second JSON writer, moves bytes over block devices, places a firmware hand-off region in guest memory,
decodes instruction immediates and watches memory accesses. This project models that code in Dafny and proves what
it promises, and where it does not keep a promise, exactly when.

## What is modelled

**The configuration codec.** `JsonUtils` holds the printer `JsonBuilder` (an output buffer, a stack of
first-element flags, an indentation level) and the reader `JsonParser` (a text and a cursor), as classes with the
loops of the original. `VMConfigurationCodec` holds `toJson` and `fromJson` of the configuration and of its five
records as methods that drive the two. Three layers of specification stand behind them:

- `JsonText` and `JsonRecords` say what the reader computes, as functions on the unread text.
- `JsonDocuments` describes texts as trees that keep every character. `ReadingDocuments` and `AcceptedDocuments`
  show that the reader accepts these documents and nothing else; layout independence follows.
- `Rfc8259` is an independent, strict decoder for sections 2 to 7 of RFC 8259. `BuilderTexts` shows that everything
  the builder writes is decoded by it, `RfcAgreement` that whatever the reader accepts of strict JSON it has
  understood as that decoder does, and `AcceptedJson` which strict JSON it accepts.

Two modules speak of the builder's texts alone. `Reindenting` is a re-indenter that knows only brackets, quotes,
commas and colons; it leaves everything that the builder writes as it is. `ConfigurationTexts` gives the JSON value of
a saved configuration member by member.

`ConfigurationRoundTrip` proves that loading undoes saving, with its exact domain, `ConfigurationFold` what repeated
keys amount to, `OrderIndependence` that the order of members plays no part in a text at any depth, and
`ConfigurationValidation` what `validate` accepts. `Sequences` holds facts about concatenation that many proofs share.

**The REST serializer.** `JsonEscaping`, `ApiSerializer` and `ApiResponses` model the second escaper and the
hand-written comma loops; the texts are decoded by the same strict decoder to the data that went in.

**Block devices.** `StorageDevices` models byte access by whole blocks on a device that may transfer fewer blocks
than asked for; `ByteRanges` is the flat byte array that runs of calls refine.

**Machine arithmetic.** `Words` defines the bit operations digit by digit and 64-bit wrap-around by remainder.
`EfiHandoff` and `Ia64Formats` use it for the placement of the hand-off region and for the dispersed 22-bit immediate.

**Watchpoints.** `Watchpoints` models the overlap test, the conditions, and one watchpoint's share of an access.

## What the code does that its documentation does not say

- A `\u` escape is written for control characters but is never read: such a configuration is saved as valid JSON
  and cannot be loaded (`ConfigurationRoundTrip.RoundTrip`, `JsonText.EscapeThenParse`).
- `char` is taken as signed, as on the platform the project builds for. A byte from 0x80 is below 32 then, and
  `escapeString` writes `\uffffff80` and the like, which a JSON reader takes for U+FFFF and four more characters
  (`BuilderTexts.EscapedKeepsAscii`). The other escaper copies such bytes (`JsonEscaping.EscapersAgree`).
- An unknown key leaves its value unread. On strict JSON that always ends in an exception
  (`RfcAgreement.UnknownKeyIsRejected`); only a key with nothing behind its colon is skipped.
- Negative numbers are accepted and wrap modulo 2^64 (`RfcAgreement.AcceptedIsUnderstood`).
- `writeBytes` reports the full size after a short write. The report is true on every device that keeps the
  contract exactly if the range touches one block or starts behind the last one
  (`StorageDevices.ReportIsTrueOnEveryDevice`).
- When the read before a write was short, `writeBytes` can clear a byte that it was not asked to change
  (`StorageDevices.ShortPreReadClearsByte`). A range is safe from that on every device that keeps the contract exactly
  if it ends on a block boundary, touches one block, reaches past the last block, or has only zeros behind it in its
  last block (`StorageDevices.SafeOnEveryDevice`).
- A memory access that ends at the top of the address space is never seen by a watchpoint
  (`Watchpoints.LastByteIsNeverWatched`), and a watchpoint for changes reports the new value as the old one
  (`Watchpoints.Watchpoint.Check`).
- The placement is refused at exactly 0x350000 bytes of memory although the region would fit (`EfiHandoff.PlacedAt`,
  `EfiHandoff.EfiHandoffLayout.TryCompute`).
- Only `body` of an API response is inserted unescaped. The response is JSON exactly when the body is a JSON value
  followed by nothing, or by a comma and the inside of a JSON object that is not empty
  (`ApiResponses.ResponseIsJson`). So a body that is no JSON can break the response (`ApiResponses.BrokenBody`) or add
  members to it (`ApiResponses.BodyAddsMember`).

## Model

| member | source | states |
|---|---|---|
| ConfigurationRoundTrip.RoundTrip | include/VMConfiguration.h:496-598 | Reading what was printed gives the same configuration if every string in it uses only characters 32 to 127 and backspace, form feed, newline, return and tab, whatever the numbers and the lengths of the two lists; for every other configuration it throws "Invalid escape sequence". There is no third outcome. |
| VMConfigurationCodec.SaveAndLoad | include/VMConfiguration.h:496-598 | The same through the two methods: loading succeeds exactly on readable configurations and returns the configuration saved. |
| VMConfigurationCodec.ToJson | include/VMConfiguration.h:496-543 | The text is JSON that decodes to the twelve members in the order of the source, with all members of the records and all elements of both lists; a line for every member, element and closing bracket, behind two blanks for each open container. |
| VMConfigurationCodec.FromJson | include/VMConfiguration.h:548-598 | On every text the loop ends, with the left fold of the parsed fields over the defaults or with the exception of the first field that cannot be read. |
| VMConfigurationCodec.ReadVMField | include/VMConfiguration.h:557-591 | One turn of the key comparison reads the value by its key's kind and applies it; an unknown key reads nothing and changes nothing. |
| VMConfigurationCodec.ReadComponent | include/VMConfiguration.h:563-582 | The branches whose value is a record or a list: records replace, lists are appended to. |
| VMConfigurationCodec.ReadBehavior | include/VMConfiguration.h:583-591 | The branches for the behaviour settings. |
| VMConfigurationCodec.StoragesToJson | include/VMConfiguration.h:514-520 | The loop over the storage devices writes the list element by element, commas between them. |
| VMConfigurationCodec.StoragesFromJson | include/VMConfiguration.h:567-573 | The array loop appends the parsed devices, in order, to those already there, or throws the error of the first bad element. |
| VMConfigurationCodec.NetworksFromJson | include/VMConfiguration.h:576-582 | Likewise for network interfaces. |
| VMConfigurationCodec.CpuToJson | include/VMConfiguration.h:38-45 | Writes one pretty record of the four CPU fields and leaves the builder ready for the next member. |
| VMConfigurationCodec.CpuFromJson | include/VMConfiguration.h:47-67 | Reads a CPU record with fields in any order: the fold over the defaults, the unread rest, or the error. |
| VMConfigurationCodec.MemoryFromJson | include/VMConfiguration.h:106-126 | Likewise for the memory record. |
| VMConfigurationCodec.StorageFromJson | include/VMConfiguration.h:173-197 | Likewise for a storage device; its block size is cut to 32 bits. |
| VMConfigurationCodec.BootFromJson | include/VMConfiguration.h:236-260 | Likewise for the boot record. |
| VMConfigurationCodec.NetworkFromJson | include/VMConfiguration.h:299-323 | Likewise for a network interface. |
| ConfigurationFold.FoldIsLastWins | include/VMConfiguration.h:549-597 | The fold, component by component: the last value of every scalar or record key, the default if there is none, and all items of every occurrence of a list key in order. |
| ConfigurationFold.OrderIsIrrelevant | include/VMConfiguration.h:554-594 | Fields with distinct keys give the same configuration in any order. |
| ConfigurationFold.CpuIsLastWins | include/VMConfiguration.h:47-67 | The fold over a CPU record, field by field: the last value of every key, the default if there is none. |
| ConfigurationFold.MemoryIsLastWins | include/VMConfiguration.h:106-126 | Likewise for the memory record. |
| ConfigurationFold.StorageIsLastWins | include/VMConfiguration.h:173-197 | Likewise for a storage device, the last block size cut to 32 bits. |
| ConfigurationFold.BlockSizeIsCongruent | include/VMConfiguration.h:190-190 | The block size read is below 2^32 and congruent modulo 2^32 to the last number written, or 512. |
| ConfigurationFold.CutIsTheCongruent | include/VMConfiguration.h:190-190 | The cut gives the only such number. |
| ConfigurationFold.BootIsLastWins | include/VMConfiguration.h:236-260 | Likewise for the boot record. |
| ConfigurationFold.NetworkIsLastWins | include/VMConfiguration.h:299-323 | Likewise for a network interface. |
| OrderIndependence.ReorderedReads | include/VMConfiguration.h:548-598 | A document that is read without error and has no key twice is read without error, to the same fields up to order, in every order of its members at every depth. |
| OrderIndependence.SameConfiguration | include/VMConfiguration.h:549-597 | Fields that are equal up to order at every depth, with no key twice, give the same configuration. |
| OrderIndependence.OrderIsIrrelevantInTexts | include/VMConfiguration.h:548-598 | If a text loads and no object in it has a key twice, every text of the same members, in any order at every depth and with any layout, loads to the same configuration. |
| ConfigurationRoundTrip.VMRestored | include/VMConfiguration.h:496-598 | Applying all fields of a configuration, in the order toJson writes them, to the defaults gives that configuration. |
| ConfigurationTexts.SavedText | include/VMConfiguration.h:496-543 | For every configuration, the saved text decodes by RFC 8259 to its members one by one under their literal keys, and re-indenting leaves it as it is. |
| ConfigurationTexts.ShownAsItIs | include/JsonUtils.h:42-63 | A string of a saved configuration is decoded to itself exactly if it is ASCII. |
| ConfigurationValidation.Validate | include/VMConfiguration.h:419-460 | Accepts exactly the configurations with a name, 1 to 256 CPUs, at least 1 MiB and pairwise distinct device identifiers; a refusal names the first requirement that fails. |
| ConfigurationValidation.FindDuplicate | include/VMConfiguration.h:446-457 | The nested loop finds the first device whose identifier occurs again, or there is none. |
| ConfigurationValidation.LoadingKeepsTheVerdict | include/VMConfiguration.h:419-598 | A configuration that loads after being saved is accepted exactly if it was accepted before. |
| JsonText.EscapeThenParse | include/JsonUtils.h:42-211 | parseString on an escaped string, a closing quote and any text: the string and that text if all characters are readable, an invalid escape otherwise. |
| JsonText.StringBodyIsLocal | include/JsonUtils.h:175-211 | What follows the closing quote plays no part in reading a string. |
| JsonText.DecimalRoundTrip | include/JsonUtils.h:107-113 | The digits that a stream prints for a number denote that number. |
| JsonText.DecimalDigits | include/JsonUtils.h:107-113 | The i-th digit from the right is the character for n / 10^i modulo 10. |
| JsonText.DecimalLength | include/JsonUtils.h:107-113 | There are exactly as many digits as the number needs. |
| JsonText.StoullOfDecimal | include/JsonUtils.h:213-225 | stoull of a printed number is the number below 2^64 and out of range from there. |
| ReadingDocuments.ParseNumberOver | include/JsonUtils.h:213-225 | parseNumber on white space and an integer literal, whatever follows that is no digit: stoull of exactly that literal, and the rest. |
| JsonUtils.JsonBuilder.WriteComma | include/JsonUtils.h:33-40 | The separator, from the flag on top of the stack. |
| JsonUtils.JsonBuilder.WriteKey | include/JsonUtils.h:96-100 | Separator, indentation and escaped key are appended; the new state is that of the printer function. |
| JsonUtils.JsonBuilder.Escape | include/JsonUtils.h:42-63 | The loop appends the escape of every character. |
| JsonUtils.JsonBuilder.EndObject | include/JsonUtils.h:74-80 | Pops the flag stack, lowers the level and closes the brace on a line of its own. |
| JsonUtils.JsonParser.SkipWhitespace | include/JsonUtils.h:146-152 | The cursor moves over blanks, tabs, line feeds and carriage returns, over nothing else, and stops at the first other character or the end of the text. |
| JsonUtils.JsonParser.ReadString | include/JsonUtils.h:175-211 | The loop returns the unescaped string with the cursor past the closing quote, or the exception. |
| JsonUtils.JsonParser.ReadCharacter | include/JsonUtils.h:182-202 | One turn of that loop: a plain character or the switch after a backslash. |
| JsonUtils.JsonParser.ReadNumber | include/JsonUtils.h:213-225 | The longest run of digits with an optional minus, through stoull. |
| JsonUtils.JsonParser.ReadBool | include/JsonUtils.h:227-237 | true and false by prefix, an exception otherwise. |
| JsonUtils.JsonParser.ReadKey | include/JsonUtils.h:274-280 | A quoted string and a colon with white space around it. |
| ReadingDocuments.ReadValue | include/JsonUtils.h:146-308 | The reader follows every document that fits its kind: it returns what the document says and leaves the text behind it, whatever the white space and the commas. |
| ReadingDocuments.ReadFields | include/VMConfiguration.h:51-63 | The object loop, likewise, over any number of members. |
| JsonRecords.ParseField | include/VMConfiguration.h:554-594 | A field that is read uses up at least three characters, the quotes of its key and the colon, even if its key is unknown and its value stays unread: the unread text is a strict measure for every loop, nested or not. |
| AcceptedDocuments.AcceptsExactlyDocuments | include/VMConfiguration.h:548-598 | A text is accepted with these fields and this rest if and only if it is white space, a document that fits the schema and reads to these fields, and the rest. |
| AcceptedDocuments.LayoutIndependence | include/JsonUtils.h:146-173 | White space between tokens, a comma put in or left out after a member or element, and what follows the record change neither the fields nor the error. |
| PrettyDocuments.ReadPretty | include/VMConfiguration.h:496-598 | Any nested value read back from its pretty layout: itself if its strings are readable, an invalid escape otherwise. |
| BuilderRuns.WholeRun | include/JsonUtils.h:65-136 | Every properly nested run of builder calls ends with the pretty text of the value that the calls spell out, an empty stack and level 0. |
| PrettyDocuments.Indent | include/JsonUtils.h:27-31 | The indentation is exactly two blanks for each level. |
| Reindenting.RunsAreLaidOut | include/JsonUtils.h:27-94 | Every properly nested run writes a text that re-indenting leaves as it is: every member, element and closing bracket stands on a line of its own behind exactly two blanks for each open container, one blank follows a colon, and there is no other white space outside strings. |
| Reindenting.RelaidValue | include/JsonUtils.h:27-136 | Likewise for any value inside any number of containers and before any text. |
| BuilderRuns.StackFollowsLevel | include/JsonUtils.h:68-94 | Along every run the stack of flags is as high as the indentation level. |
| BuilderTexts.RunsWriteJson | include/JsonUtils.h:33-135 | Every properly nested run with any keys, strings and integers writes a JSON text of RFC 8259 that denotes the value spelled out. |
| BuilderTexts.EscapedDecodes | include/JsonUtils.h:42-63 | An escaped string followed by a quote is a JSON string, whatever its bytes are. |
| BuilderTexts.EscapedKeepsAscii | include/JsonUtils.h:54-59 | That string denotes the original exactly if all bytes are ASCII. |
| BuilderTexts.EscapeCharIs | include/JsonUtils.h:42-63 | The escape of every byte, letter by letter: seven short escapes, `\u00` and two lower-case digits for the other control characters, `\uffffff` and two digits from 0x80, and the byte itself otherwise. |
| StrictDocuments.StrictIsJsonText | include/JsonUtils.h:65-136 | A document in strict form, with any white space around it, is decoded by the grammar of RFC 8259 to what it denotes. |
| RfcAgreement.AcceptedIsUnderstood | include/VMConfiguration.h:548-598 | If a strict JSON text is accepted, the fields are those that RFC 8259 gives it, numbers modulo 2^64, and only white space is left unread. |
| RfcAgreement.UnknownKeyIsRejected | include/VMConfiguration.h:554-594 | A strict JSON text with a key unknown to its record, at any depth and with any value, is rejected. |
| RfcAgreement.SameJsonSameFields | include/VMConfiguration.h:548-598 | Two accepted strict texts of the same JSON value give the same fields. |
| AcceptedJson.AcceptedIfItSuits | include/VMConfiguration.h:548-598 | A strict JSON text is accepted if and only if it suits the schema: at every depth the values have the types of their keys, no string has a Unicode escape, numbers are integers below 2^64 in magnitude, and every key is known. |
| JsonEscaping.EscapeJSON | include/APISerializer.h:46-66 | The loop appends the escape of every character. |
| JsonEscaping.EscapeJsonDecodes | include/APISerializer.h:46-66 | On every string, decoding by section 7 of RFC 8259 gives the input back and stops at the closing quote. |
| JsonEscaping.EscapeJsonIsInjective | include/APISerializer.h:46-66 | No two strings are escaped alike. |
| JsonEscaping.EscapersAgree | include/APISerializer.h:46-66 | The two escapers give the same text exactly on strings of bytes below 0x80. |
| ApiSerializer.SerializeVMList | include/APISerializer.h:101-125 | The text decodes to the list of all machines in order, with all their fields, and the total count. |
| ApiSerializer.SerializeConsole | include/APISerializer.h:153-169 | The text decodes to the counts and to all lines in order. |
| ApiSerializer.SerializeStatus | include/APISerializer.h:171-200 | The text decodes to the type's name, the identifier, the time and all data pairs in order; a reader of the six literal names finds the update's kind in it. |
| ApiSerializer.KindIsRead | include/APISerializer.h:176-183 | Each of the six kinds is read back from its name. |
| ApiSerializer.StatusIsRecovered | include/APISerializer.h:171-200 | No two updates decode alike: kind, identifier, time and data are all known from the decoded text. |
| ApiResponses.SerializeResponse | include/APISerializer.h:68-78 | The text is the five members in order, the body inserted as it is and null for an empty one; it decodes to the four head members and what the body makes of the rest; a reader of the seven literal names finds the status in it. |
| ApiResponses.StatusIsRead | include/APITypes.h:32-43 | Each of the seven statuses is read back from its name. |
| ApiResponses.HeadIsRecovered | include/APISerializer.h:68-78 | Identifier, status, message and time are known from the decoded head. |
| ApiResponses.ResponseIs | include/APISerializer.h:68-78 | For every body: the response decodes to the four head members, the body's first value as "body", and any members that follow a comma in the body; to nothing if the body has another form. |
| ApiResponses.ResponseIsJson | include/APISerializer.h:68-78 | The response is a JSON text if and only if its last member in braces is, that is, if the body is a value followed by nothing or by a comma and the inside of a JSON object that is not empty. |
| ApiResponses.ResponseDecodes | include/APISerializer.h:68-78 | The response decodes to its five members with the value v in place of the body if and only if the body decodes to v. |
| ApiResponses.BodyAddsMember | include/APISerializer.h:75-75 | A body that is no JSON text with which the response is one, of six members. |
| ApiResponses.BrokenBody | include/APISerializer.h:75-75 | A body with which the response is no JSON text at all. |
| StorageDevices.StorageDevice.ReadBytes | include/IStorageDevice.h:259-286 | With k blocks delivered, min(size, k times the block size less the offset in its block) bytes, which is positive, equal to the image at the offset; the rest of the buffer is untouched; -1 without a block. |
| StorageDevices.StorageDevice.WriteBytes | include/IStorageDevice.h:288-323 | Result, number of blocks read back and written, and the whole new image for every device behaviour; nothing changes on an error. |
| StorageDevices.StorageDevice.Merge | include/IStorageDevice.h:299-314 | The block buffer before the write: the blocks read back, zeros where none were, and the caller's data laid over them; a partial range of which no block can be read fails. |
| StorageDevices.BufferHoldsRange | include/IStorageDevice.h:264-270 | For all 64-bit offsets and sizes, wrapping sums included: the block buffer holds the bytes that memcpy moves if and only if its size does not wrap around. |
| StorageDevices.SafeOnEveryDevice | include/IStorageDevice.h:301-318 | A write changes its own range only, on every device that keeps the contract, if and only if the range ends on a block boundary, touches one block, reaches past the last block, or has only zeros behind it in its last block. |
| StorageDevices.WriteIsExact | include/IStorageDevice.h:301-318 | For given numbers of blocks read back and written: the new image is the old one with the transferred part of the data laid over it if and only if no byte behind the data is lost to the short pre-read. |
| StorageDevices.NothingIsLost | include/IStorageDevice.h:301-318 | No byte is lost if the blocks written were read, or the range ends on a block boundary, or the last block was not written; whole-block writes need no pre-read. |
| StorageDevices.ReportIsTrue | include/IStorageDevice.h:317-322 | For a given number of blocks written: the reported size is the number of bytes written if and only if all blocks were. |
| StorageDevices.ReportIsTrueOnEveryDevice | include/IStorageDevice.h:317-322 | The report is true on every device that keeps the contract if and only if one block is touched or the range starts behind the last block. |
| StorageDevices.ShortPreReadClearsByte | include/IStorageDevice.h:306-317 | A concrete write after a short pre-read that clears a byte outside its range. |
| StorageDevices.RunCalls | include/IStorageDevice.h:259-323 | On a complete, writable device any sequence of in-range reads and writes ends with the image, and returns the bytes, of a flat byte array. |
| ByteRanges.RunsKeepLatest | include/IStorageDevice.h:259-323 | After a run every address holds the byte of the latest write that covers it. |
| ByteRanges.ReadsSeeLatest | include/IStorageDevice.h:259-286 | Every read of a run returns the latest bytes of its range. |
| ByteRanges.Covering | include/IStorageDevice.h:264-267 | The blocks from the first to the last cover the byte range and no block is idle. |
| EfiHandoff.AlignDownIsFloor | include/IA64EfiHandoffLayout.h:177-179 | For every power of two the mask gives the value less its remainder. |
| EfiHandoff.AlignUpIsCeiling | include/IA64EfiHandoffLayout.h:181-186 | The smallest multiple that is not below the value, and 0 exactly when the addition wraps around. |
| EfiHandoff.EfiHandoffLayout.TryCompute | include/IA64EfiHandoffLayout.h:188-297 | Succeeds exactly above 0x350000 bytes; then the region is page aligned, above the low memory and less than a page below the stack, it ends 0x200000 bytes above its base, and under every name stands the address that the map of literal distances gives it; otherwise all is zero. |
| EfiHandoff.AddressesPublish | include/IA64EfiHandoffLayout.h:97-175 | Each of the 79 names lies at its distance on the map, and everything on the map is published. |
| EfiHandoff.GuardsNeverReject | include/IA64EfiHandoffLayout.h:198-213 | Above the first guard no operation wraps around and no later guard rejects. |
| EfiHandoff.PlacedAt | include/IA64EfiHandoffLayout.h:198-216 | A base is page aligned, above the low memory and places the region less than a page below the stack if and only if the memory has at least 0x350000 bytes and the base is 0x250000 below its last page boundary. |
| EfiHandoff.BaseIsMonotone | include/IA64EfiHandoffLayout.h:207-207 | More memory never places the region lower, and two sizes share a base exactly if they end in the same page. |
| EfiHandoff.PlacedIsSeparate | include/IA64EfiHandoffLayout.h:198-216 | Low memory, region, stack and guard do not overlap and lie in the memory. |
| EfiHandoff.AddressIsInside | include/IA64EfiHandoffLayout.h:217-295 | Every published address lies inside the region, a multiple of 32 bytes above the base, where the map has its name. |
| EfiHandoff.AddressesAreApart | include/IA64EfiHandoffLayout.h:217-295 | No two names share an address: they are at least 32 bytes apart. |
| Ia64Formats.FieldIsDigits | include/ia64_formats.h:333-336 | Shift and mask cut out the binary digits of the field. |
| Ia64Formats.SignExtendIsTheCongruent | include/ia64_formats.h:339-346 | For 1 to 63 bits, sign extension gives the one number in the signed range that is congruent to the value modulo the power of two. |
| Ia64Formats.SignExtendIsInRange | include/ia64_formats.h:339-346 | The result is in the signed range exactly if no bits are set above the sign bit or the sign bit is set. |
| Ia64Formats.ExtractScattered | include/ia64_formats.h:350-358 | Decoding an instruction into which a 22-bit immediate was scattered gives the immediate, whatever the other bits are. |
| Ia64Formats.ScatterExtracted | include/ia64_formats.h:350-358 | Every 64-bit word is the scattering of its own immediate into its own other bits: decoding loses nothing. |
| Watchpoints.OverlapIsTrue | include/Watchpoint.h:179-183 | For all ranges and accesses, exactly when the comparison of the ends tells the truth about a shared byte. |
| Watchpoints.ShouldTriggerIsExact | include/Watchpoint.h:174-204 | Without wrap-around and with a non-empty range: enabled, some byte shared, the kind matches and the limit is not reached, and only then. |
| Watchpoints.LastByteIsNeverWatched | include/Watchpoint.h:180-183 | An access that ends where the address space ends never triggers. |
| Watchpoints.Watchpoint.CheckCondition | include/Watchpoint.h:211-242 | For each condition, when it holds of the value, and what is remembered afterwards; a change is against the remembered value and the first value is none. |
| Watchpoints.Watchpoint.Check | src/mmu/mmu.cpp:573-650 | One access on one watchpoint: it fires exactly if it should trigger and its value satisfies the condition, counts, and disables the watchpoint at the limit; a watchpoint for changes reports the new value as the old. |
| Watchpoints.StateSumsUpTheRun | src/mmu/mmu.cpp:573-650 | After any run the counter is the number of firings modulo 2^64, never above the limit, the watchpoint is enabled exactly below it, and it remembers the last matching value. |
| Watchpoints.FiresExactlyWhen | include/Watchpoint.h:174-242 | In any run an access fires if and only if its end lies above the start of the range and its address below the end, its kind matches, the limit was not reached before it, and its value is equal, unequal, greater or less as the condition says, or differs from that of the matching access before it, where the first never counts. |

## Left out

- File and host I/O: `saveToFile`, `loadFromFile` and raw device files; a text or an image arrives as a value.
- The wording and the positions of exceptions; the model keeps one error per throw site. `validate`'s messages are kept as a list of flaws.
- `createMinimal`, `createStandard`, `addStorageDevice`, `getResourceSummary`, the converting constructors, and `hasNext`, `isObjectStart`, `isArrayStart` of the parser, which the codec never calls.
- `serialize` of create, operation, snapshot, log and metrics responses: straight-line text of the same kind, or floating-point output.
- Locale: numbers are printed and read as in the C locale. `size_t` has 64 bits and `char` is signed with 8.
- UTF-8: a byte from 0x80 stands for itself in the strict decoder; whether bytes form valid UTF-8 is not looked at.
- Byte range of characters: most definitions are total on Dafny's `char`; bytes are singled out only where 0x80 and above matter.
- Configuration records are values: the C++ structs are filled in place by their readers, the model replaces the whole record. Aliasing of a record during its reading is not captured.
- The key comparisons of `fromJson`, the array loops inside it and one turn of its object loop are methods of their own, as are one turn of the string loop and the filling of the block buffer in `writeBytes`.
- StatusUpdate data: a sequence of pairs in the order in which the `std::map` is traversed; that its keys are sorted and distinct is not used.
- StorageDevices.StorageDevice.ReadBytes: a block buffer of 2^63 bytes or more, for which a `std::vector` of bytes throws, and an allocation that fails for lack of memory. Offsets and sizes are otherwise all of 64 bits; devices of 2^63 bytes or more are not modelled.
- StorageDevices.StorageDevice.WriteBytes: likewise. A device that fails a write is taken to have changed nothing.
- StorageDevices.StorageDevice.WriteBlocks: which number of blocks a device transfers is chosen arbitrarily within the documented contract; only a complete device transfers all that it is asked for.
- EfiHandoff.AddressIsInside: the 79 address fields are one function of the name, the names in five groups; how large the structures at the addresses are is not modelled.
- Ia64Formats: shift counts of 64 and more, which C++ leaves undefined, are excluded; `reconstructImm64` is a stub that returns 0.
- Watchpoints.Watchpoint.Check: the callback, its control flags, the instruction trace, logging, and the loop over several watchpoints.
- Watchpoints.FiresExactlyWhen: settings that are changed in the middle of a run.
- The MMU, the CPU, decoders, boot state machines, snapshots, scheduling, servers and the user interfaces.
