# Gecko code-list toolchain, modelled in Dafny

This project models the core of a toolchain that turns a code list into patches for GameCube and Wii games.
A code list is a manifest of named cheat codes, each backed by a C file.
Each code is emitted as Gecko or Ocarina code-type records.
The project has four parts:

- **compile.py.** The Python driver of the code-list compiler. The model covers:
  - validation of the `Code` and `CodeList` manifest records, including the in-place trimming and the `global_set` default;
  - `ValidationError`'s text;
  - `mingw_fixpath`, and the one-match rule for source files;
  - the `bin2c` byte-to-C-array encoder;
  - writing the generated headers `standard_defs.h` and `standard.h`.
- **src/gecko.c.** The Gecko code-type encoder. Its global state is a class: the label-line counter, the label pass, the output handle and the binary flag. The model covers:
  - every `__G_*__` encoder, as the two 32-bit words it packs;
  - the record printer, in text (`%08X %08X\n`) and binary (big-endian) form;
  - the padding loops of `G_WriteString`, `G_ExecuteAssembly` and `G_InsertAssembly`.
- **include/gecko.h.** The older standalone encoder. It has the same records, printed to standard output. The model covers:
  - the 231-line cap;
  - the two-pass label protocol of `G_BeginCode` / `G_DefineLabel` / `G_GetLabel` / `G_EndCode`;
  - the `G_If8*` extensions.
- **src/standard.c.** The generated program's `main`: how it folds the command-line options into an output format and output file.

Each module follows one part of the source:

| module | models |
|---|---|
| `Wrappers` | `Option`, `Result` and the pass/fail `Outcome` |
| `PyStr` | the Python string builtins compile.py relies on: `strip`, `replace`, `any(...)`, `StringIO` line iteration, `f'{n:d}'` |
| `Validation` | `Code.validate` and `CodeList.validate` as functions on record values (the specification), and `ValidationError.__str__` |
| `Records` | the `Code` and `CodeList` objects as classes whose `Validate` methods trim fields in place, proved against `Validation` |
| `Paths` | `mingw_fixpath`, and the source-file lookup over a given list of matches |
| `Bin2C` | `bin2c` without a header directory: the checks, and the nested 64 KiB / W-byte read loop proved against the joined-elements text; decoding lemmas |
| `HeaderGen` | the `standard_defs.h` and `standard.h` writers, proved against the text functions |
| `GeckoTypes` | the code-type enums, hex and big-endian record formats with their parsers, int16_t wrap-around, `__RoundUpToNearestS__` |
| `GeckoWords` | the words every encoder packs, stated field by field; the padded payloads |
| `GeckoEmitter` | src/gecko.c's state and encoders as the class `Emitter` |
| `GeckoLegacy` | include/gecko.h: the label protocol as a statement-sequence semantics, and the coder class `LegacyCoder` |
| `Standard` | src/standard.c's option loop |

A method that changes state is proved against a function of the old state.
For example, `Emitter.Write` appends exactly `RecordBytes(isBin, WriteWords(...))` when the encoder is let through, and appends nothing otherwise.
The properties the source promises are proved as lemmas about those functions.

## Model

| member | source | states |
|---|---|---|
| PyStr.LStripShape | compile.py:196-206 | `lstrip()` keeps a suffix of the text that starts on a non-space, and cuts only whitespace |
| PyStr.RStripShape | compile.py:196-206 | `rstrip()` keeps a prefix of the text that ends on a non-space, and cuts only whitespace |
| PyStr.StripShape | compile.py:196-206 | `strip()` returns a contiguous piece of the text with no whitespace at either end; everything cut away is whitespace |
| PyStr.StripIdempotent | compile.py:196-206 | stripping a stripped string changes nothing |
| PyStr.ContainsAnyMeans | compile.py:210 | the `any(s in x for s in chars)` test holds exactly when some character of the field is in the forbidden set |
| PyStr.ReplaceChar | compile.py:375 | `str.replace` with one-character arguments keeps the length and swaps exactly the occurrences of the old character |
| PyStr.ReplaceEachMeans | compile.py:375 | replacing each forbidden character in turn maps every forbidden character to the replacement and keeps every other character |
| PyStr.NewlineAt | compile.py:654 | the first line of a text ends at its first newline: nothing before that index is a newline |
| PyStr.StringIOLinesConcat | compile.py:654 | the lines `StringIO` yields, put back together, are exactly the text |
| PyStr.StringIOLinesShape | compile.py:654 | every yielded line is non-empty; every line but the last ends in a newline; no line has a newline anywhere else |
| PyStr.Decimal | compile.py:432 | `f'{n:d}'` is a non-empty string of decimal digits |
| PyStr.DecimalRoundTrip | compile.py:432 | reading the decimal digits back gives the number |
| Validation.ErrorText | compile.py:152-153 | the definition of `ValidationError.__str__`: `Failed to validate "<name>": <message>`, from the field's name and the message; the rows below state what it determines |
| Validation.FieldNameInjective | compile.py:145-153 | different fields have different names in the error text |
| Validation.MessageTextInjective | compile.py:145-153 | different validation messages have different texts |
| Validation.SplitErrorText | compile.py:152-153 | `Failed to validate "<name>": <message>` splits back into its name and message when the name has no quote |
| Validation.ErrorTextInjective | compile.py:152-153 | the text of a `ValidationError` determines which field failed and why |
| Validation.StripValIdempotent | compile.py:196-206 | `if isinstance(x, str): x = x.strip()` changes nothing the second time |
| Validation.CheckScalarMeans | compile.py:208-221 | the name-field check passes exactly on single-line strings free of `: \ / " ' . %`; a failure carries that field's name, and it is the single-line message exactly when the value is not a string or has a newline |
| Validation.TrimCodeIdempotent | compile.py:195-206 | trimming a code's fields twice is trimming once |
| Validation.CheckDescriptionMeans | compile.py:223-227 | a description passes when it is absent, or when it is a string free of `\ " ' %`; newlines, `.` and `:` are allowed |
| Validation.ValidateCode | compile.py:195-229 | the definition of `Code.validate` on a record value: trim the string fields, then check file, name, author and description in that order; the accepted record is the trimmed one, a rejection carries the first failing field's error |
| Validation.ValidateCodeMeans | compile.py:195-229 | `Code.validate` accepts exactly the records whose trimmed fields pass; the accepted record is the trimmed one; a rejection names the first bad field in the order file, name, author, description |
| Validation.ValidateCodeIdempotent | compile.py:195-229 | validating an accepted code again changes nothing and raises nothing |
| Validation.ValidateCodeAfterTrim | compile.py:195-206 | the outcome of validation depends only on the trimmed fields: a record trimmed by an earlier, failed validation validates exactly as before |
| Validation.EmptyFieldsAccepted | compile.py:208-209 | empty strings pass validation although the error message speaks of "non-empty" strings |
| Validation.ValidateCodes | compile.py:334 | validating the codes in order keeps one (trimmed) code per input code |
| Validation.ValidateCodesMeans | compile.py:334 | `all(c.validate() for c in codes)` passes exactly when every code passes, and then each code is its trimmed form |
| Validation.ValidateCodesFailsAt | compile.py:334 | when the first k codes pass and code k fails, the list fails with code k's error: the rest go unchecked |
| Validation.ValidateCodesFirstFailure | compile.py:334 | a rejected list carries the error of its first rejected code |
| Validation.ValidateCodesIdempotent | compile.py:334 | validating accepted codes again changes nothing |
| Validation.TrimHeaderIdempotent | compile.py:269-287 | trimming the list's own fields twice (with the `global_set` default) is trimming once |
| Validation.ValidateCodeList | compile.py:268-336 | the definition of `CodeList.validate`: trim the list's fields and default `global_set`, check them in source order, then validate the codes in order; the accepted list holds the trimmed codes |
| Validation.ValidateCodeListIdempotent | compile.py:268-336 | validating an accepted code list again changes no field, neither its own nor its codes', and raises nothing |
| Validation.GlobalSetDefault | compile.py:284-287 | an absent `global_set` is validated, and kept, as the string "none" |
| Validation.GameIdLength | compile.py:309-312 | once the earlier scalar fields pass, a `game_id` whose trimmed form is not a six-character string is rejected, as `game_id` |
| Validation.ValidateCodeListShape | compile.py:268-336 | every accepted list has good scalar fields, a six-character `game_id`, a string `global_set`, and codes that are all accepted records |
| Validation.CheckGameIdMeans | compile.py:309-312 | the `game_id` check passes exactly on a clean single-line str of six characters |
| Validation.CheckAssembliesMeans | compile.py:317-321 | the `assemblies` check passes exactly on None or a list of strs each free of `: \ / " ' . % -` and space |
| Validation.CheckHeaderMeans | compile.py:289-332 | the checks of the list's own fields pass exactly when every one of them is good: the four scalars, `game_id`, `codes` a list of `Code`, `assemblies`, `global_set` |
| Validation.ValidateCodeListMeans | compile.py:268-336 | `CodeList.validate` accepts exactly the lists whose trimmed own fields are good and whose every code passes `Code.validate`; the accepted list is the trimmed one with each code trimmed, in order |
| Validation.ValidateCodeListRejects | compile.py:289-334 | a rejected list names the first failing field in the order project, title, author, game, `game_id`, codes, assemblies, `global_set`; when they all pass, it carries the error of the first rejected code |
| Validation.UnquoteProject | compile.py:472-473 | the project argument loses its outer quotes exactly when both ends hold the same quote character; an empty argument raises; a lone `"` or `'` becomes the empty string |
| Validation.MatchInvocation | compile.py:500-508 | the list is accepted exactly when its author and project are the ones it was invoked for; a failure is the author message exactly when the authors differ, and the project message otherwise |
| Records.Code.constructor | compile.py:180-184 | a new Code holds the given fields; the description defaults to absent |
| Records.Code.Validate | compile.py:195-229 | the fields end up trimmed whether or not a check fails; the outcome is `ValidateCode` of the fields as they were |
| Records.CodeList.constructor | compile.py:242-251 | a new CodeList holds the given fields |
| Records.CodeList.Validate | compile.py:268-336 | the list's own fields end up trimmed, with `global_set` defaulted, whatever the outcome; the outcome is `ValidateCodeList` of the list as it was; on success the list and its codes are the validated value; every code object is either untouched or trimmed |
| Records.CodeList.TrimOwnFields | compile.py:269-286 | the first pass strips the list's own string fields and defaults `global_set`, leaving the codes alone |
| Records.CodeList.ValidateTrimmed | compile.py:287-336 | after trimming, the checks and the per-code pass give `ValidateCodeList`'s outcome on the original list |
| Records.ValidateAll | compile.py:334 | validating the Code objects one by one gives `ValidateCodes`'s outcome on their values; on success the objects hold the validated codes, even when one object is listed twice |
| Records.ValidateNext | compile.py:334 | one step of the loop trims exactly the objects seen so far and reports that code's outcome |
| Paths.MingwFixpath | compile.py:63-70 | the definition of `mingw_fixpath`: on MINGW, substitute the drive prefixes at line starts, then turn every `\` into `/`; elsewhere the path is returned unchanged |
| Paths.SubDrives | compile.py:63-70 | the drive-letter substitution keeps the text's length |
| Paths.SubDrivesPointwise | compile.py:63-70 | each drive letter followed by `:` at a line start becomes `/` and that letter in lower case; every other character is kept |
| Paths.SubDrivesNoMatch | compile.py:63-70 | a text with no drive prefix at any line start goes through the substitution unchanged |
| Paths.MingwFixpathShape | compile.py:63-70 | on MINGW the fixed path has the same length, no backslash and no drive prefix at a line start; elsewhere the path is unchanged |
| Paths.MingwFixpathIdempotent | compile.py:63-70 | fixing a fixed path changes nothing |
| Paths.MingwFixpathExample | compile.py:63-70 | `C:\x` becomes `/c/x` |
| Paths.ResolveSource | compile.py:533-549 | a code's source resolves exactly when there is one match and it is a file, and the result is that match's path |
| Bin2C.Bytes | compile.py:351-354 | the word width is 1, 2 or 4 bytes |
| Bin2C.SanitizeName | compile.py:375 | the definition of the name clean-up: each forbidden character replaced by `_`, one character at a time |
| Bin2C.SanitizeNameMeans | compile.py:375 | the sanitised name keeps its length; each of `: \ / " ' . % -` and space becomes `_`; every other character is kept; no forbidden character is left |
| Bin2C.SizeLimit | compile.py:362-371 | bin2c fails with the size error exactly when size times W exceeds 0xFFFFFFFF; the limit it names times W is always 4 GiB |
| Bin2C.PathErrorIsNotSizeError | compile.py:362-386 | an output-path error is never mistaken for the size error |
| Bin2C.Bin2CResult | compile.py:356-433 | the definition of `bin2c` without a header directory: the size check, then the source-directory checks (missing, a file, the output path a directory), then the C text of prefix, elements and suffix |
| Bin2C.Bin2CAsWritten | compile.py:358-360 | bin2c as written: the `os.SEEK_END` call right after opening the input raises NameError, because `os` itself is never imported |
| Bin2C.Bin2CAsWrittenNeverIntended | compile.py:358-360 | as written, bin2c fails on every input and never gives the outcome the intended `Bin2CResult` gives, neither its file nor its errors |
| Bin2C.Bin2CSuccess | compile.py:398-433 | on success the file is written at `<srcdir>/<name>.c`; its text is the prefix, the elements joined by `", "`, and a suffix naming ceil(size / W); the element count is ceil(size / W) |
| Bin2C.Bin2C | compile.py:356-433 | the method's checks, in order, and its written text agree with `Bin2CResult` for every input |
| Bin2C.WriteSource | compile.py:402-433 | the writes to the C file, in order, add up to prefix, body and suffix |
| Bin2C.EncodeBody | compile.py:415-432 | the outer read loop writes exactly the elements joined by `", "`, and the final position divided by W is the element count |
| Bin2C.ReadChunk | compile.py:417-427 | one turn of the outer loop reads the next 64 KiB and ends on a group boundary, or at the end of the data |
| Bin2C.EncodeChunk | compile.py:421-427 | the inner loop over one chunk writes the elements of the groups inside it, each followed by `", "` while data remains |
| Bin2C.NextGroup | compile.py:421-427 | one turn of the inner loop moves position and element count on by one group and extends the text by that element |
| Bin2C.WriteGroup | compile.py:421-427 | one group is written as its element, with the separator exactly when data follows |
| Bin2C.ChunkStep | compile.py:417-427 | writing the group read next extends the text by the next element, then `", "` when more data follows |
| Bin2C.ChunkDone | compile.py:417-427 | after a chunk, either the next chunk starts exactly where the groups stopped, or all groups are written |
| Bin2C.GroupInChunk | compile.py:417-427 | a group read inside a 64 KiB chunk is never cut short by the chunk's end before the data's end |
| Bin2C.NextElement | compile.py:417-427 | element n is `0x` followed by group n's hex, left-padded to 2W digits; appending it, and `", "` when data follows, extends the joined text |
| Bin2C.JoinedUpToJoin | compile.py:417-427 | the text after n elements is the `", "`-join of the first n elements, plus a trailing separator while more follow |
| Bin2C.MoreData | compile.py:417-427 | the position is short of the size exactly when groups remain |
| Bin2C.CountUnique | compile.py:417-427 | the group count is the only n whose n groups first reach past the data |
| Bin2C.GroupStart | compile.py:417-427 | group n starts at byte W·n, and the next group starts W bytes on |
| Bin2C.CountBounds | compile.py:417-421 | ceil(size / W) groups cover the data, and one fewer does not; for a multiple of W they end exactly at the end |
| Bin2C.GroupsPartition | compile.py:417-421 | the groups, read back in order, are the data; none is empty or longer than W; all have length W when W divides the size |
| Bin2C.GroupsConcat | compile.py:417-421 | concatenating the groups gives the data |
| Bin2C.GroupSizes | compile.py:417-421 | every group has 1 to W bytes, and exactly W when W divides the size |
| Bin2C.GroupsPrefix | compile.py:417-421 | the first n groups are the first W·n bytes of the data, or all of it |
| Bin2C.LastGroup | compile.py:417-421 | the first n groups are the first n - 1 groups and the bytes from W·(n-1) up to W·n, cut at the end |
| Bin2C.Hex | compile.py:424 | `bytes.hex()` writes two digits per byte |
| Bin2C.HexIsHex | compile.py:424 | `bytes.hex()` writes only hex digits |
| Bin2C.LeftPad | compile.py:424 | `f'{s:0>{n}}'` has length n, or stays as long as s when s is longer |
| Bin2C.HexDigitRoundTrip | compile.py:424 | each nibble's digit reads back as that nibble |
| Bin2C.ByteRoundTrip | compile.py:424 | one byte's two digits read back as the byte |
| Bin2C.ByteDigits | compile.py:424 | the high and low digits of a value under 256 read back as 16·high + low |
| Bin2C.HexRoundTrip | compile.py:424 | decoding the hex of some bytes gives the bytes back |
| Bin2C.HexValueIsBigEndian | compile.py:424 | the hex of some bytes denotes their big-endian value |
| Bin2C.HexValueLeftPad | compile.py:424 | left-padding with `0` does not change the value |
| Bin2C.ZerosValue | compile.py:424 | a run of `0` digits denotes 0 |
| Bin2C.Element | compile.py:422-424 | the definition of one array element: `0x` and the group's hex, left-padded with `0` to 2W digits |
| Bin2C.ElementValue | compile.py:422-424 | an element is `0x` and exactly 2W hex digits whose value is its group's big-endian value, the short final group included |
| Bin2C.ElementRoundTrip | compile.py:422-424 | a full group is read back unchanged from its element |
| Bin2C.ElementsRoundTrip | compile.py:422-424 | when W divides the size, decoding every element in order gives back the data |
| HeaderGen.ValidatedPrintable | compile.py:492 | every list `CodeList.validate` accepts can be printed, and no code's file name has a line break |
| HeaderGen.GenerateDefs | compile.py:696-719 | `standard_defs.h` is the opening, one declaration per code in list order, and the closing `#endif` |
| HeaderGen.Decl | compile.py:711-714 | the definition of one code's declaration line: a newline, then `void <file>(void);` |
| HeaderGen.DeclsSnoc | compile.py:711-714 | one more code adds exactly its own declaration line at the end |
| HeaderGen.DeclsRoundTrip | compile.py:711-714 | reading the declarations back gives exactly the codes' file names, in list order, when no name holds a line break |
| HeaderGen.DeclParse | compile.py:711-714 | a declaration line in front of more lines reads back as its name, then the rest |
| HeaderGen.GenerateStandard | compile.py:598-687 | `standard.h` is the opening, one code block per code in list order, and the closing |
| HeaderGen.CodeBlock | compile.py:636-679 | the definition of one code's block in `standard.h`: the header and call; when the description is non-empty, its lines prefixed `*` for Dolphin, then plain between the Ocarina markers; then the indent |
| HeaderGen.WriteCodeBlock | compile.py:636-679 | one iteration of the codes loop writes exactly that code's block |
| HeaderGen.WriteDescLines | compile.py:653-669 | one pass over a description writes each of its lines, in order, as a string literal |
| HeaderGen.CodeBlocksSnoc | compile.py:636-679 | the blocks of the first k + 1 codes are those of the first k, then code k's block |
| HeaderGen.CodeBlockDescription | compile.py:647 | a code gets description lines exactly when its description is non-empty |
| HeaderGen.DescLinesSingle | compile.py:654-656 | every description line written is free of line breaks, so it is one C string literal on one line |
| HeaderGen.DescLinesCover | compile.py:654 | the description's lines, in order, make up the whole description, and a non-empty one has at least one line |
| GeckoTypes.TypeOf | include/gecko.h:93-162 | the code type of a first word is a value below 8 |
| GeckoTypes.SubTypeOf | include/gecko.h:93-162 | the sub-type of a first word is a value below 16 |
| GeckoTypes.EnumsWellFormed | include/gecko.h:93-162 | every enumerated code type is `k << 29` and every enumerated sub-type `k << 25` |
| GeckoTypes.TypeAndSubTypeDisjoint | include/gecko.h:93-162 | a code type and a sub-type share no bit, and both can be read back from their OR |
| GeckoTypes.HexDigitRoundTrip | src/gecko.c:58 | an uppercase digit reads back as its nibble |
| GeckoTypes.Hex8 | src/gecko.c:58 | `%08X` prints eight characters |
| GeckoTypes.Hex2 | src/gecko.c:50 | `%02X` prints two characters |
| GeckoTypes.ParseDigits | src/gecko.c:58 | eight uppercase digits read back as the word made of their nibbles |
| GeckoTypes.TextRecord | src/gecko.c:66-67 | the definition of a text record: the two words as `%08X`, separated by a space and ended by a newline |
| GeckoTypes.Hex8RoundTrip | src/gecko.c:58 | `%08X` prints uppercase hex that reads back as the word printed |
| GeckoTypes.BigEndian | src/gecko.c:55 | a binary word is four bytes |
| GeckoTypes.BigEndianRoundTrip | src/gecko.c:55 | the four big-endian bytes read back as the word |
| GeckoTypes.RecordBytes | src/gecko.c:60-68 | the definition of `__G_PrintCodeType__`'s output: the two words byte-swapped to big-endian in binary mode, the text record otherwise |
| GeckoTypes.RecordRoundTrip | src/gecko.c:61-69 | a text record is 18 bytes and a binary record 8 bytes; either reads back as the record |
| GeckoTypes.Wrap16 | src/gecko.c:75 | the conversion of an int to `int16_t`: the result lies in -0x8000 to 0x7FFF (its type); the rows below state that it is reduction modulo 2^16 |
| GeckoTypes.Wrap16Residue | src/gecko.c:75 | an int16_t value is congruent to the int it came from, modulo 2^16 |
| GeckoTypes.Wrap16Id | src/gecko.c:75 | an int in the int16_t range is kept as it is |
| GeckoTypes.Wrap16Congruent | src/gecko.c:75 | the int16_t value depends only on the int modulo 2^16 |
| GeckoTypes.Wrap16Succ | src/gecko.c:91 | counting on from a wrapped counter is wrapping the successor |
| GeckoTypes.Wrap16Sub | src/gecko.c:96-104 | the difference of wrapped values wraps to the wrapped difference |
| GeckoTypes.LabelDistance | src/gecko.c:96-104 | the absolute difference, truncated and negated when the label is behind, is the difference reduced to int16_t; in range, it is the plain difference |
| GeckoTypes.Low16Of | src/gecko.c:205 | `x & 0xFFFF` of a possibly negative int is below 2^16 |
| GeckoTypes.RoundUpS | src/gecko.c:33-37 | `__RoundUpToNearestS__` stays a uint32 value |
| GeckoTypes.RoundUp8Means | src/gecko.c:33-37 | rounding up to 8 is ceil(n / 8)·8 modulo 2^32: 0 stays 0, and otherwise (short of the wrap) the result is the multiple of 8 in [n, n + 8) |
| GeckoTypes.RoundUp2Means | src/gecko.c:33-37 | rounding up to 2 is ceil(n / 2)·2 modulo 2^32; only 2^32 - 1 wraps, to 0 |
| GeckoWords.RegOrZero | src/gecko.c:190-191 | a missing register becomes GR_0; a given one is kept |
| GeckoWords.PointerReg | src/gecko.c:277-319 | GR_15 is stored exactly for a missing register or a pointer-flagged code; otherwise the register is kept, except that a real GR_15 becomes GR_14 |
| GeckoWords.WriteWords | src/gecko.c:123-129 | the definition of `__G_Write__`'s record: type, sub-type, flags and address in the first word; the extra count in the upper half and the value in the lower half of the second |
| GeckoWords.WriteFields | src/gecko.c:123-129 | a write record has type 0, the sub-type and flags in the top byte, the address in the low 24 bits, and the extra count and value in the two halves of the value word |
| GeckoWords.LogicalOr | src/gecko.c:165 | C's `a || b` is 0 or 1 |
| GeckoWords.SerialWordsAsWritten | src/gecko.c:158-167 | the serial write as written: the count field is built from `(count \|\| 1) - 1` |
| GeckoWords.SerialAsWrittenIgnoresCount | src/gecko.c:165 | as written, the serial write's records do not depend on the requested count |
| GeckoWords.SerialAsWrittenExample | src/gecko.c:165 | as written, a request for five writes encodes a count field of 0 (one write) |
| GeckoWords.SerialCountField | src/gecko.c:165 | the count field the serial write evidently intends: `count ? count : 1`, minus one, in bits 16-27 |
| GeckoWords.SerialWords | src/gecko.c:158-167 | a serial write is two records |
| GeckoWords.SerialCountFieldValue | src/gecko.c:158-167 | the intended count field holds count - 1 for a count of 1 to 4096, and 0 for a count of 0, only in bits 16-27 |
| GeckoWords.SerialCountRoundTrip | src/gecko.c:158-167 | with the intended count, bits 16-27 of the second word read back as count - 1 |
| GeckoWords.SerialZeroCount | src/gecko.c:158-167 | a count of 0 is treated as 1 |
| GeckoWords.SerialAddressIncrement | src/gecko.c:158-167 | the address increment fills the low half of the second word and the value increment is its value word |
| GeckoWords.SerialSecondWord | src/gecko.c:158-167 | the count field and the address increment do not overlap in the second word |
| GeckoWords.IfWords | src/gecko.c:173-179 | the definition of `__G_If__`'s record: the address plus the endif bit in the first word, mask and value in the second |
| GeckoWords.IfFields | src/gecko.c:173-179 | an if record has type 1, the endif bit in bit 0 of the aligned address, and mask and value in the two halves of the value word |
| GeckoWords.LegacyIfSetsEndif | include/gecko.h:339-345 | an if code from include/gecko.h always has the endif bit set |
| GeckoWords.If8Equal | include/gecko.h:948-950 | `G_If8Equal` is the 16-bit equality test with mask 0xFF |
| GeckoWords.If8NotEqual | include/gecko.h:952-954 | `G_If8NotEqual` is the 16-bit inequality test with mask 0xFF, on the value truncated to 16 bits |
| GeckoWords.If8GreaterThan | include/gecko.h:956-958 | `G_If8GreaterThan` is the 16-bit greater-than test with mask 0xFF, on the value truncated to 16 bits |
| GeckoWords.If8LessThan | include/gecko.h:960-962 | `G_If8LessThan` is the 16-bit less-than test with mask 0xFF, on the value truncated to 16 bits |
| GeckoWords.BAOrPOWords | src/gecko.c:185-200 | the definition of `__G_BAOrPO__`'s record: the flags without GCF_ADDRISSTACK, the offset flags BAOrPOOffsetRules describes and the register (GR_0 for none); the address is the value word |
| GeckoWords.BAOrPOOffsetRules | src/gecko.c:185-200 | write sub-types drop GOF_ADDTO, a missing register drops GOF_GECKOREG, a pointer-flagged code gets GOF_PTRORBASEADDR, and no other offset bit changes |
| GeckoWords.SetToCodeAddressWords | src/gecko.c:202-207 | the first word's low half is the offset's two's-complement bits, and the value word is 0 |
| GeckoWords.JumpField | src/gecko.c:213-228 | the stored jump field is offs - 1 for a forward offset, 0 for offset 0, and offs + 1 for a backward offset |
| GeckoWords.ControlFlowWords | src/gecko.c:213-228 | the definition of `__G_ControlFlow__`'s record: GES_NONE becomes GES_TRUE, the count OR the jump field in the low half, GB_NONE becomes GB_0 in the value word |
| GeckoWords.ControlFlowFields | src/gecko.c:213-228 | a control-flow record has type 3, the count OR the jump field in the low half, GES_TRUE for GES_NONE, and GB_0 for GB_NONE |
| GeckoWords.SetRepeatCount | include/gecko.h:500-502 | `G_SetRepeat`'s offset of 1 leaves the repeat count alone in the low half |
| GeckoWords.GRWords | src/gecko.c:234-250 | the definition of `__G_GR__`'s record: the flags without GCF_ADDRISSTACK, the offset flags GROffsetRules describes, the data type and the register (GR_0 for none); the address or value is the value word |
| GeckoWords.GROffsetRules | src/gecko.c:234-250 | only GCST_GRSET keeps GOF_ADDTO, a pointer-flagged code gets GOF_PTRORBASEADDR, GOF_GECKOREG is always dropped, and no other offset bit changes |
| GeckoWords.GROperationWords | src/gecko.c:252-266 | a register-register operation stores the second register (GR_0 for none) as its value; any other operation stores the value |
| GeckoWords.CopyMemWords | src/gecko.c:268-295 | the definition of `__G_CopyMem__`'s record: the register on the memory side through PointerReg, the other defaulting to GR_0, the count at bits 8-23, the stack flag dropped |
| GeckoWords.CopyMemFields | src/gecko.c:268-295 | a copy record has type 4 and the count at bits 8-23; the register on the memory side is GR_15 exactly when missing or pointer-flagged, the other defaults to GR_0; the stack flag is dropped |
| GeckoWords.RegisterNibbles | src/gecko.c:268-295 | count and registers read back from their bit fields |
| GeckoWords.SpecIfWords | src/gecko.c:301-324 | the definition of `__G_SpecIf__`'s record: comparing two registers zeroes the address; both registers go through PointerReg under the flags kept |
| GeckoWords.SpecIfRegisters | src/gecko.c:301-324 | when both registers are given neither is stored as GR_15 and the pointer flag is dropped; otherwise GR_15 marks exactly a missing or pointer register |
| GeckoWords.SpecIfGecko | src/gecko.c:301-324 | a special-if record has type 5; comparing two registers leaves only the endif bit in the address and no pointer or stack flag |
| GeckoWords.SpecIfValue | src/gecko.c:301-324 | the value word holds the second register, the first register and the mask |
| GeckoWords.ValueNibbles | src/gecko.c:301-324 | the two registers and the mask read back from the value word |
| GeckoWords.IfCounterWords | src/gecko.c:326-332 | the definition of `__G_IfCounter__`'s record: the counter in bits 4-19; the mask and the maximum in the two halves of the value word |
| GeckoWords.CreateBranchWords | src/gecko.c:394-399 | the definition of `G_CreateBranch`'s record: type 6 with GCST_ASMBRCH, the flags and the address; the branch target is the value word |
| GeckoWords.SwitchWords | src/gecko.c:401-405 | the definition of `G_Switch`'s record: GCT_MISC with GCST_SWITCH, and a zero value word |
| GeckoWords.RangeCheckWords | src/gecko.c:407-414 | the stack flag is the endif flag's, and start and end fill the two halves of the value word |
| GeckoWords.EndWords | src/gecko.c:420-426 | an end record has type 7, the else bit at bit 20, the endif count below it, and BA and PO in the two halves of the value |
| GeckoWords.EndGCTWords | src/gecko.c:428-432 | the end-of-list record is F0000000 00000000 |
| GeckoWords.StringPadded | src/gecko.c:138-143 | the definition of `G_WriteString`'s payload: the bytes, then zeros up to `__RoundUpToNearestS__(size, 3)` |
| GeckoWords.StringPaddedShape | src/gecko.c:138-143 | a string payload is its bytes followed by fewer than 8 zeros, to a multiple of 8 |
| GeckoWords.InsertCount | src/gecko.c:364-379 | the padded word count stays a uint32 value |
| GeckoWords.InsertCountMeans | src/gecko.c:364-379 | an odd count is padded by one word and an even count by two |
| GeckoWords.ExecPadded | src/gecko.c:338-349 | the definition of `G_ExecuteAssembly`'s payload: the words, then zeros up to the next even count |
| GeckoWords.InsertPadded | src/gecko.c:364-379 | the definition of `G_InsertAssembly`'s payload: padded to InsertCount words, a nop at even and zero at odd padding positions |
| GeckoWords.ExecPaddedShape | src/gecko.c:338-349 | an executed routine is its words and at most one zero word, to an even count |
| GeckoWords.InsertPaddedShape | src/gecko.c:364-379 | an inserted routine is its words padded to an even count; it always ends in a zero word; padding at even indices is a nop |
| GeckoWords.BinaryStringIsBytes | src/gecko.c:139-155 | in binary mode a string payload prints as exactly its bytes |
| GeckoWords.WordCellsAreRecords | src/gecko.c:345-361 | an assembly payload prints exactly like a sequence of records, one per pair of words |
| GeckoWords.WordCellsPair | src/gecko.c:345-361 | two more words print as one more record |
| GeckoWords.PairSeparators | src/gecko.c:345-361 | in text mode the separator within a pair is a space and after a pair a newline; binary mode has none |
| GeckoEmitter.Emitter.constructor | src/gecko.c:43-76 | the globals start with line 0, no label pass and empty output |
| GeckoEmitter.Emitter.CheckIfExec | src/gecko.c:90-93 | the line counter always advances as an int16_t; the encoder goes on exactly when not on the label pass and an output handle exists; the output is unchanged |
| GeckoEmitter.Emitter.Print8 | src/gecko.c:46-51 | one byte is appended, raw or as two digits |
| GeckoEmitter.Emitter.Print32 | src/gecko.c:53-59 | one word is appended, big-endian or as eight digits |
| GeckoEmitter.Emitter.PrintRecord | src/gecko.c:61-69 | exactly the record's bytes are appended |
| GeckoEmitter.Emitter.GetLabel | src/gecko.c:96-104 | 0 on the label pass, otherwise the target minus the current line, as an int16_t |
| GeckoEmitter.Emitter.Write | src/gecko.c:123-129 | the counter advances, and exactly the write record is appended when the encoder is let through |
| GeckoEmitter.Emitter.WriteString | src/gecko.c:131-156 | the header with the byte count, then the padded bytes, 8 to a line |
| GeckoEmitter.Emitter.WriteStringBytes | src/gecko.c:139-155 | the byte loop prints exactly the padded payload |
| GeckoEmitter.Emitter.SeparatorAfter | src/gecko.c:145-154 | the separator after item idx: nothing in binary mode, else a newline at the end or after every line, or a space after every group |
| GeckoEmitter.Emitter.WriteSerial | src/gecko.c:158-167 | the two serial records, with the intended count field |
| GeckoEmitter.Emitter.If | src/gecko.c:173-179 | exactly the if record is appended when the encoder is let through |
| GeckoEmitter.Emitter.BAOrPO | src/gecko.c:185-200 | exactly the BA/PO record is appended when the encoder is let through |
| GeckoEmitter.Emitter.SetBAOrPOToCodeAddress | src/gecko.c:202-207 | exactly the code-address record is appended when the encoder is let through |
| GeckoEmitter.Emitter.ControlFlow | src/gecko.c:213-228 | exactly the control-flow record is appended when the encoder is let through |
| GeckoEmitter.Emitter.GR | src/gecko.c:234-250 | exactly the register record is appended when the encoder is let through |
| GeckoEmitter.Emitter.GROperation | src/gecko.c:252-266 | exactly the register-operation record is appended when the encoder is let through |
| GeckoEmitter.Emitter.CopyMem | src/gecko.c:268-295 | exactly the copy record is appended when the encoder is let through |
| GeckoEmitter.Emitter.SpecIf | src/gecko.c:301-324 | exactly the special-if record is appended when the encoder is let through |
| GeckoEmitter.Emitter.IfCounter | src/gecko.c:326-332 | exactly the if-counter record is appended when the encoder is let through |
| GeckoEmitter.Emitter.ExecuteAssembly | src/gecko.c:338-362 | a header with the pair count, then the words zero-padded to an even count, two per record |
| GeckoEmitter.Emitter.ExecuteAssemblyWords | src/gecko.c:345-361 | the word loop prints exactly the padded routine |
| GeckoEmitter.Emitter.InsertAssembly | src/gecko.c:364-392 | a header with the padded count, then the padded words |
| GeckoEmitter.Emitter.InsertAssemblyWords | src/gecko.c:373-391 | the word loop prints exactly the padded routine, nops included |
| GeckoEmitter.Emitter.CreateBranch | src/gecko.c:394-399 | exactly the branch record is appended when the encoder is let through |
| GeckoEmitter.Emitter.Switch | src/gecko.c:401-405 | exactly the switch record is appended when the encoder is let through |
| GeckoEmitter.Emitter.RangeCheck | src/gecko.c:407-414 | exactly the range-check record is appended when the encoder is let through |
| GeckoEmitter.Emitter.End | src/gecko.c:420-426 | exactly the end record is appended when the encoder is let through |
| GeckoEmitter.Emitter.EndGCT | src/gecko.c:428-432 | exactly the end-of-list record is appended when the encoder is let through |
| GeckoEmitter.Emitter.BeginGCT | src/gecko.c:438-442 | exactly the list header record is appended when the encoder is let through |
| GeckoLegacy.CallRecords | include/gecko.h:297-303 | the calls made print one record each |
| GeckoLegacy.CallRecordsAt | include/gecko.h:297-303 | record i is the record of call i |
| GeckoLegacy.CallRecordsAppend | include/gecko.h:297-303 | calls made one after the other print their records one after the other |
| GeckoLegacy.Stdout | include/gecko.h:297-303 | standard output holds 18 characters per record printed |
| GeckoLegacy.StdoutLine | include/gecko.h:297-303 | line i of standard output is the text of record i |
| GeckoLegacy.PassLabel | include/gecko.h:283-291 | `G_GetLabel` is 0 on the label pass, and otherwise the label minus the current line, as an int16_t |
| GeckoLegacy.StepLabels | include/gecko.h:275-277 | a statement keeps the number of label variables |
| GeckoLegacy.Step | include/gecko.h:255-291 | one statement keeps the number of label variables |
| GeckoLegacy.Run | include/gecko.h:255-291 | a pass keeps the number of label variables |
| GeckoLegacy.RunSnoc | include/gecko.h:255-291 | running one more statement is one more step |
| GeckoLegacy.LastDefine | include/gecko.h:275-277 | the last definition of a label, if any: it is that label's definition and none follows it; or there is none at all |
| GeckoLegacy.DefinedLabels | include/gecko.h:275-277 | the label pass leaves as many label variables as were declared |
| GeckoLegacy.RunLine | include/gecko.h:258-263 | a pass moves the line counter on by the body's code lines, as an int16_t |
| GeckoLegacy.LabelPass | include/gecko.h:255-277 | the label pass prints nothing, and leaves every label at the line of its last definition and every other label as it was |
| GeckoLegacy.DefinedLabelsSnoc | include/gecko.h:275-277 | one more statement changes the labels as one label-pass step does |
| GeckoLegacy.LastDefinePrefix | include/gecko.h:275-277 | a final statement that is no definition of the label does not move its last definition |
| GeckoLegacy.Calls | include/gecko.h:283-291 | the printing pass stands for one call per code line |
| GeckoLegacy.PrintPass | include/gecko.h:258-291 | a printing pass from line 0 prints the calls of its first 231 code lines and leaves the labels alone |
| GeckoLegacy.PrintStep | include/gecko.h:258-263 | a code statement counts one line, and prints only while the line is at most 231 |
| GeckoLegacy.TakeStep | include/gecko.h:258-263 | one more call under the cap is printed; past it, none is |
| GeckoLegacy.CallAt | include/gecko.h:283-291 | the call of the code statement at index i is the call with number Lines(body[..i]) |
| GeckoLegacy.LinesGrow | include/gecko.h:258-263 | a longer body has at least as many code lines |
| GeckoLegacy.LinesPrefix | include/gecko.h:258-263 | a prefix of a body has no more code lines than the body |
| GeckoLegacy.TwoPasses | include/gecko.h:255-291 | the definition of `G_BeginCode` ... `G_EndCode`: a label pass that records line numbers, then a printing pass that starts from the labels the first pass left |
| GeckoLegacy.TwoPassesPrint | include/gecko.h:269-291 | the two passes together print the first 231 calls, with every label standing for the line of its last definition |
| GeckoLegacy.JumpReachesLabel | include/gecko.h:269-291 | a jump printed on the second pass, to a label the body defines, carries the label's line minus its own line; the offset fits in an int16_t |
| GeckoLegacy.CallAtLine | include/gecko.h:283-291 | the call of a jump whose label holds line d carries d minus the jump's own line |
| GeckoLegacy.DefinedLine | include/gecko.h:275-277 | after the label pass, a defined label holds the number of code lines before its last definition |
| GeckoLegacy.OffsetIsDistance | include/gecko.h:283-291 | in range, a label offset is the plain difference |
| GeckoLegacy.LegacyCoder.constructor | include/gecko.h:255-256 | the statics start at line 0, not on the label pass, with nothing declared or printed |
| GeckoLegacy.LegacyCoder.DeclareLabel | include/gecko.h:266 | a new label variable holding 0 |
| GeckoLegacy.LegacyCoder.CheckIfExec | include/gecko.h:258-263 | the counter always advances; the encoder goes on exactly when not on the label pass and the new line is at most 231 |
| GeckoLegacy.LegacyCoder.DefineLabel | include/gecko.h:275-277 | on the label pass the label takes the current line; otherwise nothing changes |
| GeckoLegacy.LegacyCoder.GetLabel | include/gecko.h:283-291 | 0 on the label pass, otherwise the label minus the current line, as an int16_t |
| GeckoLegacy.LegacyCoder.Print | include/gecko.h:297-303 | one record is printed and nothing else changes |
| GeckoLegacy.LegacyCoder.Encode | include/gecko.h:258-263 | one more line, and the record printed exactly when the check lets it through |
| GeckoLegacy.LegacyCoder.Write | include/gecko.h:297-303 | the write record, under the cap |
| GeckoLegacy.LegacyCoder.If | include/gecko.h:339-345 | the if record with the endif bit set, under the cap |
| GeckoLegacy.LegacyCoder.If8Equal | include/gecko.h:948-950 | the 16-bit equality test with mask 0xFF, under the cap |
| GeckoLegacy.LegacyCoder.If8NotEqual | include/gecko.h:952-954 | the 16-bit inequality test with mask 0xFF, under the cap |
| GeckoLegacy.LegacyCoder.If8GreaterThan | include/gecko.h:956-958 | the 16-bit greater-than test with mask 0xFF, under the cap |
| GeckoLegacy.LegacyCoder.If8LessThan | include/gecko.h:960-962 | the 16-bit less-than test with mask 0xFF, under the cap |
| GeckoLegacy.LegacyCoder.BAOrPO | include/gecko.h:399-414 | the BA/PO record, under the cap |
| GeckoLegacy.LegacyCoder.SetBAOrPOToCodeAddress | include/gecko.h:416-421 | the code-address record, under the cap |
| GeckoLegacy.LegacyCoder.ControlFlow | include/gecko.h:483-498 | the control-flow record, under the cap |
| GeckoLegacy.LegacyCoder.GR | include/gecko.h:548-562 | the register record, under the cap |
| GeckoLegacy.LegacyCoder.GROperation | include/gecko.h:592-606 | the register-operation record, under the cap |
| GeckoLegacy.LegacyCoder.CopyMem | include/gecko.h:696-723 | the copy record, under the cap |
| GeckoLegacy.LegacyCoder.SpecIf | include/gecko.h:755-777 | the special-if record with the endif bit set, under the cap |
| GeckoLegacy.LegacyCoder.Switch | include/gecko.h:861-865 | the switch record, under the cap |
| GeckoLegacy.LegacyCoder.RangeCheck | include/gecko.h:867-874 | the range-check record, under the cap |
| GeckoLegacy.LegacyCoder.End | include/gecko.h:888-894 | the end record, under the cap |
| GeckoLegacy.LegacyCoder.EndOfCodeList | include/gecko.h:939-943 | the end-of-list record, under the cap |
| GeckoLegacy.LegacyCoder.Exec | include/gecko.h:258-291 | one statement of a body moves counter, labels and standard output as `Step` says |
| GeckoLegacy.LegacyCoder.RunBody | include/gecko.h:269-280 | one run of the body is one pass: its calls printed, as `Run` says |
| GeckoLegacy.LegacyCoder.BeginCode | include/gecko.h:269-280 | the body runs twice from line 0, the first time as the label pass; standard output then holds the first 231 calls, with the labels at their last definitions |
| Standard.ParseFormat | src/standard.c:107-120 | a `-c` value never yields "no format" |
| Standard.FirstLetterDiffers | src/standard.c:107-120 | names with different first letters cannot both match one value |
| Standard.ParseFormatMeans | src/standard.c:107-120 | a `-c` value selects a format exactly when it spells that format's name, ignoring ASCII case |
| Standard.Step | src/standard.c:66-144 | the definition of one pass of the option loop: after `--` options count as `'\1'`, a pass whose `argv[optind - 1]` is `--` continues, -1 breaks, and each option case updates a local or returns 1 |
| Standard.Terminal | src/standard.c:69 | the -1 getopt_long answers on every call once argv is used up, with `argv[optind - 1]` the last argument consumed |
| Standard.Parse | src/standard.c:66-146 | the reference option loop in which getopt_long's final -1 ends the loop whatever its last argument was |
| Standard.ParseAsWritten | src/standard.c:66-146 | the option loop as written: the items, then the final -1 repeated; a pass over that -1 that continues gives `Loops` |
| Standard.RunsOut | src/standard.c:66-146 | the loop reads every item while argv lasts without breaking or returning |
| Standard.Finish | src/standard.c:147-169 | errors are kept; `-h` gives the usage text; otherwise the format defaults to Dolphin, the chosen one is kept, the output is binary exactly for GCT and raw, and the file name and `-y` flag are kept; it never hangs |
| Standard.ParseCommandLine | src/standard.c:54-169 | the option loop as written, with getopt_long's final -1 repeated once argv is used up, and what follows it: the result is `Conclude(ParseAsWritten(...))` for every option stream, including `Hangs` when the loop spins |
| Standard.TerminalSpins | src/standard.c:69-84 | the final -1 leaves the loop with the options unchanged when the last argument was not `--`; after `--` it continues into a state where the same -1 continues again |
| Standard.AsWrittenAgrees | src/standard.c:66-146 | the loop as written gives `Loops` exactly when it reads all of argv and the last argument is `--`; otherwise it gives the reference `Parse` result |
| Standard.CommandLineAgrees | src/standard.c:54-169 | `main` as written hangs exactly in those runs, and otherwise ends as the reference does |
| Standard.TrailingDashDashHangs | src/standard.c:77-84 | `prog --` and `prog -o --` never leave the loop, where the reference prints the list as Dolphin text |
| Standard.CodefmtOption | src/standard.c:99-122 | a `-c` is accepted exactly when no format was chosen before and its value names a format, which it then chooses; a second `-c` and an empty value are errors |
| Standard.OutfileOption | src/standard.c:89-98 | a second `-o` and an empty value are errors; otherwise `-o` names the output file |
| Standard.CodefmtTwiceFails | src/standard.c:100-102 | giving `-c` twice fails even when the first value is valid |
| Standard.IgnoredAfterDashDash | src/standard.c:70-82 | after `--` nothing more changes the options |
| Standard.NoCodefmtKeepsFormat | src/standard.c:147-148 | a run without `-c` keeps the format it started with |
| Standard.DefaultIsDolphin | src/standard.c:147-169 | with no `-c`, no `-h` and no error, the list is printed as Dolphin text |
| Standard.HelpSticks | src/standard.c:126-166 | once `-h` is seen, a run that does not fail ends in the usage text |

## Left out

- The bin2c header branch (compile.py:377, 388-396, 405-408, 435-447): it writes to a source writer that is already closed, so it has no defined behaviour. `Bin2C.Bin2C` models bin2c with no header directory.
- `bin2c` as written also uses the names `floor` (compile.py:432) and `to_upper` (compile.py:440), which are not defined; the undefined `os` is the compile.py:360 finding below. The model is the encoding compile.py:362-432 evidently intends.
- The size check divides floats (compile.py:362). It is modelled as the equivalent integer test `size * W > 0xFFFFFFFF`.
- `Path.resolve()` of the output paths is not modelled: paths are plain strings. What the directory checks find on disk is given as a record of booleans (`Bin2C.Fs`).
- Directory and file I/O (`open`, `read`, `write`, `close`) is text and byte sequences. The input file is a sequence of bytes.
- YAML loading and the tagged constructors (compile.py:162-173, 232-235, 338-342) are not modelled. The model starts from already-constructed records. Field values are strings, None, or "another type".
- Process spawning, timeouts, signals, tool discovery and platform detection (compile.py:55-142, 782-916) are not modelled. They are external processes; MINGW detection is a boolean parameter.
- The argument parsing of compile.py's `main` is left out, apart from the project unquoting and the author/project match.
- Source-file lookup: `rglob` is replaced by a given list of matches.
- The text of `standard.h` and `standard_defs.h` follows the f-strings of compile.py. The licence banner is a parameter.
- Python `repr` of error values is not modelled: errors are the `ValidationError` text only.
- Validation.EmptyFieldsAccepted: the validators accept empty strings although their messages say "non-empty". The model follows the code.
- Compat mode of src/gecko.c (`G_CurProcPtrLine`, `G_GetLinePointer`, src/gecko.c:78-117) is not modelled; the label functions use the plain line counter.
- `GCT_MAGIC`, the serial data types, the register data types, the if-counter flags and `G_ADDR_CODEHANDLER` are not defined in the headers shown. They are `bv32` parameters.
- The output handle is a flag (`hasOutput`). `fprintf` and `fwrite` are bytes appended to the sequence `out`.
- Standard output of include/gecko.h is the sequence of printed records `out`. Its text is `GeckoLegacy.Stdout(out)`.
- GeckoLegacy.TwoPassesPrint: stated only for bodies with fewer than 0x7FFF code lines, where the int16_t line counter cannot wrap. `GeckoLegacy.LegacyCoder.BeginCode` states the wrapping behaviour for every body through `TwoPasses`.
- GeckoLegacy.JumpReachesLabel: stated for labels the body defines. A label that is never defined keeps its declared value, which `GeckoLegacy.DefinedLabels` states.
- A body between `G_BeginCode` and `G_EndCode` is a sequence of statements: definitions, encoder calls, and the calls that take a `G_GetLabel` offset. Arbitrary C control flow inside a body is not modelled.
- The thin inline wrappers of include/gecko.h (`G_Write8`, `G_Goto`, `G_SetGR`, …) only pass constants to the encoders and are not modelled separately. `G_SetRepeat` and the `G_If8*` extensions are the exceptions.
- src/standard.c: `getopt_long` itself is not modelled. Its answers while argv lasts are the input sequence; after them comes the -1 it repeats once argv is used up (`Standard.Terminal`). Also left out:
  - the exit handlers and signal hooks;
  - the `-y` confirmation prompt (`cgetch`);
  - opening and closing the output file;
  - the call to `printclf`.

  The model ends with the settings `main` continues with.
- Standard.ParseCommandLine: `Hangs` stands for the option loop spinning for ever. A signal whose handler clears `standardLoopSafety` (src/standard.c:47-52) would end that loop; signals are not modelled.
- Standard.ParseCommandLine: `char` is taken to be signed. `optc` keeps getopt_long's `int` result in a `char` (src/standard.c:69). Where `char` is unsigned, -1 is stored as 255, so `optc == -1` never holds and the loop never breaks on -1. The final -1 then reaches the switch's default case and exits with an error, or, after `--`, the loop spins. The model does not cover that platform.
- include/standard.h, include/stdext, src/stdext and the project code files are not part of this model.

## Findings

| source | as written | input that shows it | evidently intended | confidence | as-written member | corrected member |
|---|---|---|---|---|---|---|
| src/gecko.c:165 | the count field is `(((count \|\| 1) - 1) & 0xFFF) << 16`; a logical `\|\|` is 1 for every count, so the field is always 0 | `__G_WriteSerial__` with count 5 encodes a count field of 0, that is a single write | `((count ? count : 1) - 1)`: the count minus one, with 0 treated as 1 | high, not executed | GeckoWords.SerialWordsAsWritten, GeckoWords.SerialAsWrittenIgnoresCount, GeckoWords.SerialAsWrittenExample | GeckoWords.SerialCountField, GeckoWords.SerialCountRoundTrip, GeckoWords.SerialWords, GeckoEmitter.Emitter.WriteSerial |
| src/standard.c:77-84 | a pass whose `argv[optind - 1]` is `--` continues before the -1 test; once argv is used up getopt_long keeps answering -1 without moving optind, so when the last argument consumed was `--` every later pass continues | `prog --`, or `prog -o --` (the `--` is the value of -o): the loop never ends and no list is printed | getopt_long's final -1 ends the loop whatever the last argument was, so `prog --` behaves as `prog` | high, not executed | Standard.ParseAsWritten, Standard.ParseCommandLine, Standard.TrailingDashDashHangs | Standard.Parse, Standard.AsWrittenAgrees, Standard.IgnoredAfterDashDash |
| compile.py:360 | `br.seek(0, os.SEEK_END)`, while compile.py:30 imports only `getenv` and `sep` from os and never the name `os` | any call of `bin2c`, on any input file: NameError right after the file is opened, so no C source is ever written | seek with `os.SEEK_END` after `import os` (or `from os import SEEK_END`), and likewise for `os.SEEK_SET` at compile.py:372 | high, not executed | Bin2C.Bin2CAsWritten, Bin2C.Bin2CAsWrittenNeverIntended | Bin2C.Bin2CResult, Bin2C.Bin2CSuccess, Bin2C.Bin2C |
