# Photography bot: a verified model of its submission pipeline

The bot watches a "photo dump" channel. For each image attached to a message there, it reposts an embed to a photography channel. The embed carries:
- the image;
- the photo's camera model, ISO, aperture and shutter speed, read from its EXIF block;
- any of those fields the poster overrode by writing `key: value` lines in the message;
- an optional note;
- a link to the original upload.

This project models the logic of `process_attachment` and its helpers in Dafny. The image libraries and the chat platform are left outside: what they return is an input. The model covers these parts:

- **Override parser** (`Overrides`).
  - `parse_manual_fields` keeps the lines that hold a ':' and splits each at its first ':'.
  - The key is stripped and lower-cased. It is kept only when it is one of `iso`, `aperture`, `shutter speed`, `camera model` or `note`.
  - A kept key is stored under its `title()`, with the value stripped.
  - The parser is a `method` with a loop, proved against a left fold, `Collect`.
- **EXIF extraction** (`Exif`).
  - The coercion `get` turns a tag value into display text. It tries, in order: bytes decoded with `errors='ignore'`, then a 2-tuple rendered as `a/b`, then `str()` of any truthy value, then the fallback `"Unknown"`.
  - `lookup` reads the RAW tag table.
  - Both extractors return a four-field record, and a whole record of `"Unknown"` when their library raises.
- **Dispatch and encoding choice** (`Normalize`).
  - The extension is the text after the last '.' of the lower-cased filename. `jpg`, `jpeg` and `png` take the compressed-image path, `cr2` the RAW path, and anything else is skipped.
  - A file over the 8 MiB budget gets one JPEG `save` at quality 85. A file within the budget is saved in its source format (compressed path) or as PNG (RAW path). The name the file is sent under is chosen alongside.
- **Merge, fields and the pipeline** (`Submission`).
  - The loop over the four field names copies overrides into the record.
  - The loop over the record's items adds an inline field for each value that is non-empty and not `"Unknown"`. Then comes an optional note field, and last the download link.
  - `ProcessAttachment` strings these together, as `process_attachment` does.
- **Python's string semantics**, which the above depend on (`Text`, `Numerals`, `Utf8`):
  - `str.strip`, using Python's `isspace` set;
  - `str.splitlines`, with its full set of line boundaries and "\r\n" counted as one;
  - ASCII `lower` and `title`;
  - `str(int)`;
  - UTF-8 decoding with `errors='ignore'`, following Table 3-7 ("Well-Formed UTF-8 Byte Sequences") of chapter 3 of the Unicode Standard.

The model keeps these details of the code:

- **ISO override.** The parser stores an ISO override under "Iso" (the `title()` of "iso"), but the merge looks for "ISO". So a manual ISO value never reaches the embed: `ThreeLineExample` shows "ISO: 400" stored as "Iso", and `IsoOverrideNeverApplied` shows the extracted ISO is kept.
- **A name without a dot.** Such a name is its own extension, so a file named just `png` takes the compressed-image path.
- **One encode only.** Over the budget there is exactly one lossy `save` and no further passes, so the result can still be over the budget.
- **Compressed-path filename.** The compressed-image path keeps the original filename even when a PNG is re-encoded as JPEG.
- **Errors outside a `try`.** `Image.open` (line 88), `rawpy.imread` / `postprocess` (lines 102-103) and every `img.save` (lines 92, 94, 108 and 113) are outside any `try`. When one of them fails, the exception escapes `process_attachment`; the model calls this `Raised`.

## Model

| member | source | states |
|---|---|---|
| Overrides.Vocabulary | photosbot.py:76 | defines the five recognised keys, lower-case: "iso", "aperture", "shutter speed", "camera model", "note" |
| Overrides.Entry | photosbot.py:72-77 | defines what one line contributes: nothing without a ':' or with an unrecognised key, else the title of the stripped, lower-cased key paired with the stripped value |
| Overrides.Collect | photosbot.py:70-78 | defines the dictionary after a sequence of lines: each line's entry, in order, overwriting earlier ones |
| Overrides.ManualFields | photosbot.py:69-78 | defines `parse_manual_fields` as `Collect` over `SplitLines` of the message text |
| Overrides.ParseManualFields | photosbot.py:69-78 | the loop builds exactly `ManualFields(content)`, the fold of `Entry` over the lines, and every stored key is one of "Iso", "Aperture", "Shutter Speed", "Camera Model", "Note" |
| Overrides.SplitAtColon | photosbot.py:74 | the two parts rejoin with ':' to the line, and the key part holds no ':' (the split is at the first colon) |
| Overrides.EntryOfKeyValueLine | photosbot.py:72-77 | a line `key:val` with no ':' in `key` stores `Strip(val)` under the title of the normalised key exactly when that key is recognised; the value keeps any later ':' |
| Overrides.TitleOfVocabulary | photosbot.py:76-77 | `title()` of the five recognised keys is "Iso", "Aperture", "Shutter Speed", "Camera Model", "Note" |
| Overrides.EntryKey | photosbot.py:76-77 | every key a line can store is one of the five title-cased keys |
| Overrides.CollectKeys | photosbot.py:70-78 | after any sequence of lines, the dictionary's keys are among the five title-cased keys |
| Overrides.NoUpperCaseIsoKey | photosbot.py:76-77 | for every message text, no override is stored under "ISO" |
| Overrides.LastDefinition | photosbot.py:71-77 | the index of the last line that stores under a key, or -1 when no line does; no later line stores under it |
| Overrides.LastLineWins | photosbot.py:71-77 | a key is present exactly when some line stores under it, and its value is the one the last such line gives |
| Overrides.KnownKeyEntry | photosbot.py:74-77 | a key already stripped that lower-cases to a recognised key is stored under that key's title, with the value stripped |
| Overrides.EntryIso | photosbot.py:74-77 | the line "ISO:" + v stores `Strip(v)` under "Iso" |
| Overrides.EntryAperture | photosbot.py:74-77 | the line "Aperture:" + v stores `Strip(v)` under "Aperture" |
| Overrides.EntryNote | photosbot.py:74-77 | the line "Note:" + v stores `Strip(v)` under "Note" |
| Overrides.FooKey | photosbot.py:76 | a line with the unknown key "foo" stores nothing |
| Overrides.ThreeLineExample | photosbot.py:69-78 | from "ISO:a", "foo:b" and "Aperture:c" (no line breaks inside) the parser returns exactly {"Iso": Strip(a), "Aperture": Strip(c)} |
| Overrides.SameKeyTwice | photosbot.py:77 | two lines that store under the same key leave only the second value |
| Overrides.RepeatedKeyExample | photosbot.py:71-77 | from "Note:a" and "Note:b" the parser returns exactly {"Note": Strip(b)} |
| Overrides.CollectTwo | photosbot.py:70-77 | two recognised lines give their entries stored in order |
| Overrides.CollectThree | photosbot.py:70-77 | a recognised, an ignored and a recognised line give the first and third entries, stored in order |
| Overrides.TwoLines | photosbot.py:71 | `splitlines` of two break-free lines joined by "\n" gives the two lines |
| Overrides.ThreeLines | photosbot.py:71 | `splitlines` of three break-free lines joined by "\n" gives the three lines |
| Text.IsSpace | photosbot.py:75 | defines the characters `strip()` removes: Python's `isspace` set |
| Text.IsLineBreak | photosbot.py:71 | defines the ten characters at which `splitlines()` breaks a line |
| Text.TrimStart | photosbot.py:75 | defines the left trim and keeps the length at most that of the input; its meaning is stated by `TrimStartRemovesSpace` |
| Text.TrimEnd | photosbot.py:75 | defines the right trim and keeps the length at most that of the input; its meaning is stated by `TrimEndRemovesSpace` |
| Text.TrimStartRemovesSpace | photosbot.py:75 | the result is a suffix of the input, everything removed is whitespace, and the result does not start with whitespace |
| Text.TrimEndRemovesSpace | photosbot.py:75 | the result is a prefix of the input, everything removed is whitespace, and the result does not end with whitespace |
| Text.Strip | photosbot.py:75 | defines `strip()` as the left trim followed by the right trim; its meaning is stated by `StripIsTrimmedInfix` |
| Text.StripIsTrimmedInfix | photosbot.py:75 | `strip()` is the infix left once all leading and trailing whitespace is removed, and it neither starts nor ends with whitespace |
| Text.StripIdempotent | photosbot.py:75 | stripping twice is stripping once |
| Text.StripPadded | photosbot.py:75 | whitespace before a core that has no whitespace at either end is removed, and the core is kept |
| Text.Lower | photosbot.py:75 | `lower()` keeps the length and maps each character through the ASCII lower-case map |
| Text.SpaceAfterInfix | photosbot.py:75 | whitespace that ends a suffix of a text ends the text itself |
| Text.LowerAppend | photosbot.py:84 | `lower()` of a concatenation is the concatenation of the lowered parts |
| Text.Title | photosbot.py:77 | `title()` keeps the length of the text |
| Text.TitleAfter | photosbot.py:77 | defines `title()` one character at a time: upper-case after an uncased character, lower-case after a cased one; keeps the length |
| Text.TitleAfterLowerWord | photosbot.py:77 | `title()` of a word of lower-case letters capitalises its first letter only |
| Text.TitleAfterAppend | photosbot.py:77 | `title()` of a concatenation is the title of each part, the second starting after a letter exactly when the first ends with one |
| Text.TitleTwoWords | photosbot.py:77 | `title()` of two lower-case words joined by a space capitalises the first letter of each word and nothing else |
| Text.TitleAfterSpace | photosbot.py:77 | after a space the next word is title-cased afresh, whatever came before the space |
| Text.IndexOf | photosbot.py:72-74 | the index of the first occurrence of the character, or the length when there is none |
| Text.FirstBreak | photosbot.py:71 | the index of the first line boundary, or the length when there is none |
| Text.SplitLines | photosbot.py:71 | the result is empty exactly when the text is, and no line `splitlines()` returns contains a line boundary |
| Text.SplitLinesCons | photosbot.py:71 | a break-free line followed by "\n" splits off as the first line |
| Text.SplitLinesBreak | photosbot.py:71 | a break-free line followed by any of the ten line boundaries splits off as the first line, a '\r' alone when no '\n' follows it |
| Text.SplitLinesCrLf | photosbot.py:71 | a break-free line followed by "\r\n" splits off as one line: the pair is one boundary |
| Text.SplitLinesSingle | photosbot.py:71 | a non-empty break-free text is one line |
| Numerals.IntToString | photosbot.py:37-38 | defines `str()` of an int: a '-' before the digits of a negative one; stated by `IntToStringShape` and `IntRoundTrip` |
| Numerals.NatToString | photosbot.py:37-38 | `str()` of a natural number is non-empty, all digits, and has no leading zero |
| Numerals.IntToStringShape | photosbot.py:37-38 | `str()` of an int is non-empty and is either all digits or '-' followed by digits |
| Numerals.NatRoundTrip | photosbot.py:37-38 | reading back `str(n)` of a natural number gives `n` |
| Numerals.IntRoundTrip | photosbot.py:37-38 | reading back `str(i)` gives `i`: the rendering loses nothing |
| Numerals.IntToStringInjective | photosbot.py:37-38 | two ints with the same `str()` are equal |
| Utf8.LeadLength | photosbot.py:35 | the length of the well-formed UTF-8 sequence the bytes start with, or 0 when none of lengths 1 to 4 is well-formed |
| Utf8.DecodeIgnore | photosbot.py:35 | decoding never yields more characters than there are bytes |
| Utf8.EncodeCharDecodes | photosbot.py:35 | each character's UTF-8 encoding is well-formed and decodes back to it |
| Utf8.DecodeEncode | photosbot.py:35 | decoding with `errors='ignore'` undoes UTF-8 encoding for every string |
| Utf8.InvalidLeadIgnored | photosbot.py:35 | a byte that cannot start a UTF-8 sequence (0x80-0xC1, 0xF5-0xFF) is dropped |
| Exif.Coerce | photosbot.py:32-38 | defines `get`'s coercion: bytes decoded, a 2-tuple as "a/b", a truthy value as its text, anything else "Unknown"; stated by `CoerceEdgeCases`, `CoerceUnknownCases` and `CoerceTextBytes` |
| Exif.TagAt | photosbot.py:33 | defines `exif_dict.get(section, {}).get(tag)`: the stored value, or `None` when the section or the tag is missing |
| Exif.RenderPair | photosbot.py:37 | defines the "a/b" rendering of a 2-tuple; stated by `RenderPairInjective` |
| Exif.Lookup | photosbot.py:55-56 | defines `lookup`: the tag's text, or "Unknown" when the tag is missing |
| Exif.KeyOf | photosbot.py:40-45 | defines the dictionary key of each field: "Camera Model", "ISO", "Aperture", "Shutter Speed" |
| Exif.AllUnknown | photosbot.py:46-48 | defines the record of four "Unknown" values that both `except` branches return |
| Exif.JpegLocation | photosbot.py:41-44 | defines the IFD and tag number read for each field: Model in "0th", ISOSpeedRatings, FNumber and ExposureTime in "Exif" |
| Exif.RawTagName | photosbot.py:59-62 | defines the exifread tag name read for each field |
| Exif.Record.With | photosbot.py:125 | setting one field gives it the new value and keeps the other three |
| Exif.Record.Items | photosbot.py:40-45 | the record's items are its four fields, in the order Camera Model, ISO, Aperture, Shutter Speed |
| Exif.ExtractJpeg | photosbot.py:27-48 | each field is the coerced value of its tag (Model in IFD "0th"; ISOSpeedRatings, FNumber and ExposureTime in "Exif"), and a failed load gives all four "Unknown" |
| Exif.ExtractCr2 | photosbot.py:51-66 | each field is its tag's text, or "Unknown" when that tag is missing, and a failed read gives all four "Unknown" |
| Exif.CoerceEdgeCases | photosbot.py:32-38 | empty bytes give "", not "Unknown"; an absent tag, `0` and `()` give "Unknown"; `(0, 0)` gives "0/0" and `(1, 200)` gives "1/200" |
| Exif.RenderPairInjective | photosbot.py:36-37 | the "a/b" rendering of a 2-tuple gives back both components: distinct pairs, such as (1, 2) and (2, 4), render differently |
| Exif.SplitAtSlash | photosbot.py:37 | two texts joined at a '/' that neither left part holds split back into the same parts |
| Exif.SlashAfter | photosbot.py:37 | in `a + "/" + b` with no '/' in `a`, the first '/' is the separator |
| Exif.NoSlash | photosbot.py:37 | a rendered int holds no '/' |
| Exif.CoerceUnknownCases | photosbot.py:36-38 | a non-bytes value coerces to "Unknown" exactly when it is absent, the int 0, or an object that is falsy or whose text is "Unknown" |
| Exif.CoerceTextBytes | photosbot.py:34-35 | text stored as UTF-8 bytes is shown unchanged |
| Exif.NoMetadataAllUnknown | photosbot.py:32-63 | an image without EXIF data reads as all "Unknown" from both extractors |
| Normalize.Extension | photosbot.py:84 | defines the extension as the last '.'-segment of the lower-cased name; stated by `ExtensionIsLastSegment` |
| Normalize.KindOf | photosbot.py:86-120 | defines the dispatch: "jpg", "jpeg" and "png" to the compressed path, "cr2" to the RAW path, anything else skipped |
| Normalize.Classify | photosbot.py:84-120 | defines the path a filename takes as the one its extension selects |
| Normalize.ImageRef | photosbot.py:98-116 | defines the image reference as "attachment://" followed by the name the file is sent under |
| Normalize.AfterLastDot | photosbot.py:84 | `split('.')[-1]` is a suffix with no '.', preceded by a '.' whenever it is shorter than the name |
| Normalize.ExtensionIsLastSegment | photosbot.py:84 | the extension of `stem.ext` is `ext` lower-cased, and a name with no '.' is its own extension |
| Normalize.LastSegmentOf | photosbot.py:84 | the last segment of `stem.ext` is `ext` |
| Normalize.NoDotIsWhole | photosbot.py:84 | a name with no '.' is its own last segment |
| Normalize.ExtensionOf | photosbot.py:84 | the extension of a name given as stem, '.', and a dot-free part is that part lower-cased |
| Normalize.LowerKeeps | photosbot.py:84 | a text with no upper-case ASCII letter is its own `lower()` |
| Normalize.DottedExtension | photosbot.py:84 | the extension of a name ending in '.' and a dot-free part is that part lower-cased, whatever comes before |
| Normalize.JpegExtension | photosbot.py:84 | every name ending in ".JPG" has the extension "jpg" |
| Normalize.UpperCaseExtension | photosbot.py:84-86 | every name ending in ".JPG", such as `A.JPG`, takes the compressed-image path: case does not matter |
| Normalize.RawExtension | photosbot.py:84 | every name ending in ".cr2" has the extension "cr2" |
| Normalize.LastSegmentDecides | photosbot.py:84-100 | every name ending in ".cr2", whatever it holds before (such as `photo.jpg`), takes the RAW path: only the last segment counts |
| Normalize.MovieExtension | photosbot.py:84 | every name ending in ".mov" has the extension "mov" |
| Normalize.OtherExtensionRefused | photosbot.py:84-120 | every name ending in ".mov", such as `clip.mov`, is skipped |
| Normalize.DotlessNames | photosbot.py:84-120 | `photo` is skipped, while a file named just `png` takes the compressed-image path |
| Normalize.Reference | photosbot.py:18-19 | holds the configuration the bot runs with: the hard-coded budget of 8 MiB and quality 85, and the defaults of the footer and colour settings |
| Normalize.CompressedEncoding | photosbot.py:90-98 | the name is always the original; a lossy `save` (JPEG, quality from the configuration) happens exactly when the size is over the budget, and otherwise the source format is kept |
| Normalize.RawEncoding | photosbot.py:106-116 | a lossy `save` happens exactly when the size is over the budget; the output is JPEG as "converted.jpg" then, and PNG as "converted.png" otherwise |
| Normalize.ReferencePolicy | photosbot.py:91-116 | with the bot's configuration, a file over 8388608 bytes is saved as JPEG at quality 85 (under its own name, or as "converted.jpg"), and a smaller one keeps its format or becomes "converted.png" |
| Submission.OverrideFields | photosbot.py:123-125 | defines the record after the merge loop has visited some field names |
| Submission.Overridden | photosbot.py:123-125 | defines the record after the merge loop has visited all four names; stated by `OverriddenField` |
| Submission.OverrideFieldsAt | photosbot.py:123-125 | after visiting some field names, a field holds its override exactly when it was visited and has one, and keeps its value otherwise |
| Submission.OverriddenField | photosbot.py:123-125 | after the merge, each field holds its override when there is one, unconditionally, and its extracted value otherwise |
| Submission.RecordsEqual | photosbot.py:40-45 | two records that agree on all four fields are equal |
| Submission.MergeOverrides | photosbot.py:123-125 | the loop's record is the merged record: each field is the override under its key if present, else the extracted value |
| Submission.NoteNotMerged | photosbot.py:122-126 | a "Note" override never changes the metadata record |
| Submission.IsoOverrideNeverApplied | photosbot.py:76-125 | for every message text the merged ISO is the extracted one |
| Submission.LastOverrideLineSetsField | photosbot.py:71-125 | for every field, the merged value comes from the last message line that stores under the field's key, or is the extracted value when no line does; for ISO no line ever does |
| Submission.NoteOf | photosbot.py:126 | defines `manual.get("Note")` |
| Submission.Description | photosbot.py:130 | defines the embed's description: "Uploaded by", the uploader's mention, and the paw emoji |
| Submission.ExtractedRecord | photosbot.py:87-101 | defines the extracted record: the JPEG extractor (all "Unknown" when PIL cannot open the image) on the compressed path, the RAW extractor otherwise |
| Submission.Shown | photosbot.py:136 | defines the test a metadata value must pass to be listed: non-empty and not "Unknown" |
| Submission.MetadataFields | photosbot.py:135-137 | defines the inline fields: one per record item whose value is shown, in item order; stated by `MetadataFieldsMembers` and `MetadataFieldsSplit` |
| Submission.NoteFields | photosbot.py:138-139 | defines the note field: present only for a non-empty note, not inline |
| Submission.DownloadField | photosbot.py:140 | defines the download field: a Markdown link to the upload's URL, not inline |
| Submission.RenderedFields | photosbot.py:135-140 | defines the whole field list: metadata fields, then the note field, then the download field |
| Submission.BuildFields | photosbot.py:135-140 | the `add_field` calls produce exactly the metadata fields, then the note field, then the download field |
| Submission.MetadataFieldsMembers | photosbot.py:135-137 | a metadata field is listed exactly when it is inline, its value passes the shown test, and its (name, value) pair is one of the record's items |
| Submission.MetadataFieldsInline | photosbot.py:137 | every metadata field is inline |
| Submission.MetadataFieldsSplit | photosbot.py:135-137 | the fields of an earlier part of the record all come before those of a later part: record order is kept |
| Submission.AllShownInOrder | photosbot.py:135-137 | when every value is shown, each item becomes one inline field, in record order |
| Submission.FieldShownIffKnown | photosbot.py:135-137 | a field is listed under its key and with its value exactly when its value is non-empty and not "Unknown"; no listed inline value is empty or "Unknown" |
| Submission.NoteAndDownloadFields | photosbot.py:138-140 | the download link `[Click Here](url)` is always last, with the URL verbatim; a note field appears exactly when the note is non-empty, and then right before the link |
| Submission.ProcessAttachment | photosbot.py:81-143 | an unsupported extension gives `Skipped`; `Raised` comes exactly from a failed image open on the compressed path, a failed RAW decode, or a failed `save` of the chosen encoding on either path; otherwise the embed has the fixed title, the uploader's mention, the configured colour and footer, an image reference to the sent file, and the fields rendered from the merged record and the note |

## Left out

- The chat client is not modelled, being network and event I/O: bot construction, `on_ready`, `on_message` with its channel and author filtering, sending and command dispatch (lines 21-24, 146-173).
- Loading `settings.json` is file I/O. The code hard-codes the size budget (8 MiB, lines 91 and 107) and the JPEG quality (85, lines 92 and 108), and reads the footer and the colour from the settings with defaults (lines 18-19). The model makes all four `Config` parameters; `Normalize.Reference` holds the two literals and the two defaults.
- The pixel work of `Image.open`, `piexif.load`, `exifread.process_file`, `rawpy.imread`/`postprocess` and PIL's `save` is not modelled: these are foreign libraries. Their results are inputs (`Decoders`): a tag table or `Failed`, the detected format, whether the RAW decode succeeds, and whether `save` succeeds for each encoding. The encoded bytes are not modelled; an `Encoding` names the format, quality and filename of the one `save` call.
- `attachment.read()` is not modelled; the model takes the attachment's byte length as a number.
- A failed `attachment.read()` is not modelled; it raises in the source. An exception from `piexif.load` on a file PIL can open is caught into an all-"Unknown" record, which `Decoders.exif` being `Failed` covers.
- `async`/`await` is not modelled: there is no real concurrency, so every coroutine is an ordinary function or method.
- `print` logging is not modelled: it has no effect on the result.
- Exif.Coerce: an object other than bytes, a 2-tuple or an int is given by its `str()` text and its truth value, since the objects piexif can produce are not modelled.
- Exif.ExtractCr2: exifread's tag objects are given by their `str()` text, since exifread is not modelled.
- Text.Lower: it models ASCII lower-casing only, because full Unicode case mapping is not available. This is exact for the extension and key tests: the only non-ASCII characters whose lower case is ASCII (U+0130 and U+212A) cannot produce a recognised key or extension.
- Text.Title: it models ASCII title-casing only, for the same reason. On the five recognised keys, the only inputs it receives, it agrees with Python.
- Utf8.DecodeIgnore: it drops invalid bytes one at a time, where CPython drops each maximal ill-formed subpart as one unit. The two remove the same bytes under `errors='ignore'`, but the model is not proved against a model of CPython's decoder.
