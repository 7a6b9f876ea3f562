# vital-reader serial data core, modelled in Dafny

vital-reader reads a serial line from a bedside monitor and prints what arrives. This project models the part that turns raw bytes into printed lines, and the part that reads the serial settings:

- **DataParser** (`src/data/parser.rs`) takes bytes in chunks and counts them. The counts are total, printable, non-printable and per byte value. It collects bytes into a line buffer and flushes a line at every CR, at every LF that does not directly follow a CR, and when the buffer grows past 65536 bytes. After each chunk it may revise its verdict on the stream (Ascii, Binary or Mixed), once at least 100 bytes have been seen. The verdict is ratio-based: more than 95% printable bytes is Ascii, fewer than 30% is Binary, anything else is Mixed.
- **DataFormatter** (`src/data/formatter.rs`) renders a flushed line under the current verdict:
  - Ascii: valid UTF-8 text, trimmed at the end. A blank line shows nothing.
  - Binary: every byte in hex, followed by the byte count.
  - Mixed: printable bytes as text and runs of other bytes as hex groups.
- **SerialConfig** (`src/config/serial_config.rs`) builds the settings (baud, data bits, parity, stop bits) from separate values, or from the text form `baud,parity,data_bits,stop_bits`, for example `115200,0,8,1`.

The parser is a pure state record:

- `Parser.Step` handles one byte.
- `Parser.Feed` is the byte loop of one `process_data` call.
- `Parser.ProcessData` is that loop followed by the verdict update.

A flush produces an `Emitted` record. It holds the line, the verdict it was rendered under, and the rendering, which is absent when the formatter declines. Invariants and laws about the parser are in `ParserProofs`. Consequences for the situations the repository's tests exercise are in `ParserScenarios`, `FormatterScenarios` and the example lemmas of `Config`.

Supporting modules model the Rust standard-library behaviour the core relies on:

- `Utf8`: `String::from_utf8`, as the well-formedness rules of section 4 of RFC 3629.
- `Text`:
  - `trim_end`, over Unicode White_Space;
  - `trim_end_matches`;
  - `split(',')`;
  - ASCII lower-casing.
- `Hex`: `{:02X}` formatting.
- `Decimal`: decimal rendering, and `str::parse` for unsigned integers.
- `Seqs`: counting occurrences in a sequence, and regrouping concatenations.

Each of these except `Seqs` comes with an inverse or a reference definition, plus the lemma that connects the two.

Three behaviours of the code are easy to misread:

- A CRLF line is flushed at the CR, so the line for `Line1\r\n` is `Line1\r`. The LF is swallowed, even when it arrives in the next call (`ParserScenarios.Line1CrLf`, `ParserScenarios.CrThenLfAcrossCalls`).
- A mixed-mode hex group is rendered with `[{:02X?}]` around a `Vec<u8>`. The result is `[[FF, AA]]`, with two brackets and comma-separated bytes (`FormatterScenarios.OnlyHexExample`).
- The verdict is recomputed once per `process_data` call, after the whole chunk. Every line flushed inside a call is rendered under the verdict from before the call (`ParserScenarios.VerdictLagsOneCall`).

## Model

| member | source | states |
|---|---|---|
| Classifier.Classify | src/data/parser.rs:39-47 | The ratio test itself; `Classifier.ClassifyMatchesRatio` states that it agrees with the exact-ratio comparison and `Classifier.Detect` states its three outcomes. |
| Classifier.Detect | src/data/parser.rs:34-48 | Below 100 bytes in total the verdict is kept. Otherwise it is Ascii exactly when more than 95% of the bytes are printable, and Binary exactly when fewer than 30% are. |
| Classifier.ClassifyMatchesRatio | src/data/parser.rs:39-47 | The integer comparisons agree with comparing the exact ratio printable/total against 0.95 and 0.3. |
| Classifier.BoundariesAreMixed | tests/unit/data/parser_tests.rs:190-199 | Exactly 95% and exactly 30% are Mixed, because both comparisons are strict. 96% is Ascii and 29% is Binary. |
| Classifier.Extremes | src/data/parser.rs:34-48 | With at least 100 bytes, all printable gives Ascii and none printable gives Binary. |
| Parser.New | src/data/parser.rs:22-32 | The fresh parser; `ParserProofs.NewIsValid` states its contents and that it meets the invariant. |
| Parser.Step | src/data/parser.rs:51-78 | One byte of the loop; `ParserProofs.StepCounts` and `ParserProofs.StepTerminators` state its effect. |
| Parser.Feed | src/data/parser.rs:50-79 | The byte loop of one call; `ParserProofs.FeedCounts`, `FeedFrequency`, `FeedLastWasCr`, `FeedConserves`, `FeedTerminators`, `FeedVerdict`, `FeedValid` and `FeedChunks` state its behaviour. |
| Parser.ProcessData | src/data/parser.rs:50-82 | One whole call; `ParserProofs.ProcessDataSpec` states its behaviour. |
| Parser.FlushLine | src/data/parser.rs:84-94 | The buffer is emptied. An empty buffer emits nothing. Otherwise exactly one line is emitted: the buffer, under the current verdict. |
| ParserProofs.NewIsValid | src/data/parser.rs:22-32 | A new parser satisfies the parser invariant, with verdict Mixed and no bytes counted. |
| ParserProofs.StepCounts | src/data/parser.rs:51-59 | One byte adds one to the total, one to exactly one of the printable and non-printable counters, and one to its own frequency entry. It leaves the verdict alone, and sets the CR flag exactly when the byte is a CR. |
| ParserProofs.StepTerminators | src/data/parser.rs:61-78 | A CR always ends one line with a CR. An LF ends one line with an LF exactly when the previous byte was not a CR. |
| ParserProofs.FeedCounts | src/data/parser.rs:50-79 | After a chunk, the total has grown by its length and the printable counter by its number of printable bytes. The verdict is unchanged inside the loop. |
| ParserProofs.FeedFrequency | src/data/parser.rs:53 | After a chunk, every byte value's frequency has grown by its number of occurrences in the chunk. |
| ParserProofs.FeedLastWasCr | src/data/parser.rs:61-72 | After a chunk, the CR flag says whether its last byte was a CR. An empty chunk leaves the flag as it was. |
| ParserProofs.FeedConserves | src/data/parser.rs:61-78 | No byte is lost or invented. The old buffer plus the chunk, minus each LF that directly follows a CR, equals the emitted lines in order followed by the new buffer. |
| ParserProofs.FeedTerminators | src/data/parser.rs:61-78 | The emitted lines ending in CR are exactly as many as the chunk's CRs. Those ending in LF are exactly as many as its LFs that are not swallowed. |
| ParserProofs.FeedVerdict | src/data/parser.rs:84-94 | Every line emitted during a chunk carries the verdict from the start of the call, with that verdict's rendering. |
| ParserProofs.FeedValid | src/data/parser.rs:50-94 | The invariant is kept by the loop. The counters add up and the frequency table sums to the total. The buffer holds no terminator and at most 65536 bytes, and is empty after a CR. Every emitted line is non-empty and holds a terminator only as its last byte. |
| ParserProofs.FeedChunks | src/data/parser.rs:50-79 | Feeding `a + b` gives the same state and the same lines as feeding `a`, then `b`. |
| ParserProofs.ProcessDataSpec | src/data/parser.rs:50-82 | One whole call combines the loop laws above, the invariant, and the verdict rule applied to the totals after the chunk. |
| ParserScenarios.PlainRun | src/data/parser.rs:71-78 | A run without terminators is cut every 65537 bytes. The number of lines is (buffer + run) div 65537, and the remainder stays buffered. |
| ParserScenarios.SeventyThousand | tests/unit/data/parser_tests.rs:66-71 | 70000 plain bytes give one line of 65537 bytes, with 4463 left in the buffer. |
| ParserScenarios.FullLineFlushed | src/data/parser.rs:71-78 | Exactly 65537 plain bytes into an empty buffer come out whole as one line. |
| ParserScenarios.OnePastTheLimit | tests/unit/data/parser_tests.rs:140-145 | 65537 bytes of `A` give one line of all of them and an empty buffer. |
| ParserScenarios.CrFlushes | src/data/parser.rs:61-64 | A CR flushes the buffer plus the CR as one line and sets the CR flag. |
| ParserScenarios.CrThenLfAcrossCalls | src/data/parser.rs:61-70 | A CR at the end of one call and an LF at the start of the next give one line. The LF is neither buffered nor flushed. |
| ParserScenarios.CrLfOneLine | src/data/parser.rs:61-70 | Text followed by CR LF in one call flushes exactly one line: the text with its CR. |
| ParserScenarios.TwoCrLfLines | src/data/parser.rs:61-72 | Two runs, each ended by CR LF, flush as two lines that each keep their CR. Nothing stays buffered and the CR flag is clear. |
| ParserScenarios.Line1CrLf | tests/unit/data/parser_tests.rs:59-64 | `Line1\r\nLine2\r\n` from a new parser gives exactly the lines `Line1\r` and `Line2\r`. The buffer ends empty with the CR flag clear. |
| ParserScenarios.ShortStreamKeepsVerdict | src/data/parser.rs:34-37 | While fewer than 100 bytes have been seen in total, the verdict does not change. |
| ParserScenarios.PrintableStreamIsAscii | src/data/parser.rs:134-140 | A new parser fed at least 100 printable bytes calls the stream Ascii. |
| ParserScenarios.UnprintableStreamIsBinary | src/data/parser.rs:43-44 | A new parser fed at least 100 non-printable bytes calls the stream Binary. |
| ParserScenarios.VerdictLagsOneCall | src/data/parser.rs:81-89 | A call that turns the verdict to Ascii still emits all its own lines under Mixed. |
| ParserScenarios.AscendingBytesAreMixed | tests/unit/data/parser_tests.rs:35-43 | The bytes 0 to 199 are 98 of 200 printable, so the verdict is Mixed, not Binary. |
| Formatter.IsPrintableAscii | src/data/formatter.rs:8-10 | The printable test; `Formatter.PrintableBoundaries` states its boundaries. |
| Formatter.PrintableBoundaries | src/data/formatter.rs:8-10 | Tab, LF, CR and 32..126 are printable. 0, 8, 11, 12, 31, 127 and every byte from 128 up are not. |
| Formatter.AsciiTrimIsTrimEnd | src/data/formatter.rs:16-19 | Trimming CRs, then LFs, then whitespace keeps the same text as trimming whitespace alone. |
| Formatter.FormatAscii | src/data/formatter.rs:13-25 | The Ascii rendering; `Formatter.FormatAsciiWellFormed`, `FormatAsciiIllFormed` and `FormatAsciiSevenBit` state its behaviour. |
| Formatter.FormatAsciiWellFormed | src/data/formatter.rs:13-25 | For bytes that encode some text, the result is the text without trailing whitespace under the ASCII header. If nothing is left, there is no result. |
| Formatter.FormatAsciiIllFormed | src/data/formatter.rs:13-25 | Bytes that are not valid UTF-8 are never shown. |
| Formatter.FormatAsciiSevenBit | src/data/formatter.rs:13-25 | On 7-bit input the shown text is the bytes themselves, and only bytes 9..13 and 32 are trimmed. |
| Formatter.FormatBinary | src/data/formatter.rs:28-41 | The Binary rendering; `Formatter.ParseFormatBinary` and `BinaryBodyLength` state its behaviour. |
| Formatter.ParseFormatBinary | src/data/formatter.rs:28-41 | The binary rendering can be read back into exactly the original bytes, with the count matching. |
| Formatter.BinaryBodyLength | src/data/formatter.rs:29-33 | The hex body of n bytes is 3n - 1 characters long. |
| Formatter.ParseHexGroupRoundTrip | src/data/formatter.rs:57 | A hex group reads back as the run it was made from. |
| Formatter.Pieces | src/data/formatter.rs:48-64 | The reference split of a line into printable characters and maximal non-printable runs. It covers every byte except CR and LF, in order, and its runs hold exactly the non-printable bytes. |
| Formatter.MixedLoop | src/data/formatter.rs:45-69 | The accumulator loop; `Formatter.MixedLoopRenders` states what it renders. |
| Formatter.MixedLoopRenders | src/data/formatter.rs:45-69 | The renderer's loop, started with any output and pending run, renders exactly the reference pieces. |
| Formatter.FormatMixed | src/data/formatter.rs:44-72 | The Mixed rendering; `Formatter.FormatMixedRendersPieces` and `FormatMixedEmpty` state its behaviour. |
| Formatter.FormatMixedRendersPieces | src/data/formatter.rs:44-72 | The mixed rendering is the header followed by the trimmed rendering of the reference pieces. |
| Formatter.RunsDecodeToNonPrintable | src/data/formatter.rs:54-68 | Decoding the hex groups in order gives back exactly the line's non-printable bytes. |
| Formatter.FormatMixedEmpty | src/data/formatter.rs:44-72 | An empty line renders as the bare MIXED header. |
| Formatter.FormatData | src/data/formatter.rs:75-81 | Binary and Mixed verdicts always render. |
| Formatter.FormatDataNone | src/data/formatter.rs:75-81 | No rendering only ever comes from an Ascii verdict on a line that is not UTF-8 or is blank after trimming. |
| FormatterScenarios.BinaryExample | tests/unit/data/formatter_tests.rs:97-103 | Bytes 00 FF AA under Binary render as `[00 FF AA] (3 bytes)` after the header. |
| FormatterScenarios.OnlyHexExample | tests/unit/data/formatter_tests.rs:160-166 | Bytes FF FE FD in mixed mode render as `[[FF, FE, FD]]`. |
| FormatterScenarios.TextThenBytesExample | tests/unit/data/formatter_tests.rs:105-111 | `Text\x00\xFF` in mixed mode renders as `Text[[00, FF]]`. |
| FormatterScenarios.ControlCharsExample | tests/unit/data/formatter_tests.rs:141-158 | Control bytes 0..3 are valid UTF-8 and not whitespace, so they are shown. |
| FormatterScenarios.WhitespaceOnlyExample | tests/unit/data/formatter_tests.rs:127-132 | Three spaces and CR LF show nothing. |
| FormatterScenarios.InnerCrExample | tests/unit/data/formatter_tests.rs:120-125 | `Test\rData\r` shows as `Test\rData`: only the trailing CR goes. |
| Utf8.DecodeEncode | src/data/formatter.rs:14 | Decoding the UTF-8 encoding of any text gives the text back. |
| Utf8.EncodeDecode | src/data/formatter.rs:14 | Well-formed bytes are the encoding of what they decode to. |
| Utf8.DecodeIffEncode | src/data/formatter.rs:14 | Bytes decode to a text exactly when they are that text's encoding. |
| Utf8.DecodeAscii | src/data/formatter.rs:14 | Bytes below 0x80 decode to the characters with the same values. |
| Text.TrimEnd | src/data/formatter.rs:19 | The result is a prefix. Everything removed is whitespace, and the result does not end in whitespace. |
| Text.TrimEndUnique | src/data/formatter.rs:19 | Any prefix with those three properties is the trimmed text. |
| Text.TrimEndMatches | src/data/formatter.rs:17-18 | The result is a prefix, everything removed is the given character, and the result does not end in it. |
| Text.TrimEndIdempotent | src/data/formatter.rs:19 | Trimming twice is trimming once. |
| Hex.ParseHexByteRoundTrip | src/data/formatter.rs:31 | Two-digit upper-case hex reads back as the byte. |
| Hex.HexJoinLength | src/data/formatter.rs:29-33 | A joined hex list has two digits per byte and one separator between neighbours. |
| Hex.ParseHexJoinRoundTrip | src/data/formatter.rs:29-33 | A separator-joined hex list reads back as the bytes. |
| Text.Split | src/config/serial_config.rs:28 | At least one field. No field contains the separator, and joining the fields with it gives the input back. |
| Text.SplitJoin | src/config/serial_config.rs:28 | Splitting a join of separator-free fields gives the fields back. |
| Text.SplitCount | src/config/serial_config.rs:28-30 | There is one more field than there are separators. |
| Decimal.ParseToDecimal | src/config/serial_config.rs:36-37 | A number in range, written in decimal with or without a leading `+`, parses back to itself. |
| Decimal.ParseUnsignedAccepts | src/config/serial_config.rs:36-53 | Parsing succeeds exactly on an optional `+` followed by one or more digits whose value is in range. |
| Decimal.ParseRejectsNonDigit | src/config/serial_config.rs:36-53 | Any character that is not a digit (other than a leading `+`) makes parsing fail, whitespace included. |
| Config.ParseDataBits | src/config/serial_config.rs:64-72 | Accepted exactly for 5 to 8, giving that number of bits. Otherwise the error names the value. |
| Config.ParseParity | src/config/serial_config.rs:74-81 | Accepted exactly when the lower-cased name is one of the parity's names. Otherwise the error carries the name as given. |
| Config.ParseStopBits | src/config/serial_config.rs:83-89 | Accepted exactly for 1 or 2, giving that number of bits. Otherwise the error names the value. |
| Config.New | src/config/serial_config.rs:15-22 | Succeeds exactly when all three checks pass, keeping the baud. Otherwise it reports the first failure in the order data bits, parity, stop bits. |
| Config.ParityOfCode | src/config/serial_config.rs:41-46 | Parity codes 0, 1 and 2 map to None, Odd and Even, and nothing else maps. |
| Config.FromString | src/config/serial_config.rs:27-62 | A successful parse has four fields, each of which reads as the matching value of the result. With four fields, a failure is the error of the first failing check, in the order baud, parity code, parity range, data bits, stop bits. |
| Config.ReadFields | src/config/serial_config.rs:36-61 | Never reports the field-count error. A configuration it returns is described by the four fields. A failure is the error of the first failing check: unreadable baud, unreadable parity code, parity code above 2, unreadable data bits, data bits outside 5..8 (with the value), unreadable stop bits, stop bits other than 1 or 2 (with the value). |
| Config.FromStringAccepts | src/config/serial_config.rs:27-62 | Parsing yields a configuration exactly when the four fields read as its baud, parity code, data bits and stop bits. |
| Config.ConfigStringRoundTrip | src/config/serial_config.rs:24-62 | Writing any configuration in the text form and parsing it gives the same configuration. |
| Config.FieldCountError | src/config/serial_config.rs:28-34 | The format error is reported exactly when the text does not hold three commas. |
| Config.ParseParityIgnoresCase | src/config/serial_config.rs:74-81 | A parity name is accepted exactly when its lower-cased form is, and both give the same parity. |
| Config.ParseParityNames | src/config/serial_config.rs:74-81 | Every accepted name selects its parity. |
| Config.NewRoundTrip | src/config/serial_config.rs:15-22 | Building from a configuration's own values gives it back. |
| Config.Default | src/config/serial_config.rs:92-101 | The default settings; `Config.DefaultText` states that they are what `115200,0,8,1` reads as. |
| Config.DefaultText | src/config/serial_config.rs:92-101 | `115200,0,8,1` parses to the default: 115200 baud, 8 data bits, no parity, 1 stop bit. |
| Config.MissingField | tests/unit/config/serial_config_tests.rs:34-38 | `115200,0,8` is refused with the format error. |
| Config.ExtraField | tests/unit/config/serial_config_tests.rs:128-132 | `115200,0,8,1,extra` is refused with the format error. |
| Config.EmptyText | tests/unit/config/serial_config_tests.rs:122-126 | The empty text is refused with the format error. |
| Config.ParityCodeOutOfRange | tests/unit/config/serial_config_tests.rs:46-50 | Parity code 5 is refused as out of range. |
| Config.ParityCodeTooWide | src/config/serial_config.rs:39-40 | Parity code 256 does not fit a `u8` and is refused as unreadable. |
| Config.DataBitsCheckedBeforeStopBits | src/config/serial_config.rs:48-54 | An out-of-range data-bit count is reported whatever the stop-bit field holds. |
| Config.FourDataBits | tests/unit/config/serial_config_tests.rs:149-153 | `9600,0,4,1` is refused with the data-bit error for 4. |
| Config.FourDataBitsMessage | src/config/serial_config.rs:70 | That error reads `Invalid data bits: 4`. |
| Config.Message | src/config/serial_config.rs:30-89 | The error texts; `Config.FourDataBitsMessage` states the one that carries a value. |
| Config.ThreeStopBits | tests/unit/config/serial_config_tests.rs:155-159 | `9600,0,8,3` is refused with the stop-bit error for 3. |
| Config.SpaceAfterComma | tests/unit/config/serial_config_tests.rs:115-120 | `115200, 0, 8, 1` is refused: the parity field ` 0` is unreadable. |
| Config.SpaceBeforeBaud | src/config/serial_config.rs:36-37 | A baud field with a leading space is unreadable. |
| Config.UpperCaseParityNames | tests/unit/config/serial_config_tests.rs:107-113 | `NONE`, `ODD`, `EVEN` and `None` are accepted by the constructor. |

## Left out

- Printing: the `println!` of a flushed line is modelled as the `formatted` field of `Emitted`, and `print_stats` (parser.rs 96-121) is not modelled. Both only write to the console.
- Ratio arithmetic: the verdict's `f64` ratio test is modelled as exact integer cross-multiplication. Floating-point rounding of `ascii_count / total_count` is not modelled. `Classifier.ClassifyMatchesRatio` relates the two over exact reals.
- Counter widths: the `u64` counters are unbounded naturals. Overflow would need 2^64 bytes.
- Parity letter case: `to_lowercase` is modelled as ASCII lower-casing. No non-ASCII character lower-cases to a letter of `none`, `odd` or `even`, so the accepted names are the same.
- Error values: errors are a `ConfigError` datatype with the source's messages (`Config.Message`). The `anyhow` context chain around an unreadable field (its underlying `ParseIntError`) is not modelled.
- `SerialConfig`'s `DataBits`, `Parity` and `StopBits` come from the `serialport` crate. Here they are plain datatypes, and opening a port with them is not part of this model.
- Outside this model: serial transport, port detection and selection, the command-line interface, the fake HL7 generator, and the reading session (`src/port`, `src/cli`, `src/fake`, `src/reader`). None of them is part of the data or configuration core.
