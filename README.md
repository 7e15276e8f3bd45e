# GO-BACKTEST-AggTrades, modelled in Dafny

This project is a Dafny model of the aggTrades back-test pipeline and of its
Python context builder. The pipeline downloads daily aggTrades archives for
one symbol and packs them into month files of binary trade rows, indexed by
a QIDX month index. It then builds 24- and 40-byte feature records from those
rows, studies each feature against future returns, and aggregates the
per-day reports.

Each Go source file is one Dafny module, and `go.py` is the `Context` module.
Shared helpers live in their own modules:

- `Bytes`: little-endian integers and 64-bit wrap-around.
- `Layout`: the AGG3 header, the trade row, the QIDX index and the feature
  records.
- `GoIo`: Go's `(*os.File).Read`, `io.ReadFull` and `Seek` over a byte
  sequence.
- `Text`: `%d` and `%0wd` formatting, `strconv.Atoi` and `strings.Split`.
- `Sorting`: a sorted permutation under a total preorder, and Go's string
  order.

Modules and files:

| module | source | file |
|---|---|---|
| `Data`, `DataCsv`, `DataParse` | `data.go` | `data.dfy` (archive entry, blob assembly, index append, `isIndexed`), `data_csv.dfy` (the CSV scan), `data_parse.dfy` (the number parsers) |
| `Common`, `Shared` | `common.go`, `shared.go` | `common.dfy`, `shared.dfy` |
| `Build`, `BuildRun` | `build.go` | `build.dfy`, `build_run.dfy` |
| `BuildAlpha` | `buildalpha.go` | `buildalpha.dfy` |
| `Sanity` | `sanity.go` | `sanity.dfy` |
| `Ofi` | `ofi.go` | `ofi.dfy` |
| `OfiStudy` | `ofistudy.go` | `ofistudy.dfy` |
| `OfiBuild` | `ofibuild.go` | `ofibuild.dfy` |
| `Study` | `study.go` | `study.dfy` |
| `StudyAlpha` | `studyalpha.go` | `studyalpha.dfy` |
| `Metrics`, `MetricsHorizon` | `metrics.go` | `metrics.dfy`, `metrics_horizon.dfy` |
| `Scorecard` | `scorecard.go` | `scorecard.dfy` |
| `Sum` | `sum.go` | `sum.dfy` |
| `Oos` | `OOS.go` | `oos.dfy` |
| `Context` | `go.py` | `context.dfy` |

How the model treats the source:

- **State that the Go code updates in place is a class or an array.** The
  ring buffers, the order-flow state, the feature core, the open file and
  the index being appended to are all modelled this way.
- **Pure computations are functions.**
- **Loops are methods.** Each is proved equal to a recursive reference
  function, and the properties the source relies on are proved about that
  function.
- **Values are exact.** Integers are unbounded and the source's 64-, 32- and
  16-bit wrap-around is written out. Floating-point values are `real`, and
  `math` functions such as `Sqrt`, `Tanh` and `Exp` are function parameters.
- **The outside world is a parameter.** File contents, directory listings,
  decompression, hashing and `os.walk` are inputs to the model.
- **Functions defined more than once are modelled once.** When several
  files define the same function, the model is in the first file's module
  and the others refer to it: `buildChunks` and `findBlob` are shared by
  `build.go` and `buildalpha.go`, and `getRanks` by `metrics.go` and
  `scorecard.go`.

## Model

| member | source | states |
|---|---|---|
| Bytes.FromLE_LE | common.go:107-113 | Reading back the k little-endian bytes that `PutUintN` wrote for v gives v modulo 256^k. |
| Bytes.LE_FromLE | build.go:298-302 | Re-encoding the value a reader decoded from the bytes s gives those bytes back. |
| Bytes.LERoundTrip | common.go:107-113 | A value that fits in k bytes is read back unchanged. |
| Bytes.I64RoundTrip | common.go:113 | `uint64(ts)` and `int64(...)` are inverse: two's complement on 64 bits, both ways. |
| Bytes.WrapStep | data.go:457-464 | Wrapping the accumulator to 64 bits after every `n*10 + d` step gives the same value as wrapping once at the end. |
| Bytes.PutLE | common.go:107 | `PutUintN(buf[off:], v)` on an array overwrites exactly the k bytes at off with v's little-endian bytes; all other bytes are unchanged. |
| Bytes.GetAfterSplice | common.go:107-113 | After a put at off, a read at off returns the value put (mod 256^k), and a read of any disjoint range returns what it returned before. |
| Bytes.SpliceAdjacent | common.go:107-113 | Two puts side by side equal one put of both byte strings. |
| Layout.EncodeHeader | common.go:41-50 | The `AggHeader` fields, in declaration order and little-endian, take exactly HeaderSize = 48 bytes. |
| Layout.HeaderRoundTrip | data.go:439-447 | Decoding an encoded header gives the header back: magic, version, day, zlib level, row count, signed first and last time stamps, and padding. |
| Layout.HeaderBytesRoundTrip | common.go:41-50 | Every 48-byte string is the encoding of the header it decodes to, so the layout has no unused bits. |
| Layout.RowImage | common.go:106-114 | `PutRow` writes 46 bytes: tid@0, px@8, qty@16 and fid@24 as u64, cnt@32 as u32, flags@36 as u16, and uint64(ts)@38. |
| Layout.TradeRoundTrip | build.go:298-302 | Readers decoding a row at the `PutRow` offsets get every field back, including the signed time stamp, whatever follows the 46 bytes. |
| Layout.IndexRowRoundTrip | data.go:227-231 | A 26-byte index row (day u16@0, offset u64@2, length u64@10, checksum u64@18) decodes to the entry written. |
| Layout.IndexHeaderImage | data.go:218-222 | A new index header is 16 bytes: "QIDX", u32 version 1 and a u64 row count. |
| Layout.FeatureImage | build.go:396-398 | A feature record is 24 bytes: uint64(ts)@0, the price bits @8 and the signal bits @16. |
| Layout.DecodeFeatures | study.go:112 | Readers take len / 24 records and ignore any trailing remainder. |
| Layout.FeaturesImageAt | build.go:394-398 | Record k of a written feature file starts at byte 24·k. |
| Layout.FeaturesImageAppend | build.go:195-212 | Writing two record lists one after the other gives the concatenation of their images. |
| Layout.FeatureRoundTrip | study.go:126-136 | Decoding a record at offsets 0, 8 and 16 gives back the record written, whatever follows it. |
| Layout.FeaturesRoundTrip | study.go:112-136 | Decoding a whole written feature file gives the records back, in order. |
| GoIo.FileRead | build.go:245 | `(*os.File).Read` reads min(len(buf), bytes left) bytes. It returns io.EOF only at the end with a non-empty buffer, and bytes past those read keep their old contents. |
| GoIo.FullRead | ofi.go:327 | `io.ReadFull` succeeds iff enough bytes are left, and then fills the buffer from the offset. On a short read only the bytes read are overwritten. |
| GoIo.FullReadIsFileRead | ofi.go:327 | When enough bytes are left, `io.ReadFull` and a plain `Read` fill the buffer alike. |
| GoIo.File.Read | build.go:249 | The method updates the buffer and the file offset exactly as `FileRead` describes. |
| GoIo.File.ReadFull | sanity.go:106 | The method updates the buffer, the offset and the error exactly as `FullRead` describes. |
| GoIo.File.Seek | sanity.go:119 | `Seek(off, io.SeekStart)` accepts any offset ≥ 0, even past the end, and rejects a negative one without moving. |
| Common.PutRow | common.go:106-114 | The buffer becomes the 46-byte row image followed by its old bytes from 46 on. Decoding it gives back exactly the arguments. |
| Shared.PutRow | shared.go:119-127 | The same as `Common.PutRow`, byte for byte. |
| Shared.CommandNamed | shared.go:43-55 | Exactly "data", "build", "sanity" and "study" name a command, each its own runner. |
| Shared.Dispatch | shared.go:33-56 | Fewer than 2 arguments gives the usage text. A known command runs, and the command it runs is the one CommandNamed gives for that name: "data" runs data, "build" runs build, "sanity" runs sanity and "study" runs study. Any other command is reported as unknown under its own name. |
| Shared.ExitStatus | shared.go:33-56 | The exit status is 0 exactly when a command ran, and 1 after the usage text or an unknown command. |
| Shared.Mean | common.go:56-65 | `Mean` is 0 for an empty slice, and otherwise mean·n equals the sum. |
| Shared.SumSqDevSnoc | common.go:73-77 | Each value adds its squared deviation from the mean to the sum of squares. |
| Shared.StdDev | common.go:69-79 | `StdDev` is 0 for fewer than two values. |
| Shared.Correlation | common.go:82-86 | `Correlation` is 0 for slices of different lengths or empty slices. |
| Text.Itoa | build.go:219 | `%d` of a natural number is a non-empty string of digits, without a leading zero unless the number is 0. |
| Text.ItoaRoundTrip | build.go:219 | Reading the printed digits back gives the number. |
| Text.ZeroPadValue | build.go:153 | `%0wd` pads with zeros to the width, and leading zeros do not change the value read back. |
| Text.PaddedField | build.go:153 | `%0wd` of a value below 10^w is exactly w digits, and they read back as the value. |
| Text.AtoiFormatInt | build.go:53 | `strconv.Atoi` reads back what `%d` printed, for every int64. |
| Text.AtoiRejects | build.go:53-56 | `strconv.Atoi` rejects a string with a non-digit anywhere after its first character. |
| Text.Split | sum.go:71 | `strings.Split` returns at least one piece, and no piece contains the separator. |
| Text.SplitJoinWith | sum.go:71 | Joining the pieces with the separator gives the string back. |
| Text.SplitAppend | OOS.go:82 | A separator followed by a separator-free piece adds exactly that piece at the end. |
| Sorting.SortBy | sum.go:128-135 | The model of `sort.Slice`: a permutation of the input, sorted by the given total preorder. |
| Sorting.StrLeIsTotalPreorder | study.go:88 | Go's byte-wise string order is total and transitive. |
| Sorting.StrLeAntisym | study.go:88 | Two strings each ≤ the other are equal. |
| Data.DayHeader | data.go:439-447 | The header of a day's blob has the "AGG3" magic, version 1 and 16 zero padding bytes. |
| Data.BuildHeader | data.go:439-447 | The 48 header bytes filled in place are the encoding of the day's header: magic, version 1, uint8(day), level 3, count, and the bounds as uint64. |
| Data.PutIdent | data.go:439-442 | In a zeroed 48-byte header, this writes "AGG3", version 1 and the low byte of the day, and leaves the other 42 bytes zero. |
| Data.PutFields | data.go:443-447 | After the first 6 bytes, the header gets zlib level 3 as a u16, then the count, then both time-stamp bounds as two's-complement u64s, all little-endian. 16 zero bytes of padding follow. |
| Data.PutNext | data.go:443-446 | A little-endian field written right after the bytes already set extends them, and the rest of the buffer stays zero. |
| Data.PackCsv | data.go:329-450 | Packing one CSV file gives nil and 0 when no row was counted, and otherwise the header followed by the rows. |
| Data.FastZipToAgg3 | data.go:306-453 | The entry loop returns the packing of the first `.csv` entry that opens. A read error of that entry is returned. A corrupt archive or one with no such entry is an error. |
| Data.CsvBlobShape | data.go:435-450 | No rows gives an empty blob. Otherwise the blob is 48 + 48·count bytes, and its header decodes to the day's header with that count and the scanned time-stamp bounds. |
| Data.CsvBlobRow | data.go:357-450 | Row k of the blob decodes to the trade on line k of the body, for every newline-terminated line with at least seven columns. Its time stamp lies between the header's minTs and maxTs. |
| Data.CountAfterAppend | data.go:233-245 | The index update leaves the magic and version alone, raises the count by one (mod 2^64), and keeps the old rows followed by the new one. |
| Data.EmptyIndexHeader | data.go:217-224 | An empty index file first gets a well-formed 16-byte header with count 0, so appending to it is appending to that header. |
| Data.AppendKeepsIndex | data.go:226-245 | Appending to a well-formed index gives a well-formed index: the count goes up by one, the new row is last, and the earlier rows are unchanged. |
| Data.ScanRowsWellFormed | data.go:291-302 | On a well-formed index, the row scan from row i answers true exactly when some row k ≥ i holds the day. |
| Data.IndexedIff | data.go:274-303 | isIndexed on a well-formed index is true iff one of its rows has the day. It is false on a file whose first 4 bytes are not "QIDX". |
| Data.IsIndexed | data.go:274-303 | The method on a file object, with one 16-byte header read and a 26-byte read per row, returns the isIndexed specification over the file's contents. |
| Data.Fetch | data.go:149-168 | The download and parse stop the day only with "missing", "error_dl", "error_parse" or "empty". |
| Data.MonthStore.constructor | data.go:131-133 | A month store starts with the given index and data file contents. |
| Data.MonthStore.WriteIndex | data.go:209-247 | The index step: an open failure changes nothing; a seek or write failure may leave only the new header; success appends the row and bumps the count. |
| Data.MonthStore.Write | data.go:190-247 | A mkdir, open or write failure of the data file leaves both files unchanged. Otherwise the blob is appended at the old size, and then the index step runs. |
| Data.MonthStore.Commit | data.go:182-247 | Under the lock, a day found by the re-check is "skip_race" with nothing changed; otherwise the write runs. |
| Data.MonthStore.ProcessDay | data.go:127-248 | The whole of processDay for one day, checked against its state-machine specification over the month's two files. |
| Data.NoRaceAlone | data.go:182-188 | Run alone, processDay never reports "skip_race", because the re-check sees the index the first check saw. |
| Data.WriteFailures | data.go:190-238 | A failure before the data append leaves the month unchanged. A failure in the index step leaves the blob appended but adds no row. The status is "ok" exactly when nothing fails. |
| Data.FailuresKeepIndex | data.go:127-238 | Every non-"ok" status before the write leaves both files unchanged. An index failure keeps the old data as a prefix and keeps the row count. |
| Data.AppendExtendable | data.go:216-245 | On an empty index, or a well-formed one whose count has room, an append gives a well-formed index with one more row: the new row last, the old rows kept. |
| Data.AppendedDayIsIndexed | data.go:226-245 | After the append, isIndexed finds the day written. |
| Data.ProcessDayCommits | data.go:162-247 | "ok" implies: no fault, a downloaded archive that packs to a non-empty blob, the compressed blob appended to the data file, and its entry appended to the index. |
| Data.ProcessDayOk | data.go:127-248 | After "ok", the data file gains the compressed blob and the index is well formed with one more row. The new row holds the day, the old file size as offset, the compressed length and the checksum. |
| Data.ProcessDayIdempotent | data.go:140-147 | Processing a day again after it was stored returns "skip" and changes nothing. |
| Data.NewRowLocatesBlob | data.go:200-231 | The new row's offset and length select exactly the compressed blob in the grown data file, while it stays below 2^64 bytes. |
| DataParse.ParseUintIsDecimal | data.go:457-464 | On a string of ASCII digits, fastParseUint is its decimal value mod 2^64. |
| DataParse.FastParseUint | data.go:457-464 | The loop computes `n*10 + (c-'0')` with uint64 wrap-around for every byte, digits or not. On digits, that equals the decimal value mod 2^64. |
| DataParse.FastParseFloatFixed | data.go:467-497 | The loop skips '.', counts the digits after it, and rescales to 8 decimals. |
| DataParse.ScaleUp | data.go:486-490 | Multiplying by 10, k times in uint64, is n·10^k mod 2^64. |
| DataParse.ScaleDown | data.go:491-494 | Dividing by 10, k times, is n / 10^k. |
| DataParse.TimesTenIsPow | data.go:488-490 | Multiplying by 10 k times with wrap-around is one multiplication by 10^k mod 2^64. |
| DataParse.TenthOfIsPow | data.go:492-494 | Dividing by 10 k times with truncation is one division by 10^k. |
| DataParse.ScanFixedInteger | data.go:472-482 | Without a '.', the digit loop gives the decimal value mod 2^64 and no decimals. |
| DataParse.ScanFixedFraction | data.go:472-482 | For i "." f, the loop reads the digits of i and f as one numeral and counts the digits of f as decimals. |
| DataParse.ParseFixedScales | data.go:466-497 | With at most 8 decimals, i "." f parses to Decimal(i f)·10^(8 minus the length of f) mod 2^64: fixed point with scale 1e8. |
| DataParse.ParseFixedExample | data.go:466 | "123.45" parses to 12345000000, as the comment promises. |
| DataParse.ParseFixedTruncates | data.go:491-494 | With more than 8 decimals, the extra digits are truncated, after the 64-bit wrap. |
| DataParse.ParseFixedWhole | data.go:486-490 | A numeral with no '.' is scaled by 10^8. |
| DataCsv.SplitJoin | data.go:357-421 | Joining the pieces between separators gives the text back, so line and column splitting loses nothing. |
| DataCsv.SplitLast | data.go:423-425 | The last piece is what follows the last separator. |
| DataCsv.SplitCount | data.go:398-415 | There is one piece more than there are separators, so one row per '\n'. |
| DataCsv.StoreColumn | data.go:369-393 | Each column write stays inside the 46-byte row, and the time-stamp bounds only widen. |
| DataCsv.LineAcc | data.go:358-419 | One line stays inside the row and only widens the bounds. |
| DataCsv.ScanLines | data.go:398-415 | Each newline-terminated line appends one 48-byte row, so the count is the number of lines and the blob is 48·count bytes. |
| DataCsv.Progress | data.go:358-421 | The byte-by-byte state machine keeps the last two row bytes zero and the blob at 48 bytes per counted row. |
| DataCsv.ScanBody | data.go:423-433 | A last line without '\n' adds a row only when six columns were closed and the seventh is not empty. |
| DataCsv.FirstNewline | data.go:348-355 | The header skip stops at the first '\n', or at the end when there is none. |
| DataCsv.LinesProgressEmpty | data.go:332-345 | Before any byte is read, the buffer is zeroed, nothing is counted, and the bounds are MaxInt64 and MinInt64. |
| DataCsv.StepOther | data.go:358-421 | A byte other than ',' and '\n' only extends the current column. |
| DataCsv.StepComma | data.go:363-396 | A ',' hands the current column to the column switch and moves to the next column. |
| DataCsv.StepNewline | data.go:398-418 | A '\n' writes the flag from the current column, appends the row, and restarts at column 0. |
| DataCsv.ProgressByLines | data.go:357-421 | The byte-by-byte machine equals reading whole lines and comma-separated columns: complete lines are rows, and the open line's closed columns are stored. |
| DataCsv.ColumnsAsValues | data.go:367-393 | Scanning the columns of a line is parsing each one (fixed point for price and quantity, unsigned otherwise), then storing the values in order. |
| DataCsv.ExtraValuesIgnored | data.go:369-393 | Columns after the sixth comma-terminated one change nothing. |
| DataCsv.SixValues | data.go:369-393 | Six values fill id, price, quantity, first id, the uint32 count last-first+1 and the time stamp. The bounds become min/max with int64(ts). |
| DataCsv.CompleteLineRow | data.go:358-418 | A line of seven or more comma-separated pieces leaves in the buffer the `PutRow` image of its trade. Columns 0-5 come from the first six pieces, and the maker flag is 't'/'T' at the start of the last piece, the text after the last comma. The two bytes after offset 46 are left as they were. |
| DataCsv.NoCommaLineKeepsRow | data.go:398-411 | A line without a comma only rewrites the flag: the buffer keeps the previous row's other fields. |
| DataCsv.ScanLinesRow | data.go:413-415 | Row k of the blob is the buffer as it stands after line k. |
| DataCsv.ScanLinesWidens | data.go:387-392 | The final bounds cover the bounds after any prefix of the lines. |
| DataCsv.LinesRowImage | data.go:358-418 | Among newline-terminated lines, a line of seven or more columns is the row of its trade, with zero padding. |
| DataCsv.LinesRowTs | data.go:384-392 | The bounds after the lines cover the time stamp of every line of seven or more columns. |
| DataCsv.LineCoversTs | data.go:384-392 | A line of seven or more columns widens the bounds to include its time stamp. |
| DataCsv.BodyRowCount | data.go:398-433 | The row count is the number of '\n' in the body, plus one for an unterminated last line of exactly seven columns whose seventh is not empty. |
| DataCsv.BodyExtendsLines | data.go:423-433 | The scan of the whole body extends the scan of its complete lines: those rows come first, and the bounds are at least as wide. |
| DataCsv.BodyRow | data.go:357-433 | Every complete line of seven or more columns is one row of the blob that decodes to its trade. Its time stamp lies within the reported bounds. |
| DataCsv.SkipHeader | data.go:347-355 | The header skip ends just past the first '\n', or at the end. |
| DataCsv.PutColumn | data.go:367-396 | The column switch on the reused row buffer is ApplyColumn on the buffer and the bounds. |
| DataCsv.FinishRow | data.go:400-415 | The end of a row writes the flag into the buffer and appends the buffer's 48 bytes to the blob. |
| DataCsv.Consume | data.go:358-420 | One loop iteration over byte b is one step of the state machine, and the column restarts exactly after ',' or '\n'. |
| DataCsv.ScanLoop | data.go:357-421 | The state machine loop leaves the state the specification reaches after the whole body. |
| DataCsv.ScanCsv | data.go:347-433 | The scan, from the header skip to the unterminated last line, gives the blob, count and bounds of ScanBody on the body. |
| Build.ChunkStartClosed | build.go:222-235 | Chunk i starts after i shares of total/n, plus one extra row for each earlier chunk among the first total%n. Division truncates as in Go. |
| Build.ChunkStep | build.go:226-233 | Each range starts where the previous one ended and is base long, plus one while i < rem. |
| Build.BuildChunks | build.go:222-235 | The array holds n ranges, and range i is [ChunkStart(i), ChunkStart(i+1)). |
| Build.ChunksCover | build.go:222-235 | For a non-negative total, the first chunk starts at 0 and the last ends at total. |
| Build.ChunkLength | build.go:224-230 | The first total%n chunks are total/n + 1 rows long and the rest total/n, so lengths differ by at most one. |
| Build.ChunkBounds | build.go:222-235 | For a non-negative total, every chunk lies inside [0, total]. A negative int(rowCount) gives no non-empty chunk. |
| Build.StartsGrow | build.go:231-232 | For a non-negative total, chunk starts never decrease. |
| Build.NegativeShares | build.go:224 | Go's truncating division of a negative total gives non-positive shares and remainders. |
| Build.FindRowsShaped | build.go:247-254 | On an index with exactly count rows, findBlob's row loop returns the offset and length of the first row with the day, or (0, 0). |
| Build.FindBlobShaped | build.go:237-255 | On a shaped index, findBlob is the first match among its decoded rows, whatever the magic says. It checks neither the magic nor read errors. |
| Build.FirstMatchIs | build.go:248-252 | When row k is the first with the day, the lookup returns row k's offset and length. |
| Build.NoMatch | build.go:254 | With no row for the day, the lookup returns (0, 0). |
| Build.FindBlob | build.go:237-255 | The method does the header read and up to count row reads into one reused buffer on a file object, and returns the findBlob specification. |
| Build.CountIndex | build.go:307-312 | The index into CountPowLook is int(cnt) clamped to [1, 255], with each of the three cases stated. |
| Build.SignIsLowBit | build.go:314-317 | The sign is -1 exactly when flags & 1 is non-zero. |
| Build.Advance | build.go:345 | (head+1) & 2047 stays inside the ring and wraps to 0 only after slot 2047. |
| Build.SlotAfterAdvance | build.go:345-351 | After the head advances, the slot k back is the slot that was k-1 back, and it is never the new head's slot. |
| Build.MaskIsMod | build.go:345 | Masking with 2047 is reduction mod 2048. |
| Build.SlotIsMask | build.go:351 | (head - k) & 2047 is (head - k) mod 2048, also for k > head. |
| Build.Ring.constructor | build.go:286-287 | Both 2048-slot buffers start zeroed, with the head at 0 and nothing pushed. |
| Build.Ring.Push | build.go:345-346 | A push advances the head and stores (sign, qty). The ring invariant is kept: slot (head-k)&2047 holds the entry pushed k pushes ago, or zeros. |
| Build.Ring.Feed | build.go:314-346 | Feeding a row pushes its sign and raw quantity, so the ring holds the pushes of the whole history. |
| Build.Ring.Taps | build.go:350-353 | The propagator's inner loop reads 2000 taps, and tap k is the entry pushed k pushes ago (zeros before the first push). |
| Build.RowsIn | build.go:292-303 | The kernel can read row j when bytes 48j .. 48j+46 exist; the count of such rows is bounded accordingly. |
| Build.KernelFeatures | build.go:259-404 | processKernel returns one record per row of [startRow, endRow), and nothing for an empty range. |
| Build.KernelRecordAt | build.go:389-399 | Record j-startRow is row j's time stamp, price bits and a signal over the rows from max(0, startRow-warmup) through j. |
| Build.RecordsAt | build.go:389-399 | In a run of records, the record at position j-lo belongs to row j. |
| Build.PushesSnoc | build.go:345-346 | One more row is one more (sign, qty) push. |
| Build.RingWindow | build.go:350-353 | Tap k after rows a..b-1 is row b-1-k's push, or zeros when k ≥ b-a. |
| Build.EmitRecord | build.go:396-398 | The three PutUint64 calls write exactly the 24-byte record image at the offset and nothing else. |
| Build.EmitNext | build.go:396-399 | Writing a record after the records written so far extends the output prefix by its image. |
| Build.EmitStep | build.go:389-400 | A row at or past startRow adds its record, and outPos advances by 24. |
| Build.Consume | build.go:296-364 | Consuming a row extends the history, keeps the ring invariant, returns the 2000 taps the propagator reads (tap k is the push k back), and steps the lambda counter (mod 4000, reset to 0 at 4000). |
| Build.KernelRow | build.go:296-402 | One loop iteration preserves the kernel's progress invariant. |
| Build.KernelPass | build.go:292-402 | The loop from actualStart to endRow writes the records of rows startRow .. endRow-1 and fills the output exactly. |
| Build.ProcessKernel | build.go:259-404 | The output buffer is the image of KernelFeatures: empty for startRow ≥ endRow, warm-up from max(0, startRow-warmup). |
| Build.ReadTrade | build.go:297-303 | The zero-copy parse of the row at 48·j gives row j. |
| Build.ReadComp | build.go:169-171 | The compressed bytes are `length` bytes. When int64(offset) ≥ 0 and the range lies in the file, they are exactly data[offset .. offset+length]. |
| Build.SizeCheckWraps | build.go:189-191 | As written, the size check accepts a header-only blob claiming 2^60 rows. The exact check rejects it, and that blob's first chunk would read rows the body lacks. |
| Build.SizeOkAgrees | build.go:189-191 | The exact check implies the one written, and the two agree whenever rowCount·48 does not wrap. |
| Build.SizeOkRows | build.go:186-195 | A body that passes the exact check holds exactly rowCount readable rows. |
| Build.BlobOutcomeExact | build.go:186-212 | With the exact size check, no blob panics. A day is DONE exactly when the blob passes the header and exact size checks, and then its body holds exactly rowCount rows. |
| Build.PassesFits | build.go:189-204 | A blob that passes the exact check sends every kernel only to rows its body has. |
| Build.BlobChecks | build.go:181-212 | With the checks as written: ERR_HDR exactly below 48 bytes; ERR_SIZE exactly when the wrapped check fails; a panic exactly when the wrapped check passes and int(rowCount) is a non-negative total beyond the body's rows, which the exact check would reject; DONE with the day's features for every blob that passes the exact check. |
| Build.ExactAgrees | build.go:189-191 | When rowCount·48 does not wrap and the blob is below 2^64 bytes, the outcome as written equals the exact one. |
| Build.WrappedSizeCrashes | build.go:189-204 | A header-only blob claiming 2^60 rows passes the check as written and panics in the kernels, where the exact check gives ERR_SIZE. |
| Build.WrappedSizeBuildsEmpty | build.go:189-212 | A header-only blob claiming 2^63 rows passes the check as written, int(rowCount) is negative, and the day is DONE with an empty feature file, where the exact check gives ERR_SIZE. |
| Build.ChunkFits | build.go:195-204 | Every chunk of a total within the body's rows, or of a negative total, reads only rows the body has. |
| Build.ChunkFeatures | build.go:199-205 | Chunk i's kernel returns one record per row of its range. |
| Build.ChunkOutputs | build.go:196-206 | The results slice holds CPUThreads entries, entry i being chunk i's kernel output. |
| Build.ConcatAt | build.go:209-212 | Element j of part c sits at its offset within the concatenation. |
| Build.MergedLength | build.go:209-212 | The first k chunk outputs together hold ChunkStart(k) records, and none for a negative total. |
| Build.MergedAt | build.go:193-212 | The merged output holds one record per row, in row order. Record j carries row j's time stamp and price and a signal over its chunk's warm-up start through row j. |
| Build.MergedInChunk | build.go:209-212 | Position j of the merged output is chunk c's record for row j. |
| Build.ChunkRecordAt | build.go:201-204 | Chunk c's record at j-lo is row j's, with the warm-up starting at WarmStart. |
| Build.BuildDayChecks | build.go:152-219 | The checks come in order. No index row gives a silent return, a data file that does not open is ERR_IO, a stream zlib rejects is ERR_ZLIB, and the inflated blob decides the rest by BlobOutcome, whether the stream ended cleanly or not. |
| Build.DayFeaturesAt | build.go:186-217 | When the kernels stay inside the body, a built day's feature file decodes to rowCount records. Record j has row j's time stamp and price, and a signal over its chunk's warm-up through row j. |
| Build.PackedBlobPassesChecks | build.go:181-191 | A blob packed by fastZipToAgg3 passes the header and size checks, and its count is its number of rows. |
| Build.RunKernels | build.go:195-206 | Running the chunks' kernels fills results[k] with chunk k's output. The goroutines write disjoint slots, so running them in order fills the same slots. |
| Build.MergeResults | build.go:209-212 | Writing the results into one buffer in slot order is their concatenation. |
| Build.ImageOfConcat | build.go:209-212 | The bytes of records written part after part are the parts' bytes written one after the other. |
| Build.RunChunks | build.go:193-212 | Steps 4 and 5 over a blob whose kernels stay inside its body produce the day's feature bytes. |
| Build.ProcessBuildDay | build.go:152-220 | The method performs the lookup, seek, read, inflate and checks, then the chunks. Its result is the processBuildDay specification, with the wrapping size check as written and a panic when a chunk reaches past the body. |
| BuildRun.TaskLeOrder | build.go:80-88 | The sort.Slice comparison (year, month, day) is a total preorder that ties only equal tasks. |
| BuildRun.MonthTasks | build.go:72-74 | A month with an index contributes days 1..31 in order. |
| BuildRun.DirNumber | build.go:49-66 | An entry counts only when it is a directory whose name strconv.Atoi reads, and then it gives that number. |
| BuildRun.DiscoveredMonths | build.go:44-90 | Discovery yields 31 tasks per indexed month, all with days 1..31, so len(tasks)/31 is the month count printed. |
| BuildRun.YearMonths | build.go:58-76 | A year yields 31 tasks per indexed month directory, all in that year. |
| BuildRun.Discover | build.go:44-77 | The nested discovery loops produce the Discovered task list. |
| BuildRun.YearLoop | build.go:58-76 | The month loop of one year produces that year's tasks. |
| BuildRun.DateTextFields | build.go:166 | %04d-%02d-%02d of a calendar date is 10 characters whose fields read back as the year, month and day. |
| BuildRun.DayStatus | build.go:98-102 | A day counts as built exactly when processBuildDay returned DONE. A missing day returns "". A day whose kernels panic has no status, because the run ends there. |
| BuildRun.BuiltDays | build.go:97-103 | At most one feature file per scheduled task. |
| BuildRun.BuiltDaysAre | build.go:97-103 | A (day, file) pair is written exactly when the day is scheduled and its outcome is DONE with that file. |
| BuildRun.FirstCrash | build.go:96-103 | The run reaches k tasks: none of the first k panics, and task k panics when k is inside the schedule. |
| BuildRun.FirstCrashFrom | build.go:97-101 | The first task at or after lo that panics, with every task between lo and it returning. |
| BuildRun.FirstCrashIs | build.go:96-103 | A crash-free prefix that ends at a panicking task, or at the end of the schedule, is the one the run reaches. |
| BuildRun.DoneLines | build.go:98-102 | A crash-free schedule prints exactly one DONE line per built day. |
| BuildRun.RunTasks | build.go:96-103 | The execution loop runs the tasks in order up to the first one that panics. It prints one line per built day before that, records its file, and counts the built days. |
| BuildRun.RunBuild | build.go:41-105 | The schedule is sorted chronologically. The output is the banner, "Found ... months" and one DONE line per built day before the first panicking task. The closing count is printed only when no task panics. |
| BuildRun.Schedule | build.go:79-88 | The schedule is a sorted permutation of the discovered tasks. |
| BuildAlpha.MissingLine | buildalpha.go:50-53 | The status starts with "MISSING " exactly for a day without an index row, and the number after it reads back as the day. |
| BuildAlpha.IoErrorLine | buildalpha.go:55-58 | "ERR_IO " starts exactly the line of a data file that does not open, followed by the day. |
| BuildAlpha.DoneLine | buildalpha.go:105 | "DONE " starts exactly the line of a built day. |
| BuildAlpha.DayFile | buildalpha.go:95-103 | A feature file is written exactly for a built day, and it holds that day's features. |
| BuildAlpha.FirstCrashDay | buildalpha.go:39-42 | The first day of lo .. hi-1 whose kernels panic, or hi. Every day before it returns. |
| BuildAlpha.FirstCrashDayAt | buildalpha.go:39-42 | A day no later than the first panicking day comes before it exactly when it does not panic. |
| BuildAlpha.DayFiles | buildalpha.go:95-103 | One file entry per day of the range. |
| BuildAlpha.ProcessBuildDay | buildalpha.go:45-106 | The method reports a panic exactly when the day's kernels panic. Otherwise it returns the day's status line, and the file it writes is the day's features exactly when the day is built. It uses the same pipeline as build.go. |
| BuildAlpha.RunBuild | buildalpha.go:36-43 | The run reaches the first day from StartDay whose kernels panic, or EndDay+1. The output is the banner, then one status line per day before that, in order, with the files written. |
| BuildAlpha.DayLines | buildalpha.go:39-42 | The loop prints one line per day of a range in which no day panics. |
| BuildAlpha.DayAt | buildalpha.go:39-42 | Line k is day lo+k's status, and file k is present exactly when day lo+k is built. |
| Sanity.SanitySizeWraps | sanity.go:160-165 | As written, HeaderSize + int(rowCount)*RowSize accepts a bare 48-byte header claiming 2^60 rows. The exact check rejects it. |
| Sanity.SizeChecksAgree | sanity.go:160-165 | For row counts below 2^57 and blobs below 2^63 bytes, the check as written and the exact check agree. |
| Sanity.SizeMatchesIsBuildCheck | sanity.go:160-165 | The exact sanity check and processBuildDay's exact check accept the same blobs. |
| Sanity.CheckRow | sanity.go:110-165 | One row is an issue exactly when one of these fails, in order: length > 0, seek, full read, zlib, complete stream, checksum, header length, AGG3 magic, and the size check as written with its wrapping product. |
| Sanity.ValidateMonth | sanity.go:73-171 | The month verdict is No Index, No Data, Header Read Error, Bad Index Magic, or the row scan's issue count, with each row's size step the check as written. |
| Sanity.ScanRows | sanity.go:101-166 | The row loop counts the issues of the rows it reads. A short index read is one issue and ends the scan. |
| Sanity.IssuesPerRow | sanity.go:105-166 | A scan reports at most one issue per row it is asked to read. |
| Sanity.ScanCounts | sanity.go:105-166 | The issue count is the number of faulty complete rows, plus one when the index ends before count rows. |
| Sanity.ShapedIndexIssues | sanity.go:105-166 | On an index holding exactly count rows, the issues are exactly its faulty rows. |
| Sanity.RowsLeft | sanity.go:105-109 | After k of the count rows have been read, count-k complete rows remain. |
| Sanity.PackedRowClean | sanity.go:110-165 | A day stored by processDay passes every check of validateMonth, given that inflating the stored bytes gives the blob back and the file stays below 2^63 bytes. |
| Sanity.MonthLineSilent | sanity.go:168-170 | A month prints nothing exactly when its scan found no issues. An ISSUES line reads the count back. |
| Sanity.MonthLines | sanity.go:73-171 | Each month prints at most one line. |
| Sanity.RunSanity | sanity.go:22-71 | The output is the count line "SANITY CHECK: ... (n months)" followed by each month's line in order. |
| Ofi.FindRowsOfiShaped | ofi.go:336-343 | On an index whose count rows are all present, the row loop returns the first row at or after i whose day matches. |
| Ofi.FindBlobOfiCases | ofi.go:319-345 | On a well-formed index, findBlobOFI returns the first row with the day, as findBlob does. A file shorter than the 16-byte header, or one without the QIDX magic, gives (0, 0). |
| Ofi.FindBlobOfi | ofi.go:319-345 | The header read, magic check and row reads over the open file compute the specification above. |
| Ofi.First | ofi.go:358-360 | The first index from j on whose timestamp reaches t, or the length. Every index skipped lies below t. |
| Ofi.SortedTargetsRise | ofi.go:354 | For sorted timestamps whose targets ts[i]+lag do not wrap in int64, the targets do not decrease. |
| Ofi.FirstSkip | ofi.go:355-360 | Starting the scan later, past timestamps that are all below t, finds the same index. |
| Ofi.CarriedCursor | ofi.go:355-360 | The cursor carried over from target t1 is a sound start for a later target t2 ≥ t1. |
| Ofi.Advance | ofi.go:358-360 | The inner loop stops at First(ts, j0, target). |
| Ofi.ReachStep | ofi.go:361-365 | Appending the next entry (-1 when the scan ran off the end) keeps every entry either -1 or a later tick that reaches its target. |
| Ofi.SticksStep | ofi.go:361-365 | Once an entry is -1, the cursor is at the end, so every later entry is -1 too. |
| Ofi.LeastStep | ofi.go:355-365 | With rising targets, the appended entry is the least tick at or after i that reaches the target. |
| Ofi.BuildEntryIndex | ofi.go:349-368 | There is one entry per tick. Each entry is -1 or an index j ≥ i with ts[j] ≥ ts[i]+lag, and after a -1 all later entries are -1. With rising targets each entry is exactly the least such index. |
| Ofi.BuildHorizonData | ofi.go:375-398 | valid[i] holds exactly when i ≥ warmup, the entry exists, entry+horizon is inside the series and the entry price is positive. Then ret[i] = (px[e+h]-px[e])/px[e]; every other ret is 0. |
| Ofi.Delta | ofi.go:420-423 | An inter-trade gap is at least 1 ms: non-positive gaps are clamped to 1. |
| Ofi.Deltas | ofi.go:418-425 | The gap list holds the clamped gap of each pair of consecutive ticks, in order. |
| Ofi.SortedDeltas | ofi.go:426 | The sorted gaps are a permutation of the gaps, in ascending order. |
| Ofi.Median | ofi.go:427-431 | The corrected median is at least every value in the lower half and at most every value in the upper half. |
| Ofi.MedianParityInverted | ofi.go:427-431 | As written, two ticks (one gap) make the code index past the end, and the gaps [1,1,8] give 4.5 where the median is 1. |
| Ofi.MedianDeltaMs | ofi.go:413-432 | Fewer than two ticks give 0; otherwise the result is the median of the sorted gaps. It uses the corrected `Ofi.Median`, the corrected half of the ofi.go:427-431 finding below; `Ofi.MedianParityInverted` is the half as written. |
| Ofi.MedianBetween | ofi.go:413-432 | The median lies between two of the actual gaps and is at least 1 ms. |
| Ofi.Window | ofi.go:133-162 | The z-score window is the last min(count, w) inputs. |
| Ofi.WindowNext | ofi.go:142-162 | A new input is appended to a window that is still filling. In a full window it drops the oldest value and is appended. |
| Ofi.WindowSumIs | ofi.go:145-146 | The running sum and sum of squares equal those of the window. |
| Ofi.SumsFill | ofi.go:145-146 | While the window fills, both sums grow by the new value and its square. |
| Ofi.SumsFull | ofi.go:154-157 | In a full window, both sums change by the new value minus the evicted oldest one (and likewise for the squares). |
| Ofi.ModNext | ofi.go:148-151 | Advancing the head and wrapping at w is (x+1) mod w. |
| Ofi.OldestAtHead | ofi.go:154 | In a full ring, the slot at the head holds the oldest value in the window. |
| Ofi.RingSlotsModular | ofi.go:144-155 | Input p sits in slot p mod w while it is in the window. |
| Ofi.RingStart | ofi.go:138-140 | A fresh buffer of w zeros, with head 0, count 0 and zero sums, is a valid ring over no inputs. |
| Ofi.RingPush | ofi.go:142-162 | One push keeps the ring's invariant: the slots, head, count and sums describe the window of the inputs with the new value appended. |
| Ofi.HeadInRing | ofi.go:142-162 | The head is always a slot of the ring, and the count stays within 0..w. |
| Ofi.OfiState.constructor | ofi.go:127-131 | A new state has every field at its zero value. |
| Ofi.OfiState.Allocate | ofi.go:138-140 | The buffer is made on the first push only, as w zero slots, and no other field changes. |
| Ofi.OfiState.Push | ofi.go:142-162 | The value enters the ring, which stays valid, and only the z-score fields change. |
| Ofi.OfiState.UpdateZScore | ofi.go:133-173 | With w ≤ 0 the value passes through unchanged. Otherwise the value joins the inputs, and the result is its z-score against the window that now ends with it: 0 for fewer than two values or a non-positive variance. |
| Ofi.OfiState.Update | ofi.go:176-234 | The variant's formula moves the OFI value on. Every ResetEvery-th call resets it to 0, and the trade counter stays below ResetEvery. With a window, the result is the z-score of the new value; otherwise it is the value itself. |
| OfiStudy.DigitsOf | ofistudy.go:553-562 | The digits fastAtoi reads are the decimal digits of the string, in order; it skips every byte that is not a digit. |
| OfiStudy.AtoiValue | ofistudy.go:553-562 | When no wrap-around happens, fastAtoi's value is the numeral of those digits. |
| OfiStudy.DigitsOfDigits | ofistudy.go:553-562 | A string made only of digits is its own digit sequence. |
| OfiStudy.AtoiSmall | ofistudy.go:553-562 | A string of k ≤ 18 bytes reads below 10^k, so it never wraps. |
| OfiStudy.FastAtoi | ofistudy.go:553-562 | The loop, n = n*10 + digit with int64 wrap-around, computes AtoiValue. |
| OfiStudy.AtoiStep | ofistudy.go:556-559 | One byte of the loop: a digit extends the value and any other byte leaves it unchanged. |
| OfiStudy.ParseOosBoundary | ofistudy.go:549-551 | The boundary is a non-negative number below 10^8. |
| OfiStudy.FieldBounds | ofistudy.go:550 | The year field reads below 10^4, and the month and day fields below 100. |
| OfiStudy.ParseOosBoundaryReads | ofistudy.go:549-551 | On a YYYY-MM-DD string the boundary is the numeral YYYYMMDD. |
| OfiStudy.FieldValue | ofistudy.go:553-562 | A short field of digits reads as its numeral. |
| OfiStudy.JoinFields | ofistudy.go:550 | Joining the fields is y*10000 + m*100 + d. |
| OfiStudy.OosBoundaryValue | ofistudy.go:549-551 | The constant boundary 2024-01-01 reads as 20240101. |
| OfiStudy.SplitYmd | ofistudy.go:241 | With Go's truncating division, the split of a non-negative day number gives fields (month and day below 100) that recompose it. |
| OfiStudy.YmdRoundTrip | ofistudy.go:241 | Splitting the number of a date gives the date back. |
| OfiStudy.StudyDayOf | ofistudy.go:539-542 | Only a name ending in ".bin" whose other bytes read as a positive value names a day. |
| OfiStudy.DayDigits | ofistudy.go:271 | The %04d%02d%02d name of a day is eight digits that read as the day. |
| OfiStudy.DayFileRoundTrip | ofistudy.go:271-281 | The file processStudyDay opens for a day names that day: the name of each day from 1 to 99999999 reads back as it. |
| OfiStudy.StudyDays | ofistudy.go:538-544 | Every day a listing yields is positive. |
| OfiStudy.DiscoverStudyDays | ofistudy.go:535-547 | The result is a permutation of the days the listing names, sorted ascending, all positive. |
| OfiStudy.StudyDaysStep | ofistudy.go:538-544 | A name that is not a day file adds nothing. |
| OfiStudy.SortedDays | ofistudy.go:545 | sort.Ints gives an ascending permutation of the same positive days. |
| OfiStudy.StudyDaysFrom | ofistudy.go:538-544 | Each discovered day comes from a file in the listing named for it. |
| OfiStudy.IsOosIffLater | ofistudy.go:153 | A day is out-of-sample exactly when its date is on or after 2024-01-01. |
| OfiStudy.FindBlobOffsetCases | ofistudy.go:603-624 | On an index with a header and all count rows, findBlobOffset returns the first row with the day, whatever the magic. With the QIDX magic it agrees with findBlobOFI. A file shorter than the header gives (0, 0). |
| OfiStudy.FindBlobOffset | ofistudy.go:603-624 | The reads over the open file compute the specification above; a short row read ends the scan with (0, 0). |
| OfiStudy.LoadRawDay | ofistudy.go:564-601 | A day without an index row, or with a data file that does not open, loads nothing. |
| OfiStudy.LoadRawDayReads | ofistudy.go:564-601 | A loaded day is the complete inflation of exactly the bytes the index row points at. Its body follows that blob's 48-byte header, and its row count is the header's. |
| OfiStudy.DecodeDay | ofistudy.go:252-269 | The loop panics exactly when int(rowCount) is negative (the slice to n) or a row's 46 bytes run past the body. Otherwise prices and times hold rowCount entries, and entry i is the price at byte 8 and the time stamp at byte 38 of row i. |
| OfiStudy.DecodeDayOfTrades | ofistudy.go:267-268 | On a packed day, those fields are the trade's price and timestamp. |
| OfiStudy.FeatureDims | ofistudy.go:288-294 | An accepted file has 1 to 5 dimensions, and its size is exactly dims eight-byte words per price row. |
| OfiStudy.FeatureDimsIff | ofistudy.go:288-294 | A feature file is used exactly when it holds 1 to 5 eight-byte words per row, and dims is then that number. |
| OfiStudy.WordInFile | ofistudy.go:306-309 | Every word the de-interleave reads lies inside the file. |
| OfiStudy.WordOwner | ofistudy.go:307 | Each word of the file belongs to exactly one (row, dimension) pair. |
| OfiStudy.Deinterleave | ofistudy.go:302-310 | target[i] is the value of word i*dims+dim. |
| OfiStudy.KeySuffix | ofistudy.go:312-319 | A key suffix is "_" followed by at least two characters. |
| OfiStudy.KeySuffixDistinct | ofistudy.go:312-319 | Different dimensions get different suffixes. |
| OfiStudy.NumberedSuffix | ofistudy.go:314 | A dimension past the named ones gets "_d" followed by its 1-based number. |
| OfiStudy.NamedSuffix | ofistudy.go:300-317 | The named suffixes begin "_f" followed by the 1-based dimension digit. |
| OfiStudy.FeatureKey | ofistudy.go:312-319 | A one-dimensional file keeps the variant's name. A wider file's key starts with the name, then "_" and a suffix of at least two characters. |
| OfiStudy.FeatureKeysDistinct | ofistudy.go:312-319 | The dimensions of one file are aggregated under distinct keys. |
| OfiStudy.AlignFrom | ofistudy.go:410-439 | The pairs from tick i on are at most the remaining ticks. |
| OfiStudy.AlignFromSound | ofistudy.go:410-439 | Every pair (i, e) is tradable (non-zero signal, positive prices) and has e > i with ts[e] reaching the target of i. |
| OfiStudy.AlignFromIncreasing | ofistudy.go:410-439 | The entries strictly increase, so no tick enters twice. |
| OfiStudy.FirstMono | ofistudy.go:421-427 | A later scan for a later target stops no earlier. |
| OfiStudy.AlignFromExits | ofistudy.go:421-427 | With the carried cursor, every exit is the first tick that reaches its entry's target. |
| OfiStudy.AlignFromComplete | ofistudy.go:410-439 | Every tradable entry whose exit exists is yielded; the break at the first entry without an exit loses nothing. |
| OfiStudy.Targets | ofistudy.go:420 | The targets are ts[k]+h for each k, computed in int64 arithmetic. |
| OfiStudy.AlignPairsSound | ofistudy.go:404-441 | Every yielded pair is sound, and the entries strictly increase. |
| OfiStudy.Exit | ofistudy.go:421-427 | The exit of entry x lies after x and at most at the end of the series. |
| OfiStudy.AlignPairsExact | ofistudy.go:404-441 | With rising targets, a pair is yielded exactly when it is tradable and its exit is the first tick after the entry that reaches the target. |
| OfiStudy.PairValues | ofistudy.go:432-435 | Each pair becomes (signal, (pEnd-pStart)/pStart). |
| OfiStudy.YieldFromPairs | ofistudy.go:404-441 | The values yielded from tick i on are those of the pairs. |
| OfiStudy.AlignValuesArePairs | ofistudy.go:404-441 | What AlignVectors yields is the values of AlignPairs, pair by pair. |
| OfiStudy.YieldTake | ofistudy.go:432-437 | An entry with an exit yields its value when the exit price is positive, and nothing otherwise. |
| OfiStudy.YieldSkip | ofistudy.go:411-430 | A zero signal or non-positive price skips the tick; an entry without an exit ends the sequence. |
| OfiStudy.AlignVectors | ofistudy.go:404-441 | The loop with its carried cursor yields exactly AlignValues. |
| OfiStudy.YieldEnd | ofistudy.go:428-430 | When the loop stops, the output is complete. |
| OfiStudy.YieldNext | ofistudy.go:432-437 | One loop step keeps the output plus what remains to yield equal to the whole. |
| OfiStudy.Abs | ofistudy.go:391-394 | The absolute value is non-negative and is x or -x. |
| OfiStudy.SignsOfProduct | ofistudy.go:383-387 | Both values are non-zero exactly when their product is, and they share a sign exactly when the product is positive. |
| OfiStudy.CalcMomentsVectors | ofistudy.go:365-402 | Count is the number of pairs, ValidHits the number with both values non-zero, and Hits the number with both of one sign. Every sum is over the pairs, and Turnover and the lag sums run over consecutive signals. |
| OfiStudy.MomentsNext | ofistudy.go:369-400 | One loop step extends every accumulator by the next pair. |
| OfiStudy.SumsNext | ofistudy.go:373-381 | One step extends the seven sums. |
| OfiStudy.LagsNext | ofistudy.go:390-399 | One step extends the turnover and lag sums; the first pair adds nothing to them. |
| OfiStudy.CountsNext | ofistudy.go:373-388 | One step extends the three counters. |
| OfiStudy.CountersOrdered | ofistudy.go:383-388 | Hits ≤ ValidHits ≤ Count. |
| OfiStudy.TurnoverGrows | ofistudy.go:390-395 | Turnover is non-negative and never decreases along the series. |
| OfiStudy.TurnoverZeroIffFlat | ofistudy.go:390-395 | Turnover is zero exactly when the signal never changes. |
| OfiBuild.RecordChain | ofibuild.go:281-294 | Recording a trade keeps the info chain: each entry's info is the previous entry's info (0 for the first) plus the absolute value of its u. |
| OfiBuild.InfoGrows | ofibuild.go:283-287 | Cumulative info-time is non-negative and never decreases along the trades. |
| OfiBuild.Slot | ofibuild.go:326 | The slot k back from the newest is inside the ring. |
| OfiBuild.NextSlot | ofibuild.go:277-296 | The slot after idx mod N is (idx+1) mod N. |
| OfiBuild.RingPush | ofibuild.go:289-296 | Writing the entry at the next slot and moving on keeps the ring: slot p holds the newest trade that maps to it. |
| OfiBuild.PushKeeps | ofibuild.go:277-296 | Update's write at slot idx mod N keeps the ring for idx+1. |
| OfiBuild.ScanSlot | ofibuild.go:310-326 | lastPos is the newest slot, and (lastPos-k+N) mod N is the slot k back. |
| OfiBuild.SlowLen | ofibuild.go:318-335 | The slow window's length lies between the start of the scan and its limit. |
| OfiBuild.FastCount | ofibuild.go:343-347 | At most n entries are counted in the fast window. |
| OfiBuild.LastFast | ofibuild.go:343-346 | The farthest entry within lfast exists exactly when the fast count is positive, and it lies within lfast. |
| OfiBuild.EwVarNonNegative | ofibuild.go:371-386 | With a weight in [0, 1], the variance tracker stays non-negative. |
| OfiBuild.WindowsNested | ofibuild.go:307-348 | fast count ≤ slow count ≤ min(N, trades). Before the first trade both windows are empty. |
| OfiBuild.NewestInBoth | ofibuild.go:325-348 | With non-negative lengths, the newest trade is in both windows, so neither is empty. |
| OfiBuild.FastCountGrows | ofibuild.go:343-347 | Scanning further back never lowers the fast count. |
| OfiBuild.DistGrows | ofibuild.go:331 | The info distance is non-negative and grows with k. |
| OfiBuild.SlowIsWithin | ofibuild.go:331-335 | Entry j is in the slow window exactly when its distance is within lslow: the break loses nothing. |
| OfiBuild.ScanTake | ofibuild.go:337-347 | One taken entry keeps the scan's invariant. |
| OfiBuild.ScanDone | ofibuild.go:325-335 | When the scan stops, it has taken the whole slow window. |
| OfiBuild.ScanResult | ofibuild.go:350-368 | The windows the scan assembles are those of Snaps. |
| OfiBuild.Core.Contents | ofibuild.go:222-228 | The six arrays give one entry per slot, N in all. |
| OfiBuild.Core.constructor | ofibuild.go:258-274 | A new core is a valid, empty ring of N zeroed slots with the given configuration and zero trackers. |
| OfiBuild.Core.Store | ofibuild.go:289-294 | The six writes change exactly one slot, to the new entry. |
| OfiBuild.Core.PrevInfoOf | ofibuild.go:283-286 | The previous info is the newest trade's, or 0 before the first trade. |
| OfiBuild.Core.Push | ofibuild.go:277-299 | The history grows by the recorded trade, idx by one, and the ring stays valid. |
| OfiBuild.Core.Update | ofibuild.go:276-302 | The trade is recorded and idx grows by one, with filled exactly when idx ≥ N. The result is the windows of the history. EWVarBf and EWVarBs are seeded or blended with their window's squared sum when that window is non-empty, and the other trackers are unchanged. |
| OfiBuild.Core.BuildSnaps | ofibuild.go:306-389 | The windows are Snaps of the history. Each tracker is seeded or blended with its window's B² when the window is non-empty, and is otherwise unchanged. |
| OfiBuild.Core.Scan | ofibuild.go:307-368 | The backward scan's windows are Snaps of the history. |
| OfiBuild.Core.Walk | ofibuild.go:325-348 | The loop ends with the invariant holding after exactly the slow window's length. |
| OfiBuild.WindowSides | ofibuild.go:486-492 | The sides read from the window's start forward, one per entry. |
| OfiBuild.Buys | ofibuild.go:494-495 | At most k of the first k sides are buys. |
| OfiBuild.TransitionsPartition | ofibuild.go:490-511 | The four transition counts partition the N-1 steps by the previous side (npp+npm buys, nmp+nmm sells) and by the next side. |
| OfiBuild.Clamp01 | ofibuild.go:537-543 | The clamp lies in [0, 1] and leaves values already in [0, 1] unchanged. |
| OfiBuild.CoherenceOf | ofibuild.go:475-545 | Coherence lies in [0, 1], and is 0 for windows of fewer than 3 trades. |
| OfiBuild.OneSidedTransitions | ofibuild.go:490-511 | All buys give only buy→buy transitions; all sells give only sell→sell. |
| OfiBuild.ForwardSlot | ofibuild.go:491 | Stepping j forward from the slot k back lands on the slot k-j back. |
| OfiBuild.FastIsPrefix | ofibuild.go:343-347 | Because info-time is cumulative, the fast window is a prefix of the backward scan: its count is the farthest index plus one. |
| OfiBuild.SidesBack | ofibuild.go:486-492 | The sides of the last count trades, oldest first. |
| OfiBuild.FastWindowSides | ofibuild.go:486-492 | Reading the fast window forward around the ring gives the sides of its trades in arrival order. |
| OfiBuild.Engine.constructor | ofibuild.go:399-401 | The engine wraps the given core. |
| OfiBuild.Engine.Update | ofibuild.go:403-419 | The trade goes into the core. Each tracker moves as the window sums and the f2 and f3 updates dictate, and only when both windows hold trades do f2 and f3 update theirs. The features are all zero when either window is empty. Otherwise f4 is the coherence of the fast window's sides and f1, f2, f3 and f5 are those formulas over the updated trackers. |
| OfiBuild.Engine.Features | ofibuild.go:408-418 | With an empty window the trackers stay and the vector is zero. Otherwise f1 to f5 are computed in the source's order, each seeing the tracker updates before it. |
| OfiBuild.Engine.ZFast | ofibuild.go:422-425 | f1 is tanh of the fast sum over sqrt(EWVarBf + 1e-12) + 1e-12. |
| OfiBuild.Engine.SurplusFlow | ofibuild.go:428-455 | The absorption baseline is seeded or blended with abs(B). f2 is 0 when abs(B) does not beat the new baseline, and EWVarS is then left alone. Otherwise EWVarS is blended with the squared signed surplus, and f2 is tanh of the signed surplus over its scale. |
| OfiBuild.Engine.Elasticity | ofibuild.go:458-472 | ERef is seeded or blended with abs(dP)/(abs(B) + 1e-12), and f3 is tanh of that ratio over ERef + 1e-12. |
| OfiBuild.Engine.Align | ofibuild.go:548-558 | f5 is c times tanh(Zf) times tanh(Zs), each sum over its own tracker's scale. |
| OfiBuild.EngineTrackedNonNegative | ofibuild.go:370-472 | One trade's tracker updates keep every tracker non-negative when the weights are in [0, 1]. |
| OfiBuild.FeatureBounds | ofibuild.go:403-558 | When tanh maps into [-1, 1], f1, f2, f3 and f5 lie in [-1, 1] and f4 lies in [0, 1]. |
| OfiBuild.ActiveBounds | ofibuild.go:422-558 | With both windows non-empty, the same bounds hold. f5 is f4·f1·tanh(Zs), and f2 is 0 when abs(B) does not beat the updated baseline. |
| OfiBuild.ActiveFeaturesAre | ofibuild.go:408-418 | The features assembled step by step, each method seeing the trackers as the earlier ones left them, are the five formulas. |
| OfiBuild.Engine.Coherence | ofibuild.go:475-545 | f4 is the coherence of the window's sides read forward from its start. |
| OfiBuild.FeatureRow | ofibuild.go:200-205 | A feature row is 40 bytes. |
| OfiBuild.FeatureRows | ofibuild.go:170-172 | A day's file is 40 bytes per row. |
| OfiBuild.FeatureRowsAt | ofibuild.go:200 | Row i of the file starts at byte 40·i. |
| OfiBuild.RowWord | ofibuild.go:201-205 | Bytes 8k..8k+8 of a row are feature k's float64 bits, little-endian. |
| OfiBuild.FeatureWordAt | ofibuild.go:200-205 | Feature k of row i is the word at byte 40i+8k. |
| OfiBuild.StudyReadsBuild | ofibuild.go:200-205 | The study reads a built file as 5 dimensions, and dimension d of row i is exactly feature d of vector i. |
| OfiBuild.WriteRow | ofibuild.go:200-205 | The five PutUint64 calls splice the row into the buffer at 40·i. |
| OfiBuild.PutRow | ofibuild.go:200-205 | After row i, the buffer's prefix is the rows so far. |
| OfiBuild.RowsPrefix | ofibuild.go:200-205 | Splicing the next row after the rows written so far extends the file by that row. |
| OfiBuild.DayTrades | ofibuild.go:185-195 | There is one trade per row. |
| OfiBuild.History | ofibuild.go:179-196 | The history has one entry per trade fed. |
| OfiBuild.DayVectors | ofibuild.go:185-196 | The feed loop produces one feature vector per trade of the day. |
| OfiBuild.DayVectorAt | ofibuild.go:185-196 | Vector j of a day is the engine's answer to trade j: the windows of trades 0..j, with the trackers as trades 0..j-1 left them. |
| OfiBuild.DayVectorsPrefix | ofibuild.go:185-196 | The vectors of a day's first k trades are the day's first k vectors: no vector depends on a later trade. |
| OfiBuild.TrackersStayNonNegative | ofibuild.go:370-386 | With every blend weight in [0, 1], the five trackers stay non-negative over any run of trades. |
| OfiBuild.NoPanicFits | ofibuild.go:169-187 | When the day does not panic, the rows fit the blob's capacity and reqSize is 40 per row. |
| OfiBuild.HeaderOnlyBlobBuilds | ofibuild.go:169-211 | A blob that is only its header but claims one row does not panic, because io.ReadAll leaves at least 512 bytes of capacity. The day writes one 40-byte row, the features of a trade parsed from the spare bytes. |
| OfiBuild.OneRowDay | ofibuild.go:185-205 | One row gives a 40-byte file holding the features of the trade parsed from the first 48 bytes. |
| OfiBuild.ProcessBuildDay | ofibuild.go:149-211 | The day is skipped exactly when the output exists, the blob does not load, or it has no rows. Otherwise it panics exactly when reqSize wraps negative, a row slice passes the blob's capacity, or a write passes the buffer. A written file holds the features of the day's trades in row order, the rows read up to the capacity, or, when the row count is negative as an int, the stale buffer as sliced. |
| OfiBuild.BuildDay | ofibuild.go:169-211 | A day with rows is never skipped, and what it writes is as above. |
| OfiBuild.FillRows | ofibuild.go:178-206 | The buffer ends up holding the rows of the day's feature vectors, in trade order. |
| OfiBuild.FeedRow | ofibuild.go:186-205 | One row keeps the engine fed and its trackers in step with the trades, and extends the buffer's prefix by the row of the next vector. |
| OfiBuild.FeedTrade | ofibuild.go:187-196 | One trade keeps the engine fed and its trackers in step, and its result is the day's next vector. |
| OfiBuild.DayTradeAt | ofibuild.go:186-187 | Trade i is the parse of bytes 48i..48i+48. |
| OfiBuild.FedIsHistory | ofibuild.go:179-196 | The core's history after feeding is History of the trades. |
| OfiBuild.FedStep | ofibuild.go:196 | Recording trade i extends the history of trades 0..i-1. |
| OfiBuild.DayStep | ofibuild.go:196 | One more trade moves the trackers by one engine step and appends the engine's answer to the day's vectors. |
| OfiBuild.SymbolNames | ofibuild.go:88-97 | At most one symbol per entry. |
| OfiBuild.SymbolNamesExact | ofibuild.go:88-97 | A name is a symbol exactly when some directory entry carries it and is not "features", "common" or a dot name. |
| OfiBuild.DiscoverSymbols | ofibuild.go:82-99 | A failed listing gives no symbols; otherwise the kept names in listing order. |
| OfiBuild.TaskRowsKept | ofibuild.go:602-615 | Every task kept has a day in 1..31, a positive length and the directory's year and month. |
| OfiBuild.FullReadRow | ofibuild.go:603-606 | On a well-formed index, the read of row k gives that row's task and moves to the next row. |
| OfiBuild.TaskRowsShaped | ofibuild.go:602-615 | On an index with exactly count rows, the tasks are the kept rows in order. |
| OfiBuild.MonthTasksShaped | ofibuild.go:592-616 | On a well-formed index file, the month's tasks are its kept rows. |
| OfiBuild.ScanMonthIndex | ofibuild.go:592-616 | The reads over the open index file compute MonthTasks, errors ignored as in the source. |
| OfiBuild.LoadRawBlob | ofibuild.go:622-656 | A data file that does not open, or a negative offset, loads nothing. A loaded blob carries the read buffer's spare capacity bytes. |
| OfiBuild.LoadRawBlobReads | ofibuild.go:622-656 | A loaded blob is the complete inflation of exactly the bytes the task points at. Its body follows the 48-byte header, and its row count is the header's. |
| Study.Ext | study.go:35 | filepath.Ext: the suffix from the last '.' of the final element, or "" when that element has no '.'. |
| Study.ExtBin | study.go:35 | A name has extension ".bin" exactly when it ends in ".bin". |
| Study.ExtSnoc | study.go:35 | A last character other than '.' or '/' extends a non-empty extension, and leaves an empty one empty. |
| Study.LastSlash | study.go:139-141 | The index of the last '/', or -1 when there is none. |
| Study.LastSlashOfJoin | study.go:36 | The last separator of a joined path is the one the join put there. |
| Study.BaseDirOfJoin | study.go:139-141 | filepath.Base and filepath.Dir take a joined path apart again. |
| Study.DayFiles | study.go:34-38 | At most one file per day entry. |
| Study.DayFilesAreBin | study.go:34-38 | Every file gathered from a month ends in ".bin". |
| Study.JoinBin | study.go:36 | Joining a directory onto a name keeps the ".bin" ending. |
| Study.MonthFilesAreBin | study.go:31-40 | Every file gathered from a year's month directories ends in ".bin". |
| Study.StudyFilesAreBin | study.go:26-42 | Every file runStudy gathers ends in ".bin". |
| Study.BinBase | study.go:142 | The base name of a gathered file has at least 4 characters, so base[:len(base)-4] is in range. |
| Study.GatherDays | study.go:34-38 | The innermost loop gathers the .bin entries of one month, in listing order. |
| Study.GatherMonths | study.go:31-40 | The month loop gathers the day files of each month directory in order. |
| Study.GatherFiles | study.go:26-42 | The year loop gathers every .bin file three directories down, and each has a base of at least 4 characters. |
| Study.DateOfStudyFile | study.go:138-142 | The date of a gathered file is "<year>-<month>-<stem>" from its two directories and its name without ".bin". |
| Study.DecodeRecords | study.go:120-136 | There is one record per 24 bytes: the int64 timestamp at 0, the price at 8 and the signal at 16. |
| Study.Advance | study.go:175-180 | The first index at or after e whose timestamp reaches the target, or n. |
| Study.PairsStep | study.go:167-199 | One bar: the scan stops for good when entry+h leaves the day; otherwise the bar yields its pair and the scan goes on from the same entry. |
| Study.Firsts | study.go:196 | The signals of the pairs, in order. |
| Study.Seconds | study.go:197 | The returns of the pairs, in order. |
| Study.AdvanceCursor | study.go:175-180 | The fast-forward loop stops at Advance. |
| Study.HorizonPairs | study.go:153-199 | subSig and futureRet are the signals and returns of the horizon's pairs. |
| Study.ScanBar | study.go:167-199 | One bar of the loop either stops with the complete pairs or keeps the loop invariant. |
| Study.ScanInvariant | study.go:167-199 | The loop invariant of HorizonPairs carries over one bar. |
| Study.TakeBar | study.go:192-198 | A bar with a positive entry price appends its signal and its return (pExit-pEntry)/pEntry; any other bar appends nothing. |
| Study.PairsAppend | study.go:196-197 | Appending a pair appends its signal and its return. |
| Study.AdvanceSkips | study.go:178-180 | Every index the cursor passes over is before the target. |
| Study.AdvanceFrom | study.go:175-180 | Starting the scan later, but not past its result, changes nothing. |
| Study.FreshEntriesRise | study.go:172-180 | With ordered timestamps, the fresh entries never move back. |
| Study.WrapI64Small | study.go:172 | Adding the 70 ms lag to a timestamp in range does not wrap. |
| Study.CarriedCursor | study.go:164-199 | With ordered timestamps, the carried cursor finds the same entries as a fresh scan: each pair enters at the first bar at least 70 ms after its signal. |
| Study.StudyPairsFresh | study.go:164-199 | The study's pairs, for ordered timestamps, are the fresh-scan pairs. |
| Study.Times | study.go:133 | One timestamp per 24-byte record. |
| Study.Prices | study.go:134 | One price per record. |
| Study.Signals | study.go:135 | One signal per record. |
| Study.HorizonMap | study.go:153-204 | The horizon map has one key per studied horizon, named in decimal. |
| Study.Names | study.go:203 | Each horizon's decimal name is among the keys. |
| Study.HorizonNames | study.go:16 | The studied horizons are named "20", "50" and "100", and nothing else. |
| Study.HorizonMapAt | study.go:153-204 | The entry for horizon h is the scorecard of h's pairs. |
| Study.FileResult | study.go:105-118 | A failed read or fewer than 200 records gives NBars 0. Otherwise NBars is the record count and there are the three horizon scorecards. |
| Study.DayResult | study.go:145-206 | A studied day has NBars equal to its record count and the keys "20", "50" and "100". |
| Study.FileHorizon50 | study.go:153-204 | A studied day's "50" scorecard, for ordered timestamps, scores the signal of each bar against the return from the first bar at least 70 ms later to 50 bars after it. |
| Study.ScoreHorizons | study.go:153-204 | The horizon loop builds HorizonMap. |
| Study.ScoreHorizon | study.go:153-203 | One pass of the horizon loop gives that horizon's scorecard. |
| Study.AnalyzeFile | study.go:105-207 | analyzeFile computes FileResult. |
| Study.Analyzed | study.go:57-59 | There is one result per gathered file. |
| Study.Kept | study.go:76-78 | A result is kept exactly when it has bars. |
| Study.ValidCount | study.go:79-83 | The valid count is at most the kept count, and equals it when every kept result has a "50" scorecard. |
| Study.DateLeOrder | study.go:88 | Ordering by date is a total preorder. |
| Study.Aggregate | study.go:71-88 | The report is the kept results, sorted by date, as a permutation. The "50" IC and breakeven sums and the valid count are over the kept results that have a "50" scorecard. |
| Study.GlobalMeans | study.go:90-94 | The means are printed exactly when some day is valid, and then they times the count give back the sums. |
| Study.RunStudy | study.go:21-102 | The report is the sorted kept results of the gathered files. Every entry has at least 200 bars and the three horizons, so the means are printed exactly when the report is non-empty. |
| Study.AnalyzeAll | study.go:53-68 | Every gathered file goes through analyzeFile. |
| Study.AnalyzedStudied | study.go:105-207 | Every analyzed file with bars has at least 200 of them and the three scorecards. |
| Study.AllValid | study.go:76-85 | When every kept result has a "50" scorecard, the valid count is the report's length. |
| StudyAlpha.Selected | studyalpha.go:122-142 | The selected bars are, in increasing order, exactly the usable bars before k: a positive entry price, and for the PnL a non-zero signal. |
| StudyAlpha.SignalsAt | studyalpha.go:127 | One signal per selected bar. |
| StudyAlpha.ReturnsAt | studyalpha.go:126-128 | One h-bar return per selected bar. |
| StudyAlpha.PnlAt | studyalpha.go:140 | One signal-weighted return per selected bar. |
| StudyAlpha.PairIndices | studyalpha.go:122-125 | Every selected bar has its exit i+h inside the day and a positive price. |
| StudyAlpha.PnlIndices | studyalpha.go:136-139 | Every PnL bar has its 20-bar exit inside the day, a positive price and a non-zero signal. |
| StudyAlpha.HorizonIc | studyalpha.go:117-131 | A horizon with no usable pair scores an IC of 0. |
| StudyAlpha.SignalsSnoc | studyalpha.go:127 | Selecting one more bar appends its signal. |
| StudyAlpha.ReturnsSnoc | studyalpha.go:126-128 | Selecting one more bar appends its return. |
| StudyAlpha.PnlSnoc | studyalpha.go:140 | Selecting one more PnL bar appends its signal times its return. |
| StudyAlpha.SelectedStep | studyalpha.go:122-130 | One more bar before the bound is appended exactly when it is usable. |
| StudyAlpha.SelectPairs | studyalpha.go:121-130 | s and r are the signals and returns of the selected bars. |
| StudyAlpha.PairStep | studyalpha.go:123-129 | One bar of the selection loop keeps s and r equal to those of the bars selected so far. |
| StudyAlpha.SelectPnl | studyalpha.go:134-142 | The PnL is sig[i] times the 20-bar return of each PnL bar. |
| StudyAlpha.PnlStep | studyalpha.go:137-141 | One bar of the PnL loop keeps the PnL equal to that of the bars selected so far. |
| StudyAlpha.PnlBarsArePairs | studyalpha.go:122-142 | Every PnL bar is also a 20-bar IC pair, with a non-zero signal. |
| StudyAlpha.IcKeys | studyalpha.go:113-132 | A day of at least 500 bars scores all four horizons. |
| StudyAlpha.HorizonNames | studyalpha.go:14 | The horizons print as "20", "50", "100" and "200". |
| StudyAlpha.Sharpe | studyalpha.go:144-150 | The Sharpe ratio is 0 for at most one value or a standard deviation of at most 1e-9. Otherwise Sharpe·std = mean·sqrt(365·24·60·6). |
| StudyAlpha.Annualised | studyalpha.go:148 | (mu/std)·scale times std is mu·scale. |
| StudyAlpha.AnnualisedScales | studyalpha.go:148 | The identity behind Annualised. |
| StudyAlpha.DaySpec | studyalpha.go:98-152 | The result carries the name and the record count. Fewer than 500 bars give no IC terms and Sharpe 0; otherwise there are the four horizons. |
| StudyAlpha.ScoreHorizons | studyalpha.go:117-132 | The horizon loop builds IcMap, skipping horizons no shorter than the day. |
| StudyAlpha.AnalyzeDay | studyalpha.go:98-152 | analyzeDay computes DaySpec. |
| StudyAlpha.AnnualSharpe | studyalpha.go:144-150 | The Sharpe step computes Sharpe. |
| StudyAlpha.Jobs | studyalpha.go:25-29 | The jobs are the .bin entries, each with its joined path and its name, in listing order. |
| StudyAlpha.Results | studyalpha.go:37-50 | There is one result per job, carrying the job's name. |
| StudyAlpha.NameLeOrder | studyalpha.go:51 | Ordering by name is a total preorder. |
| StudyAlpha.DaysMapNames | studyalpha.go:64-65 | Every result is in the report's Days under its own name, and every entry of Days is one of the results. |
| StudyAlpha.ReportDays | studyalpha.go:64-71 | The loop fills Days and prints one row per result, in name order. |
| StudyAlpha.ByName | studyalpha.go:51 | The sorted results are a permutation of the results, ordered by name. |
| StudyAlpha.RunStudy | studyalpha.go:16-81 | There is one row per .bin file, in name order. The report holds every day under its own name, with the configured symbol, year, month and horizons. |
| StudyAlpha.AnalyzeJobs | studyalpha.go:35-50 | analyzeDay runs on every job. |
| Metrics.FilepathDir | metrics.go:602-614 | With no separator past index 0 the result is ".". Otherwise it is the prefix before the last '/' or '\\', and no separator follows it. |
| Metrics.Pairs | metrics.go:472-475 | Pair i holds value i and index i. |
| Metrics.ValLeOrder | metrics.go:476 | "Not after" for sort.Slice's less function is a total preorder. |
| Metrics.PermPairs | metrics.go:476 | Every element of a permutation of the pairs is the pair of its own index. |
| Metrics.PermDistinct | metrics.go:476 | A permutation of the pairs repeats no index. |
| Metrics.PermCovers | metrics.go:476 | A permutation of the pairs holds every one of them. |
| Metrics.SortedPairs | metrics.go:470-476 | The sorted pairs are a permutation of the pairs, ascending by value, each carrying its own value. |
| Metrics.SortedPairsPerm | metrics.go:476 | The sorted pairs hold each index 0..n-1 exactly once. |
| Metrics.Fill | metrics.go:477-480 | The rank array has n entries. |
| Metrics.RanksOf | metrics.go:470-482 | There is one rank per value. |
| Metrics.FillAt | metrics.go:478-480 | With no index written twice, each pair's index keeps the rank it was given. |
| Metrics.GetRanks | metrics.go:470-482 | getRanks writes rank i+1 at the index of the i-th sorted pair, computing RanksOf. |
| Metrics.RankAtSorted | metrics.go:478-480 | Rank p+1 sits at the index of the p-th smallest pair. |
| Metrics.RankOfIndex | metrics.go:478-480 | Every index j receives rank p+1 from the sorted position p that holds it. |
| Metrics.RanksArePermutation | metrics.go:470-482 | The ranks are a permutation of 1..n: whole numbers in 1..n, pairwise distinct, and a strictly smaller value always has a strictly smaller rank. |
| Metrics.SpearmanCorrelation | metrics.go:461-468 | Empty or mismatched input gives 0; otherwise the result is the Pearson correlation of the two rank vectors. |
| Metrics.BucketSize | metrics.go:485-499 | A positive bucket size means the inputs match, there are at least 2 buckets, sz = n div buckets and the two buckets fit (2·sz ≤ n). |
| Metrics.QuantileBuckets | metrics.go:496-507 | The bottom and top sz sorted positions are disjoint. Every bottom signal is at most every signal outside the bottom bucket, and every top signal at least every signal outside the top bucket. |
| Metrics.SumBucket | metrics.go:502-507 | The loop sums the returns at the sorted positions a..b. |
| Metrics.CalcQuantileSpread | metrics.go:485-509 | The guards give 0. Otherwise the result is the mean return of the top bucket minus that of the bottom bucket. |
| Metrics.HitsAtMostValid | metrics.go:317-323 | A same-sign pair is a directional one, so hits never exceed valid pairs. |
| Metrics.HitRate | metrics.go:307-329 | The rate lies in [0, 1]. It is 0 for empty or mismatched input or when no pair is directional; otherwise rate·valid = hits. |
| Metrics.DirectionalHitRate | metrics.go:307-329 | The counting pass computes HitRate. |
| Metrics.AutoCorrelation | metrics.go:427-433 | lag ≤ 0 or lag ≥ n gives 0. |
| Metrics.AutoCorrelationPairs | metrics.go:432 | Otherwise it is the correlation of x[:n-lag] with x[lag:]. |
| Metrics.WindowFits | metrics.go:362-363 | Window k of width w lies inside a series of n ≥ (k+1)·w values. |
| Metrics.BelowQuotient | metrics.go:362 | A window that fits is one of the n div w windows. |
| Metrics.WindowICs | metrics.go:361-365 | The ICs of the n div w non-overlapping windows [k·w, (k+1)·w), in order. |
| Metrics.TwoWindows | metrics.go:357-366 | n ≥ 2·w gives at least two windows, so the second guard never fires. |
| Metrics.WindowStep | metrics.go:362-365 | One loop step appends the IC of the next window. |
| Metrics.WindowsDone | metrics.go:362 | The loop stops after exactly n div w windows. |
| Metrics.SumSquaredDeviations | metrics.go:370-374 | The deviation loop sums the squared deviations from the mean. |
| Metrics.RollingICStats | metrics.go:355-377 | Mismatched lengths or n < 2·window give (0, 0). Otherwise the result is the mean IC of the n div w windows and their sample deviation. |
| Metrics.BinOf | metrics.go:532-538 | Every bin index is clamped into [0, bins-1]. |
| Metrics.MinMaxBounds | metrics.go:517-525 | The scan finds a least and a greatest element of x. |
| Metrics.Histogram | metrics.go:529 | There are bins counts. |
| Metrics.HistogramCountsAll | metrics.go:529-540 | The counts are non-negative and add up to the number of values. |
| Metrics.BinClamp | metrics.go:532-538 | For a value between the minimum and the maximum, the unclamped index lies in [0, bins]. It reaches bins, so the clamp moves it, exactly when the value is the maximum. |
| Metrics.QuotientBounds | metrics.go:532 | The scaled position t/rng lies in [0, b], below b when t < b·rng. |
| Metrics.MinMax | metrics.go:517-525 | The min/max scan finds MinOf and MaxOf. |
| Metrics.Bin | metrics.go:532-538 | The binning step computes BinOf. |
| Metrics.CountBins | metrics.go:529-540 | The counting loop fills a fresh array with the histogram. |
| Metrics.SumEntropy | metrics.go:541-548 | The entropy loop sums -p·log2 p over the non-zero counts. |
| Metrics.EstimateEntropy | metrics.go:512-550 | EstimateEntropy computes Entropy: 0 for no values, at most one bin or a constant series. |
| MetricsHorizon.SimpleOLS | metrics.go:436-453 | Empty or mismatched input gives (0, 0). |
| MetricsHorizon.FitLine | metrics.go:447-451 | No spread in x gives (0, 0). |
| MetricsHorizon.FitLineNormal | metrics.go:450-451 | The line satisfies the normal equations of least squares: beta·sxx = sxy and alpha + beta·mx = my. |
| MetricsHorizon.OLSIsFit | metrics.go:440-451 | SimpleOLS fits the line from the means and the sums of squared and cross deviations. |
| MetricsHorizon.OLSConstantX | metrics.go:447-449 | A constant x has no spread, so the fit is (0, 0). |
| MetricsHorizon.SqDevConst | metrics.go:445 | A constant series has no squared deviation from itself. |
| MetricsHorizon.SumSqResid | metrics.go:157-159 | The residual sum of squares is non-negative. |
| MetricsHorizon.ResidualsOnLine | metrics.go:157-159 | Points on the line leave no residual. |
| MetricsHorizon.ResidualStep | metrics.go:156-162 | One loop step extends rss and sx by the next point. |
| MetricsHorizon.ResidualSums | metrics.go:154-162 | The loop computes the residual sum of squares about the fit and the squared deviations of sig. |
| MetricsHorizon.SumQuarts | metrics.go:414 | The sum of fourth powers is non-negative. |
| MetricsHorizon.HigherMoments | metrics.go:399-419 | Fewer than three values give (0, 0), and the excess kurtosis is never below -3. |
| MetricsHorizon.AcFloor | metrics.go:341-343 | A non-positive autocorrelation becomes 0.0001, so the log's argument is positive. |
| MetricsHorizon.LogAc | metrics.go:337-345 | There is one log-autocorrelation per lag 1..5. |
| MetricsHorizon.HalfLifeBars | metrics.go:332-352 | The half-life is never negative, and is 0 for fewer than 3 values. |
| MetricsHorizon.PnlStepSane | metrics.go:189-221 | One bar keeps the accumulators sane: counts bounded by the bars seen, a gross win (loss) exactly when a win (loss) was counted, non-negative sums and drawdown, and a peak at or above the running PnL. |
| MetricsHorizon.PnlFoldSane | metrics.go:189-221 | The accumulators after k bars are sane. |
| MetricsHorizon.PnlAdvance | metrics.go:189-221 | One loop step computes the next fold. |
| MetricsHorizon.PnlLoop | metrics.go:188-221 | The loop computes the fold over all bars, and the stream holds sig[i]·ret[i]. |
| MetricsHorizon.FillRate | metrics.go:224 | The fill rate lies in [0, 1], and times n gives the filled count. |
| MetricsHorizon.BreakevenBps | metrics.go:227-229 | With positive turnover, breakeven·turnover = 10000·PnL; otherwise 0. |
| MetricsHorizon.WinRate | metrics.go:232-234 | The win rate lies in [0, 1]: wins over non-zero PnL bars, 0 when there are none. |
| MetricsHorizon.ProfitFactor | metrics.go:235-246 | The profit factor is non-negative: win/loss when there is a loss, 100 with wins only, 0 with neither. |
| MetricsHorizon.AvgWinLoss | metrics.go:237-243 | The average win over the average loss is non-negative, and 0 without both. |
| MetricsHorizon.Sharpe | metrics.go:256-258 | A flat stream gives 0. |
| MetricsHorizon.HacSharpe | metrics.go:271-277 | The Sharpe ratio scaled by sqrt(1 - rho^2) for the lag-1 autocorrelation of the PnL stream. It is 0 when the PnL does not vary. |
| MetricsHorizon.Sortino | metrics.go:259-264 | A flat stream or no downside gives 0. |
| MetricsHorizon.Calmar | metrics.go:267-269 | With a drawdown, calmar·maxDD = total PnL; otherwise 0. |
| MetricsHorizon.ProbSharpe | metrics.go:279-287 | A flat stream gives 0. |
| MetricsHorizon.SwapPerm | metrics.go:391 | A swap only reorders. |
| MetricsHorizon.SwapsPermute | metrics.go:389-392 | The Fisher-Yates steps only reorder: the result is a permutation of the returns. |
| MetricsHorizon.Shuffled | metrics.go:385-392 | The shuffled returns are a permutation of ret. |
| MetricsHorizon.SwapsStep | metrics.go:389-392 | One step of the loop leaves steps i-1..1 to do. |
| MetricsHorizon.SwapAt | metrics.go:391 | One swap in place. |
| MetricsHorizon.ShuffledIC | metrics.go:380-394 | Empty or mismatched input gives 0. Otherwise the result is the correlation of sig with the shuffled returns. |
| MetricsHorizon.ComputeHorizonMetrics | metrics.go:134-304 | Empty or mismatched input, or fewer than 200 bars, gives the zero record. Otherwise every field is stated: the Pearson and rank IC; the OLS fit and its t-statistic from the residual and signal sums; hit rate and decile spread; the fill rate, win rate, profit factor, average win/loss, breakeven, Sharpe, HAC Sharpe, probabilistic Sharpe, Sortino and Calmar of the one PnL fold; the rolling-IC deviation and ICIR (0 below two windows or with no spread); the half-life in bars with 0 ms; and the shuffled IC. |
| Scorecard.AutoCorrelation | scorecard.go:156-162 | lag ≥ n gives 0. A negative lag would slice out of range, so lag ≥ 0 is required. |
| Scorecard.AutoCorrelationVersions | scorecard.go:156-162 | For a positive lag this equals metrics.go's AutoCorrelation. At lag 0 it correlates the series with itself, where metrics.go returns 0. |
| Scorecard.SimpleOLS | scorecard.go:164-178 | Empty input gives (0, 0). |
| Scorecard.SimpleOLSVersions | scorecard.go:164-178 | On matched non-empty input, both versions of SimpleOLS fit the same line. |
| Scorecard.SpearmanCorrelation | scorecard.go:185-203 | The result is the correlation of the two rank vectors from the shared getRanks; empty or mismatched input gives 0. |
| Scorecard.BucketSize | scorecard.go:212 | The bucket size n div buckets is never more than n. |
| Scorecard.DivBounds | scorecard.go:212 | 0 ≤ n div b ≤ n, and a positive quotient means b ≤ n. |
| Scorecard.QuantileSpreadVersions | scorecard.go:205-224 | With more than one bucket and matched lengths, this spread is metrics.go's. With one bucket both sums cover every pair, so the spread is 0. |
| Scorecard.CalcQuantileSpread | scorecard.go:205-224 | The loops compute QuantileSpread; buckets must be positive, since the division is unguarded. |
| Scorecard.Quart | scorecard.go:132 | A fourth power is non-negative. |
| Scorecard.QuartSum | scorecard.go:126-132 | The sum of fourth powers is non-negative. |
| Scorecard.OutlierCount | scorecard.go:133-135 | At most k of the first k values are outliers. |
| Scorecard.FlatScores | scorecard.go:127-135 | Without a positive deviation every standardized value is 0: no skew, no fourth moment and no outliers. |
| Scorecard.QualitySums | scorecard.go:122-141 | The loop computes the cube and fourth-power sums, the outlier count and the turnover. |
| Scorecard.QualityBounds | scorecard.go:111-150 | The outlier share lies in [0, 1], the excess kurtosis is at least -3 and the turnover is non-negative. A flat series has no skew, kurtosis -3 and no outliers. |
| Scorecard.AnalyzeSignalQuality | scorecard.go:111-150 | An empty series gives the zero record; otherwise Quality. |
| Scorecard.Breakeven | scorecard.go:88-90 | With positive turnover, breakeven·turnover = 10000·PnL; otherwise 0. |
| Scorecard.LastPairIgnored | scorecard.go:82-87 | The breakeven sums leave out the last pair: changing the last return changes nothing. |
| Scorecard.BreakevenSums | scorecard.go:80-87 | pnl sums sig·ret over i < n-1, and turnover sums the signal changes over 0 < i < n-1. |
| Scorecard.PnlOf | scorecard.go:95-98 | There is one PnL entry per bar. |
| Scorecard.PnlVector | scorecard.go:95-98 | The loop fills pnl[i] = sig[i]·ret[i]. |
| Scorecard.Score | scorecard.go:42-108 | Fewer than 100 bars give the all-zero Horizon. |
| Scorecard.CalculateAlphaMetrics | scorecard.go:42-108 | CalculateAlphaMetrics computes Score; ret must cover sig once there are 100 bars. |
| Sum.NewAgg | sum.go:83-87 | A variant seen for the first time starts with that name, no days and no dates. |
| Sum.SpanEndIsMax | sum.go:95-97 | The end date is the greatest date fed to it, or "" when there is none. |
| Sum.SpanStartIsMin | sum.go:92-94 | If no date is empty, the start date is the least date fed to it, and it is "" exactly when none was fed. An empty date would reset the start, because the test cannot tell "unset" apart from "set to the empty date". |
| Sum.AddDay | sum.go:89-114 | One accepted day adds one to Days and adds NBars to TotalBars. It adds one positive-IC day exactly when the IC is above 0, and one positive-HAC day exactly when the HAC Sharpe is above 0. It widens the period to cover the date. |
| Sum.FoldOne | sum.go:69-115 | Taken alone, a variant's record has Days equal to the number of its accepted entries and TotalBars equal to the sum of their NBars. Both positive-day counts are at most Days. The period is the span of its dates. |
| Sum.FoldPerVariant | sum.go:69-115 | A variant is in the map exactly when at least one of its entries was accepted, meaning the label has three parts and the target horizon is present. Its record is the one built from its own entries alone. |
| Sum.AggregatesValid | sum.go:69-115 | Every record in the map is filed under its own variant, and has Days of at least 1. Both PosICDays and PosHACDays are at most Days. |
| Sum.AggregateCounts | sum.go:89-90 | Days counts the variant's accepted entries and is at least 1. TotalBars sums their NBars. |
| Sum.AggregateDates | sum.go:92-97 | EndDate is one of the variant's dates and is not below any of them. StartDate is one of them and not above any of them, provided none of them is empty. |
| Sum.Aggregate | sum.go:67-115 | The aggregation loop over the decoded entries builds exactly the map of the per-entry fold. |
| Sum.Collect | sum.go:123-126 | The slice holds every record of the map once, in the map's iteration order. |
| Sum.HacLeIsTotalPreorder | sum.go:128-135 | "Mean HAC Sharpe at least as high" is a total preorder, so it can drive a sort. |
| Sum.GoLessIsHacOrder | sum.go:128-135 | On records with at least one day, the comparison given to sort.Slice means "strictly higher mean HAC Sharpe". |
| Sum.Ranked | sum.go:128-135 | The ranked records are a permutation of the collected ones, in non-increasing order of mean HAC Sharpe. |
| Sum.RowOf | sum.go:148-163 | A row carries the variant, Days, TotalBars and the period. Its mean IC times Days is the IC sum, and its mean HAC is the variant's mean HAC Sharpe. The positive-day percentages are 100 times count over Days, and lie in [0, 100]. |
| Sum.FoldEmpty | sum.go:117-120 | The map is empty exactly when no entry was accepted. |
| Sum.Rows | sum.go:148-181 | There is one row per ranked record, in rank order, and each row is that record's RowOf. |
| Sum.Summarize | sum.go:122-181 | The table has one row per aggregated variant, and each row is that variant's RowOf. The percentages lie in [0, 100], and the rows run in non-increasing mean HAC order. |
| Sum.SummaryFacts | sum.go:122-181 | Ranking the collected map and producing its rows yields such a summary of the entries. |
| Sum.RankedFacts | sum.go:122-135 | The ranking loses and adds no record, and every ranked record has at least one day. |
| Sum.RowsFacts | sum.go:148-181 | Every variant of the map appears in some row and no other variant does. Every row is the RowOf of its variant's record, with percentages in [0, 100]. |
| Sum.RunSum | sum.go:44-185 | If the report cannot be opened, or cannot be decoded, runSum ends with that error. A decoded report with no entries ends with "No OFI metrics found". A report with entries but none usable at the target horizon ends with "No valid OFI metrics". Otherwise it prints a summary of the entries. |
| Oos.ParseDate | OOS.go:90-93 | A "YYYY-MM-DD" string parses only when it has that shape, the month is 1 to 12, and the day lies within that month of that year. |
| Oos.BoundaryParses | OOS.go:50-55 | The OOSStartDate constant parses to 2024-01-01, so the "invalid constant" exit is never taken. |
| Oos.IsOosByYear | OOS.go:105 | A day counts as out of sample, meaning not before the boundary, exactly when its year is 2024 or later. |
| Oos.AddToSide | OOS.go:107-142 | A day added to one side adds one to its days and adds NBars to its bars. It widens that side's period to cover the date. |
| Oos.Step | OOS.go:80-143 | An entry that is not accepted leaves the map as it is. An accepted entry adds its variant if the variant is new, and changes no other variant. It adds exactly one day to that variant: to the out-of-sample side exactly when its date is not before the boundary, and to the in-sample side otherwise. |
| Oos.DatesOn | OOS.go:80-143 | Every date collected for a side parses, and falls on that side of the boundary. |
| Oos.SideFold | OOS.go:107-142 | Taken alone, a side's day count is the number of its entries. With no entries it is the empty side, and otherwise its period is the span of its dates. |
| Oos.FoldPerVariant | OOS.go:80-143 | A variant is in the map exactly when at least one of its entries was aggregated, on either side. Each of its two sides is the one built from that side's entries alone. |
| Oos.AggregateSides | OOS.go:111-116 | Each side's start date is the least of that side's dates and its end date the greatest. A side with no days keeps both empty. |
| Oos.Aggregate | OOS.go:78-144 | The aggregation loop, using the parsed boundary, builds exactly the map of the per-entry fold. |
| Oos.CollectOos | OOS.go:151-158 | Only the records with at least one out-of-sample day are kept, and each of them is kept once. |
| Oos.Mean | OOS.go:198-213 | A side's mean times its day count gives back the sum. A side with no days shows 0. |
| Oos.OosHacLeIsTotalPreorder | OOS.go:164-171 | "Out-of-sample mean HAC at least as high" is a total preorder. |
| Oos.GoLessIsOosHacOrder | OOS.go:164-171 | On records with out-of-sample days, the comparison given to sort.Slice means "strictly higher out-of-sample mean HAC Sharpe". |
| Oos.Ranked | OOS.go:164-171 | The ranked records are a permutation of the kept ones, in non-increasing order of out-of-sample mean HAC. |
| Oos.SafePeriod | OOS.go:246-258 | The result is "" exactly when both ends are empty. With only the start empty it is the end. With only the end empty it is the start. With both set it is start + "→" + end. |
| Oos.PeriodSplits | OOS.go:247-258 | When the start holds no arrow, cutting a two-sided period at its first "→" gives back the start and the end. A one-sided period whose dates hold no arrow contains no "→", so the two forms cannot be confused. |
| Oos.PeriodOfSide | OOS.go:237-238 | A side with no days shows an empty period. A side with days shows "first→last". |
| Oos.RowOf | OOS.go:185-239 | A side with no days shows 0 for every mean. Otherwise each mean times the day count is the sum. The OOS/IS ratio is 0 when the in-sample mean HAC is 0, and otherwise times that mean gives the out-of-sample mean. The two periods are the SafePeriod of each side. |
| Oos.Rows | OOS.go:185-240 | There is one row per ranked record, in rank order, and each row is that record's RowOf. |
| Oos.FoldEmpty | OOS.go:146-149 | The map is empty exactly when no entry was aggregated. |
| Oos.Summarize | OOS.go:164-240 | The table has one row per variant with out-of-sample days, and each row is that variant's RowOf. The rows run in non-increasing out-of-sample mean HAC order. |
| Oos.SummaryFacts | OOS.go:151-240 | Ranking the kept records and producing their rows yields such a summary of the entries. |
| Oos.RankedKeeps | OOS.go:164-171 | Sorting loses and adds no record. |
| Oos.RowsFacts | OOS.go:185-240 | Exactly the variants with out-of-sample days appear in the rows. Every row is the RowOf of its variant's record. |
| Oos.RunOos | OOS.go:49-244 | An open or decode failure ends with that error. A report with no entries ends with "No OFI metrics found", and one with no usable entries with the "no valid" message. If usable entries exist but no variant has an out-of-sample day, it ends with the "no out-of-sample" message. Otherwise it prints the IS/OOS summary of the entries. |
| Context.Lower | go.py:49 | Lowercasing keeps the length of the name. |
| Context.LowerAppend | go.py:49 | Lowercasing distributes over concatenation. |
| Context.RFind | go.py:53-55 | The last index of a character, or -1. A found index holds that character. |
| Context.RFindLast | go.py:53-55 | No position after the found index holds the character. |
| Context.SplitExt | go.py:53-55 | os.path.splitext splits a path into a root and an extension, and the two concatenate back to the path. |
| Context.ExtShape | go.py:53-55 | An extension is either empty, or a '.' followed by characters that are neither '.' nor '/'. |
| Context.ExtEnds | go.py:130 | A path ends with its own extension. |
| Context.ExtOfAppended | go.py:53 | Appending an extension to a path whose last component is not all dots splits back into that path and that extension. |
| Context.Components | go.py:164-168 | The components of a relative path are non-empty, not ".", and free of '/'. |
| Context.ComponentsJoin | go.py:159 | Joining a plain name d onto a directory adds exactly the component d. |
| Context.DateSubdirOfJoin | go.py:35-45 | For a subdirectory d of a walked directory, is_date_subdir holds exactly when d starts with "d=" and the walked directory's name starts with "bars_" or is "btc_parquet_clean". |
| Context.NamesOfJoin | go.py:40-44 | The joined path is root + "/" + d. Its name is d, and its parent's name is the root's name. |
| Context.LanguageStripsGz | go.py:51-55 | A name gets the same language tag with ".gz" appended as without it. This holds when the name does not already end in ".gz" and its last component is not all dots. |
| Context.DotEnvIsNotRelevant | go.py:115-137 | A file called exactly ".env" has no extension under os.path.splitext, so it is not listed. |
| Context.NamedEnvExt | go.py:130 | For a name such as "prod.env", the extension is ".env". |
| Context.RelevantIsSkippedOrRead | go.py:208-230 | In the second pass, a relevant file is either skipped (.csv, .csv.gz, .parquet, .npz) or read in full, so the "not read in full" exit is never taken for a listed path. It gets a block exactly when it is not skipped. |
| Context.DepthIsComponents | go.py:164-168 | The indentation depth of a walked directory is the number of its path components below ".". |
| Context.DepthOfChild | go.py:164-168 | The entries of a subdirectory are indented one level deeper than those of its parent. |
| Context.LeadingSpaces | go.py:178 | The count of leading spaces is at most the line's length. |
| Context.TreeLineRoundTrip | go.py:176-194 | A tree line written for a name without '/' reads back as the depth, the name and whether it is a directory. The line is 4·depth spaces, a pipe sign and "-- ", then the name and a '/' for a directory. |
| Context.Fenced | go.py:242-244 | The text inside the fences is the content followed by a newline only when the content is non-empty and lacks a final one. So it is empty or ends in a newline, and the content is its prefix. |
| Context.BlockFence | go.py:237-247 | A block opens with the file header and the opening fence. The content follows, and the closing fence begins a line of its own. |
| Context.KeptDirs | go.py:159 | The pruning comprehension never lengthens the list. |
| Context.KeptDirsAre | go.py:159 | The kept subdirectories are exactly those that are not .venv, .git or __pycache__, and not a "d=" partition of a bars_* or btc_parquet_clean directory. |
| Context.KeptDirsMembers | go.py:159 | A subdirectory is kept exactly when it is listed and passes the keep test. |
| Context.NameLeOrder | go.py:160-161 | The string order used by dirs.sort() and files.sort() is a total preorder. |
| Context.ShownAreRelevant | go.py:182-196 | The files listed are exactly the relevant files of the step. |
| Context.Joined | go.py:195 | One full path per name. |
| Context.JoinedAt | go.py:195 | The k-th full path is os.path.join of the root and the k-th name. |
| Context.StepPathsAreRelevant | go.py:182-196 | A walk step collects one path per listed file. Each path names a relevant file of that step, and gets a block exactly when it is not skipped. |
| Context.AllPathsAreRelevant | go.py:157-248 | Over the whole walk, every collected path names a relevant file, and gets a content block exactly when its ending is not a skipped one. |
| Context.IsTemp | go.py:187-190 | The temporary-file flag is set exactly when the name ends with one of "~", ".swp" and ".DS_Store". |
| Context.ShowFile | go.py:182-194 | The listing loop's tests (script, output, temporary ending, then is_relevant_file) together list a file exactly when is_relevant_file holds. |
| Context.DirLines | go.py:177-179 | The subdirectory loop writes one line per kept subdirectory, in order. |
| Context.FileLines | go.py:182-196 | The file loop writes one line per relevant file, and collects that file's joined path in the same order. |
| Context.ListStep | go.py:157-196 | One walk step writes its sorted kept subdirectories and then its sorted relevant files, and collects those files' paths. |
| Context.DumpContents | go.py:205-248 | The second pass writes, in order, one block per collected path that is not skipped and is read in full, with that file's content. |
| Context.BuildContext | go.py:141-252 | If the output cannot be created, nothing is written. Otherwise the file holds the tree header, the listing of every walk step, a blank line, and then the blocks of the collected paths. |

## Left out

- Concurrency. The goroutines, channels, WaitGroups and `dirLocks` are not modelled. The model runs every worker pool (`runData`, `runBuild`, `runOFI`, `studySymbol`, `runStudy`, `runStudyAlpha`, `runSanity`, `buildForSymbol`, `buildVariant`) and the per-chunk goroutines of `processBuildDay` sequentially. Results that come back over a channel are taken in job order.
- The network. `download`, the HTTP client set up in `data.go`'s `init`, and its retry loop are not modelled. The bytes of a downloaded archive are an input.
- Foreign libraries. zlib inflation, `archive/zip`, gzip and SHA-256 are function parameters. JSON encoding and decoding are left out: a report is an input value (`Sum.ReportFile`), and `SaveAlphaMetrics` and `SaveReport` are not modelled.
- Printing. `fmt`/`tabwriter` tables, progress lines on stderr, `printHorizonTable`, `printMonotonicityTable` and `printHelp` are not modelled. The model returns the values the tables print.
- Process plumbing. `main.go` (GOMAXPROCS, `getMemUsage` and timing) and `time.Now`/`time.Since` are not modelled.
- The file system. Directory listings (`os.ReadDir`, `os.walk`) and file contents are inputs. `discoverFeatureSymbols` and the year/month directory walk of `discoverTasks` are not modelled. The month-index scan of `discoverTasks` is modelled (`OfiBuild.ScanMonthIndex`), as is the directory filter of `discoverSymbols`.
- `fastLoadBytes` is not modelled. Whole-file reads are the file's bytes as an input.
- Floating point. Float64 values are exact `real`s, so rounding, NaN and infinities are not modelled. `math` functions (`Sqrt`, `Tanh`, `Exp`, `Log`, `Log2`, `Pow`) are function parameters. The float helpers `Mean`, `StdDev` and `Correlation` are modelled once, in `Shared`, over those parameters.
- Float signal formulas. `OnlineZ.Update`, `init`'s `PropResKernel`/`CountPowLook` tables and the five `processKernel` signals are not modelled. In `Build` the signal and price bits of a record are the parameters `sigBits` and `pxBits`.
- `ofi.go` signal numerics. The EMA and decay kinds of `ofiState.Update` are the parameter `ema`. `computeSignalSeries`, `loadDayTicks`, `processOFIDay` and `runOFI` are not modelled. They combine those numerics with file reads and the worker pool, and their index work is modelled by `Ofi.BuildEntryIndex`, `Ofi.BuildHorizonData` and `Ofi.FindBlobOfi`.
- `ofibuild.go` feature numerics. `math.Sqrt`, `math.Tanh` and `math.Log2` are the parameters `sqrt`, `tanh` and `log2`, and `math.Float64bits` is `bits`. `math.Copysign` is modelled on reals, so the sign of a -0.0 sum is not. A quotient whose divisor is 0 is taken as 0 (`Quot`): with exact reals, `x/(scale + 1e-12)` has a zero divisor only when `sqrt` returns -1e-12, and `f3`'s only when ERef is -1e-12, which `TrackersStayNonNegative` rules out.
- `ofibuild.go` capacity bytes. What io.ReadAll's buffer holds past the blob is the input `spare`. Its length (at least 464 bytes past a header-only blob) is all the contracts rely on.
- Trade decoding in `ofibuild.go`. `ParseAggRow`, `TradeSign`, `TradeQty` and `TradePrice` are not part of this model: their source is not available, so they are the parameter `parse`.
- `ofistudy.go` aggregation. `Moments`, `BucketAgg`, `BucketResult`, `ComputeQuantiles` and `FinalizeMetrics` are not part of this model, because their source is not available. So `studySymbol`'s per-key aggregation and its tables are not modelled. The day discovery, the blob lookup, the feature de-interleaving, `AlignVectors` and `CalcMomentsVectors` are modelled.
- `metrics.go` numerics. `ComputeSignalMetrics` (a distribution analysis of one raw signal, with no horizon: its mean, spread, outliers, skew, kurtosis, Hurst exponent and entropy) and `EstimateHurst` are not modelled. `NormalCDF` is modelled through an `erf` parameter. `shuffledIC`'s random draws are the input `draws`.
- `sort.Slice` is unstable, so equal keys may come out in any order. Every sort is modelled as a sorted permutation, and the contracts state only that.
- Map iteration order in `runSum`/`runOOS` is random. `Sum.Collect` and `Oos.CollectOos` state which records the slice holds, not their order, and the ranking depends on that order only among equal keys.
- `get_file_content` in `go.py`. A file's content is an input. The read-error message and the unused bounded-line branch are not modelled.
- `go.py` paths. Lowercasing covers ASCII letters only, and the separator is '/'. `os.path.relpath` is modelled for paths at or below the root only, which are the only paths `os.walk(".")` yields.
- Sanity.CheckRow: the row's compressed buffer is `make([]byte, length)` with the length read from the index. Buffer sizes are unbounded in the model. A corrupt length above Go's allocation limit (2^48 bytes on linux/amd64) makes the program panic, and a smaller huge length can exhaust memory. The model instead counts a ShortRead issue and the scan goes on.
- Sanity.RowFaultOf: the same unbounded buffer. A length Go cannot allocate is a ShortRead fault here, not a crash.
- Sanity.ValidateMonth: inherits CheckRow. A month holding a row whose length Go cannot allocate ends in a verdict in the model, where the program crashes.
- GoIo.FileRead: one Read returns min(len(buf), bytes left). Go's `(*os.File).Read` returns at most 1 GiB (2^30 bytes) per call, and that cap is not modelled.
- Build.ReadComp: the buffer of `length` bytes is not bounded by Go's allocation limit, so a length above 2^48 is read like any other, where `make` panics. Through `GoIo.FileRead`, the single `f.Read` reads the whole range. In the program a compressed blob longer than 1 GiB keeps zeros past its first 2^30 bytes.
- Build.ProcessBuildDay: inherits ReadComp's unbounded buffer and uncapped read (and so does BuildAlpha.ProcessBuildDay).
- OfiBuild.LoadRawBlob: a task length above Go's allocation limit panics in `make` in the program. The model reads it like any other length, so a read past the file gives None.
- OfiStudy.LoadRawDay: the same. An index length Go cannot allocate gives None here, where the program panics.
- Sum.SpanStartIsMin: states the least date only when no date is empty. With an empty date, `StartDate == ""` cannot tell "unset" apart from "set to the empty date", so the start can end above the least date.
- Sum.AggregateDates: the start-date half carries the same non-empty-dates condition as `Sum.SpanStartIsMin`.
- Metrics.RollingICStats: requires window > 0. With window 0 the source loops forever, and with a negative window it slices out of range.
- Scorecard.AutoCorrelation: requires lag ≥ 0, since the source has no guard and slices out of range for a negative lag.
- Scorecard.CalcQuantileSpread: requires buckets > 0, since the source divides by buckets unguarded. When buckets are non-empty it also requires ret to be at least as long as sig, since the source indexes ret by sig's positions.
- Sum.RunSum and Oos.RunOos: TotalBars and the bar sums are unbounded integers, so int64 overflow of those sums is not modelled.

## Findings

| source | as written | input that shows it | evidently intended | confidence | as-written member | corrected member |
|---|---|---|---|---|---|---|
| build.go:189-191 | `uint64(len(body)) != rowCount*RowSize`, where the product wraps modulo 2^64. buildalpha.go:78 has the same check. The operations of the model use it as written (Build.BlobOutcome). | A 48-byte header-only blob whose row count is 2^60: 2^60·48 = 3·2^64 wraps to 0, the check passes, and the first chunk asks the kernel for rows the empty body does not have, so the day panics. With 2^63 rows the check passes too, int(rowCount) is negative, and the day is DONE with an empty feature file. | The body holds exactly rowCount rows, so every other blob is ERR_SIZE and no kernel reads past the body. | not executed | Build.WrappedSizeCrashes | Build.BlobOutcomeExact |
| sanity.go:160-165 | `HeaderSize + int(rowCount)*RowSize` in Go's 64-bit int, compared with the blob length. The row check of the model uses it as written (Sanity.RowFaultOf). | A bare 48-byte header claiming 2^60 rows. 48 + 2^60·48 wraps to 48, so the month is reported clean. | The blob is the header and exactly rowCount rows. | not executed | Sanity.SanitySizeWraps | Sanity.SizeMatchesIsBuildCheck |
| ofi.go:427-431 | With m = n−1 gaps it sets mid = m/2. It averages delta[mid] and delta[mid+1] when m is odd, and otherwise takes delta[mid]. | Two ticks (one gap) index past the end of delta. The gaps [1, 1, 8] give 4.5 where the median is 1. | The median of the sorted gaps: the middle one, or the mean of the two middle ones. | not executed | Ofi.MedianParityInverted | Ofi.MedianDeltaMs |
