# rel2pdf: Entratel receipt to PDF, modelled in Dafny

rel2pdf reads an Entratel receipt file and writes a PDF report of it. Entratel is the Italian revenue agency's telematic filing service.

The receipt file is a sequence of fixed-width lines:

- Every line starts with a 17-byte transmission protocol and a 1-byte record type.
- A type `P` line is the summary of the receipt. It carries a supply code, file names, a reception date and document counts. It also carries a table of up to 20 text rows of 80 bytes each, starting at byte 400.
- A type `R` (accepted) or `Q` (rejected) line describes one document. It carries a protocol progressive, a fiscal code and a denomination. It also carries a table of up to 19 text rows, starting at byte 480.
- A table ends before its first row of kind `F`.

The program builds its PDF in four passes over the records, in input order:

1. Pass 1 opens one page per summary, holding the title, the rows and the date.
2. Pass 2 adds the `P`-kind rows of every detail record marked *prima pagina* to the current page.
3. Pass 3 opens one page per detail record, holding all of its rows.
4. Pass 4 opens, for each summary, a closing page with the summary block. It then adds each following detail record's table row to that page.

A row of kind `T` met in pass 2 or pass 3 aborts the program. The output file is the input path with its extension replaced by `.pdf`.

The Dafny modules follow the program's parts:

- `Fields`: ASCII `strings.TrimSpace`, `strconv.Atoi` with its error discarded, `strconv.Itoa`, and fixed-width decimal digits.
- `Dates`: `time.Parse("20060102")` with its error discarded (an invalid field gives the zero time), and `Format("02/01/2006")`.
- `Paths`: `filepath.Ext` and the output file name.
- `Records`: the record types, the line decoder and classifier, the bounded row table, and the record store. There are pure specification functions, and methods with loops proved equal to them.
- `Layout`: the document is a value. It is a list of pages, each a list of text cells. The module defines the helpers, the four passes, the whole rendering and the program's outcome as functions, and proves what each one produces.
- `Assembler`: the PDF builder as a class `Pdf`. Its `AddPage` and `CellFormat` change its fields in place. The Go helpers and the four pass loops are methods on that builder, each proved to produce exactly what `Layout` specifies. `Convert` is the whole program.

A Go slice past the end of a line panics. Here that is an explicit result: `LineResult.OutOfRange` for one line, and `StoreResult.Panic(i)` naming the first such line. `ParseLine`, `DecodeLine`, `ParseAll` and `ParseLines` have no precondition on line length. Only the field helpers `DecodeSummary` and `DecodeDetail` have one. `ParseLine` calls them after it has checked the length. The `log.Fatal` on a `T` row is the `Fatal` outcome, or the stopped builder (`Exit.Stopped`). It carries the row `log.Fatal` reports: the first `T` row of the first record that stops the run.

## Model

| member | source | states |
|---|---|---|
| Fields.TrimSpace | main.go:100 | strings.TrimSpace on byte text; Fields.TrimSpaceShape and Fields.TrimSpacePadded pin down its result, and Fields.TrimSpaceIdempotent shows trimming twice is trimming once |
| Fields.Itoa | main.go:230 | strconv.Itoa; Fields.AtoiItoa shows Atoi reads its text back to the same value |
| Fields.TrimSpaceShape | main.go:100 | the trimmed field is the part of the slice between a whitespace prefix and a whitespace suffix, and it neither starts nor ends with whitespace |
| Fields.TrimSpacePadded | main.go:104 | whitespace around a core that neither starts nor ends with whitespace trims to exactly that core |
| Fields.TrimSpaceIdempotent | main.go:107 | trimming a trimmed field changes nothing |
| Fields.Atoi | main.go:102-103 | a numeric field decodes to a 64-bit value, and to 0 whenever it is not an optional sign followed by digits |
| Fields.AtoiDecimal | main.go:105-106 | a field of at most 18 decimal digits decodes to its decimal value |
| Fields.AtoiPaddedIsZero | main.go:102 | a numeric field with a whitespace byte anywhere (a space-padded count) decodes to 0, because the error is discarded |
| Fields.AtoiItoa | main.go:230 | Itoa's text decodes back to the same count on the whole 64-bit range |
| Fields.FixedDigitsValue | main.go:282 | a value below 10^w written in w zero-padded digits reads back as that value |
| Fields.DigitsValueFixed | main.go:282 | a digit string is its own value rewritten in as many zero-padded digits |
| Dates.ParseDate | main.go:101 | a reception date that is not a YYYYMMDD calendar date becomes the zero time |
| Dates.FormatDate | main.go:282 | the date line's date is 10 characters with '/' at positions 2 and 5 |
| Dates.FormatParsedDate | main.go:101 | formatting a valid parsed date rearranges the field's own digits into DD/MM/YYYY |
| Dates.FormatRejectedDate | main.go:101 | an invalid date field prints as 01/01/0001 |
| Dates.ParseDateField | main.go:101 | parsing the YYYYMMDD text of a calendar date gives that date back |
| Paths.BaseLengthShape | main.go:58 | the final path element holds no '/' and is preceded by one unless it is the whole path |
| Paths.Ext | main.go:58 | the extension is a suffix of the path |
| Paths.ExtWithinBase | main.go:58 | the extension lies inside the final path element |
| Paths.ExtStartsAtDot | main.go:58 | a non-empty extension starts with '.' and holds no other '.' |
| Paths.ExtEmpty | main.go:58 | the extension is empty if and only if the final element holds no '.' |
| Paths.PdfFileName | main.go:58 | the path without filepath.Ext's suffix, followed by ".pdf"; Paths.PdfFileNameShape and Paths.PdfFileNameExt state its shape |
| Paths.PdfFileNameShape | main.go:58 | the output name is the input without its extension followed by ".pdf"; a path with no extension just gains ".pdf" |
| Paths.PdfFileNameExt | main.go:58 | the output name's own extension is ".pdf" |
| Records.TableFrom | main.go:109-119 | the row loop from row i on, with its bound, its 'F' break and its slice panic; Records.TableFromRows, Records.TableFromOutOfRange and Records.TableFromSkip state what it yields |
| Records.TextTable | main.go:109-143 | the whole row table of a record; Records.TextTableShape characterises it without recursion, and Records.ReadTextTable computes it with the loop |
| Records.DecodeSummary | main.go:98-107 | the fields of a P line; Records.SummaryFieldPositions states their offsets, widths and trimming |
| Records.DecodeDetail | main.go:124-140 | the fields of an R or Q line and the PrimaPagina flag; Records.DetailFieldPositions states them |
| Records.ParseLine | main.go:92-146 | one iteration of the scanner loop; Records.ParseLineClassifies, Records.SummaryFieldPositions, Records.DetailFieldPositions and Records.ParsedTableBounded state what it yields, and Records.DecodeLine computes it |
| Records.ParseAll | main.go:88-147 | the record store after the scanner loop; Records.ParseAllOrder, Records.ParseAllPanic and Records.ParseAllAppend state what it holds, and Records.ParseLines computes it |
| Records.RowSeqAt | main.go:110-113 | row k of a table is read at offset base + 80·k, with the kind at that byte and the trimmed text of the next 78 bytes |
| Records.TableFromRows | main.go:109-119 | a table read from row i holds rows in offset order, none of kind 'F', no more than the bound allows, and it stops at the bound or at an 'F' row |
| Records.TableFromOutOfRange | main.go:109-119 | a table read panics exactly at the first row that runs past the line, with every earlier row present and not 'F' |
| Records.TextTableShape | main.go:109-119 | the kept rows are exactly the leading rows before the first 'F' row, at most the bound, each of them inside the line; a panic names the first row past the end of the line |
| Records.TableFromSkip | main.go:109-119 | reading n rows that are present, then reading on, is the same as the whole read |
| Records.TerminatorAt | main.go:115-117 | an 'F' row at index n within the bound ends the table with exactly the n rows before it |
| Records.TableIgnoresRest | main.go:129-143 | bytes after the terminating 'F' row are never read: two lines that agree up to it have the same table |
| Records.ParseLineClassifies | main.go:96-146 | a line is skipped if and only if its type byte is not P, R or Q; a P line gives a summary and an R or Q line a detail record, both carrying the line's header |
| Records.SummaryFieldPositions | main.go:92-107 | a summary's fields are the slices at 27×5 (untrimmed), 38×8, 46×8 (date), 54×6 and 60×6 (Atoi), 68×47, 115×6, 121×6 and 250×150; its table is based at 400 with at most 20 rows |
| Records.DetailFieldPositions | main.go:124-143 | a detail's fields are 18×9 (untrimmed), 38×16 and 54×60 (trimmed); its table is based at 480 with at most 19 rows; prima pagina holds if and only if a kept row has kind 'P' |
| Records.ParsedTableBounded | main.go:109-143 | a parsed record keeps at most 20 (P) or 19 (R/Q) rows, none of kind 'F' |
| Records.ParseAllAppend | main.go:89-147 | parsing two blocks of lines is parsing each, with the second block's panic line shifted by the first block's length |
| Records.SkippedLineInvisible | main.go:96-146 | a line of any other type adds nothing and leaves the records of the other lines unchanged |
| Records.ParseAllOrder | main.go:121 | without a panic, the store holds exactly one record per line of type P, R or Q, in line order, each that line's decoding |
| Records.ParseAllPanic | main.go:92-145 | the program panics if and only if some line runs short of a slice, and the panic is at the first such line |
| Records.ReadTextTable | main.go:109-143 | the bounded loop with its 'F' break returns the specified table, and its prima pagina flag is set exactly when a kept row has kind 'P' |
| Records.DecodeLine | main.go:92-146 | decoding one line gives what the line decoder specifies |
| Records.ParseLines | main.go:88-147 | the scanner loop appends records to give exactly the specified store |
| Layout.StartDocumentCells | main.go:276-282 | the cells of an opening page: title, row texts and the "Li, " date line; Layout.Pass1Spec and Layout.RenderOpeningPage place them |
| Layout.SummaryCells | main.go:215-240 | the cells of a closing summary block, in emission order, with the caption from Layout.DocTypeCaption; Layout.Pass4SummaryGroup and Layout.RenderClosingPage place them |
| Layout.DetailCells | main.go:204-207 | one table row: the Layout.Esito label and three fields; Layout.Pass4OnDetails places them |
| Layout.StartDocument | main.go:270-285 | a new page holding the opening cells; Layout.Pass1Spec states pass 1's result from it, and Assembler.StartDocument computes it |
| Layout.FirstPageRows | main.go:246-254 | the row loop of addInFirstPage; Layout.FirstPageRowsSpec states what it yields |
| Layout.AddInFirstPage | main.go:243-255 | addInFirstPage on the current page; Layout.FirstPageRowsSpec states what it yields, and Assembler.AddInFirstPage computes it |
| Layout.PageRows | main.go:261-267 | the row loop of addPage; Layout.PageRowsSpec states what it yields |
| Layout.AddPage | main.go:257-268 | a new page and then the row loop; Layout.PageRowsSpec states what it yields, and Assembler.AddPage computes it |
| Layout.AddLastPage | main.go:210-241 | a new page holding the closing block; Layout.Pass4SummaryGroup and Layout.RenderClosingPage state where it lands, and Assembler.AddLastPage computes it |
| Layout.AddInLastPageDetails | main.go:193-208 | one table row on the current page; Layout.Pass4OnDetails states what a run of them adds, and Assembler.AddInLastPageDetails computes it |
| Layout.Pass1 | main.go:153-157 | the first loop; Layout.Pass1Spec gives it in closed form |
| Layout.Pass2 | main.go:159-170 | the second loop; Layout.Pass2Spec gives it in closed form |
| Layout.Pass3 | main.go:172-176 | the third loop; Layout.Pass3Spec gives it in closed form |
| Layout.Step4 | main.go:179-184 | one record of the fourth loop: addLastPage for a summary, addInLastPageDetails for a detail |
| Layout.Pass4 | main.go:178-185 | the fourth loop; Layout.Pass4PageCount, Layout.Pass4Keeps, Layout.Pass4ClosingPages, Layout.Pass4OnDetails and Layout.Pass4SummaryGroup state what it adds |
| Layout.Render | main.go:153-185 | the four loops; Layout.RenderFatal, Layout.RenderDone, Layout.RenderPageCount and the page lemmas below state its result |
| Layout.Run | main.go:58-190 | the whole program; Layout.RunOutcome states its three outcomes, and Assembler.Convert computes it |
| Layout.FirstIndexOf | main.go:246-249 | the index of a row of the given kind with no earlier row of that kind: where a range loop first meets it |
| Layout.FirstForbiddenRow | main.go:247-249 | the row `log.Fatal(t)` reports for a record: its first 'T' row |
| Layout.RefusedRow | main.go:172-176 | the row pass 3 stops at: the first 'T' row of the first detail holding one; Layout.Pass3Spec proves it |
| Layout.FirstPageRefusedRow | main.go:159-170 | the row pass 2 stops at: the first 'T' row of the first prima pagina detail holding one; Layout.Pass2Spec proves it |
| Layout.TextsAppend | main.go:278-280 | the texts of concatenated rows are the concatenated texts |
| Layout.TextsAt | main.go:266 | the k-th text cell is the k-th row's text |
| Layout.Esito | main.go:197-202 | the outcome label is "acquisito" if and only if the type is R, and "scartato" if and only if it is not |
| Layout.DocTypeCaption | main.go:225-227 | the document-type caption "Esito versamento F24" is emitted if and only if the supply code is "I24A0" |
| Layout.FirstPageRowsSpec | main.go:243-255 | addInFirstPage aborts if and only if the record has a 'T' row, and it aborts on the first one; otherwise it adds exactly the 'P'-kind rows' texts, in order, to the current page |
| Layout.PageRowsSpec | main.go:257-268 | addPage aborts if and only if the record has a 'T' row, and it aborts on the first one; otherwise it adds every row's text, in order |
| Layout.Pass1Spec | main.go:153-157 | pass 1 opens one page per summary, in record order, each holding the title, the row texts and the date line, and changes nothing else |
| Layout.Pass2Spec | main.go:159-170 | pass 2 opens no page; it aborts if and only if a prima pagina detail holds a 'T' row, and it aborts on the first 'T' row of the first such detail; otherwise it adds the 'P'-row texts of the prima pagina details, in order, to the current page |
| Layout.Pass3Spec | main.go:172-176 | pass 3 aborts if and only if some detail holds a 'T' row, and it aborts on the first 'T' row of the first such detail; otherwise it opens one page per detail, in order, holding its row texts |
| Layout.Pass4PageCount | main.go:178-185 | pass 4 opens exactly one page per summary |
| Layout.Pass4Keeps | main.go:178-185 | pass 4 only appends: every earlier page and cell is kept |
| Layout.Pass4ClosingPages | main.go:178-185 | the pages pass 4 opens begin, in summary order, with each summary's block |
| Layout.Pass4Append | main.go:178-185 | pass 4 over two record lists is pass 4 over the first, then the second |
| Layout.Pass4OnDetails | main.go:182-184 | detail records alone add their table rows, in order, to the current page |
| Layout.Pass4SummaryGroup | main.go:178-185 | the page a summary opens holds its block and then the rows of the detail records that follow it up to the next summary, so the rows interleave in record order |
| Layout.RenderFatal | main.go:153-185 | the four passes abort if and only if some detail holds a 'T' row (pass 3 reads every detail). The reported row is pass 2's, the first 'T' row of the first prima pagina detail holding one, if there is such a detail; otherwise it is pass 3's, the first 'T' row of the first detail holding one |
| Layout.RenderStages | main.go:153-185 | the rendering is pass 1, then pass 2, then pass 3, then pass 4, each on the previous result |
| Layout.RenderDone | main.go:153-185 | the rendering completes if and only if no detail holds a 'T' row |
| Layout.RenderPageCount | main.go:153-185 | a completed rendering adds 2·#P + #R/Q pages |
| Layout.RenderKeepsDocument | main.go:153-185 | a completed rendering keeps everything already in the document |
| Layout.RenderOpeningPages | main.go:153-157 | the first new pages begin with the summaries' opening pages, in order |
| Layout.RenderDetailPages | main.go:172-176 | after them, the pages begin with the details' pages, in order |
| Layout.RenderClosingPages | main.go:178-185 | the last pages begin with the summaries' closing blocks, in order |
| Layout.RenderOpeningPage | main.go:270-285 | in a completed rendering, the k-th new page begins with the k-th summary's title, row texts and date line |
| Layout.RenderDetailPage | main.go:257-268 | the k-th detail record's page, which follows the opening pages, begins with the texts of all its rows |
| Layout.RenderClosingPage | main.go:210-241 | the k-th of the last #P pages begins with the k-th summary's closing block |
| Layout.Pass4EndsWithClosing | main.go:178-185 | after pass 4 on any document, its last #P pages begin with the closing blocks |
| Layout.OneSummaryTwoDetails | main.go:153-285 | one summary and two detail records without 'T' rows render to exactly four pages: the opening page with the prima pagina rows, the two detail pages, and the closing page with both table rows |
| Layout.RunOutcome | main.go:58-190 | the program panics if and only if the parse panics, at the same line; it aborts if and only if a parsed detail holds a 'T' row, and reports the same row as the rendering; otherwise it writes the rendered document to the derived ".pdf" name |
| Assembler.Pdf.constructor | main.go:68 | a new builder holds no page and no cell |
| Assembler.Pdf.AddPage | main.go:212 | AddPage appends an empty page and changes nothing else |
| Assembler.Pdf.CellFormat | main.go:204 | CellFormat appends one text cell to the current page and changes nothing else |
| Assembler.StartDocument | main.go:270-285 | startDocument opens a page holding the title, the row texts and the date line |
| Assembler.AddInFirstPage | main.go:243-255 | addInFirstPage's row loop stops at a 'T' row and emits the 'P'-row texts, as specified |
| Assembler.AddPage | main.go:257-268 | addPage opens a page and its row loop stops at a 'T' row or emits every row text, as specified |
| Assembler.AddLastPage | main.go:210-241 | addLastPage opens a page with the summary block, the optional caption, both counts and the table header |
| Assembler.AddInLastPageDetails | main.go:193-208 | addInLastPageDetails adds the outcome label and three fields to the current page |
| Assembler.StartDocuments | main.go:153-157 | the pass 1 loop builds exactly pass 1 |
| Assembler.FillFirstPages | main.go:159-170 | the pass 2 loop builds exactly pass 2, stopping where it aborts |
| Assembler.AddDetailPages | main.go:172-176 | the pass 3 loop builds exactly pass 3, stopping where it aborts |
| Assembler.CloseDocuments | main.go:178-185 | the pass 4 loop builds exactly pass 4 |
| Assembler.Assemble | main.go:153-185 | the four loops in sequence build exactly the rendering |
| Assembler.Convert | main.go:54-191 | the whole program gives exactly the specified outcome: a parse panic, an abort on a 'T' row, or the document and its file name |

## Left out

- gofpdf geometry and styling are not modelled: fonts, cell widths and heights, alignment, `Ln`, `SetY`, `MultiCell` and the logo image (main.go:68-86, and the `SetFont` and `Ln` calls in the helpers). They are foreign library calls. The builder records only "new page" and "text cell".
- Page headers and footers with the page number, the logo and the fixed caption are not modelled. They are gofpdf callbacks.
- gofpdf's automatic page breaks are not modelled. A page in the model is a logical page: it holds everything between two `AddPage` calls.
- gofpdf's handling of cells emitted before any page exists is not modelled. The model keeps such cells apart, in `Document.loose`.
- File I/O is not modelled: `os.Args`, `os.Open`, `bufio.Scanner` line splitting and its token-size limit and error (main.go:56-64, 88-90, 149-151). The input is a given sequence of lines.
- `OutputFileAndClose` and its `log.Fatal` are not modelled (main.go:187-190). The program's result is the value `RunResult.Written(fileName, doc)`.
- The debug `fmt.Printf` at main.go:120 is left out, because it is output only.
- The program's exit through `log.Fatal` is modelled as an outcome value carrying the row. The message printed and the process exit are not modelled.
- `ProgressivoRicevuta` and `SaltoPagina` (main.go:47, 50) are not modelled, because they are never set or read. `Versione` and `TotaleRecordRicevuta` are decoded but never used.
- Fields.Atoi: on a field of 18 bytes or fewer it matches `strconv.Atoi` exactly. On a well-formed decimal of any length it gives, like Go, the value clamped to the 64-bit range. Go's `ParseUint` returns as soon as its digits overflow 2^64 − 1, without reading the bytes after them. So when the digits before the first junk byte already exceed 2^64 − 1 (20 digits or more), Go returns the 64-bit bound (with a range error that main.go discards), and the model returns 0. Every numeric field main.go decodes is 6 bytes, so the program is not affected.
- Paths.Ext treats only '/' as a path separator, as `filepath.Ext` does on Unix. On Windows `filepath.Ext` also stops at '\\'. The model does not.
- Fields.TrimSpace removes only the six ASCII whitespace bytes. Go's `strings.TrimSpace` also removes Unicode spaces in UTF-8 text, and the model has no UTF-8 decoding: one `char` stands for one byte.
- Dates.ParseDate checks an 8-digit YYYYMMDD field with a month of 1 to 12 and a day within the month, using the Gregorian leap rule. Time zones and Go's other `time.Parse` behaviour are not modelled.
- The row text is the 78 bytes `line[offset+1 : offset+79]`, as the code slices it, although an 80-byte row has 79 bytes after its kind byte. The model follows the code.
- Layout.RenderPageCount, Layout.RenderKeepsDocument, Layout.RenderOpeningPages, Layout.RenderDetailPages, Layout.RenderClosingPages and the three single-page lemmas Layout.RenderOpeningPage, Layout.RenderDetailPage and Layout.RenderClosingPage are stated for a rendering that completes (`Render(d, recs) == Done(out)`). Layout.RenderDone states exactly when that happens.
