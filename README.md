# ScriptPrepdocs core, modelled in Dafny

ScriptPrepdocs prepares documents for a retrieval-augmented chat application.
It sends each PDF to a layout-analysis service, turns every page into text
with its tables rendered as HTML, cuts the pages into sections and uploads one
search document per section to a search index. Each document may carry an
embedding vector computed by an OpenAI embeddings deployment. This project
models the core of that pipeline and proves what it promises:

- `pdf_parser.dfy` models the page loop of `DocumentAnalysisPdfParser`. It
  keeps the tables that lie on the page, marks which table owns each character
  position (the last table whose span covers it wins), and merges the page's
  free characters with each owning table's HTML, emitted once at its first
  position. Pages are numbered from 1, and each page's offset is the total
  length of the texts before it.
- `table_html.dfy` models `TableToHtml`. Cells are grouped by row in
  first-appearance order and stably sorted by column. Each cell becomes a
  `th` or `td` element with colspan and rowspan attributes where these are
  greater than 1.
- `embeddings.dfy` models `OpenAIEmbeddings.CreateEmbeddings`. Texts go out in
  batches of 16. A batch whose request fails is sent again up to 15 times. The
  first batch that still fails ends the call, and the items of the successful
  replies are concatenated in order.
- `search_manager.dfy` models `SearchManager.UpdateContent`. Sections go out
  in batches of 1000. Each batch becomes a list of documents, is given its
  vectors when an embeddings client is configured, and is uploaded. The first
  failure ends the call, and earlier uploads stay.
- `files.dfy`, `blob_manager.dfy` and `paths.dfy` model the string helpers
  that name things: the document-id prefix of a file (`FilenameToId`), the
  source page of a section, the blob name of a file, and the two
  `System.IO.Path` functions they rely on.
- `batching.dfy` holds the batching loop shared by `UpdateContent` and
  `CreateEmbeddings`. `text.dfy` holds decimal formatting and sequence
  helpers. `wrappers.dfy` holds `Option` and `Result`.

The services the core calls are modelled by their answers. The layout
service is represented by its result value. The embeddings service is a client
object whose reply to its n-th request is a fixed function of n and the texts;
every behaviour over time (rate limits that clear, outages) is some such
function. The search service is a client object that decides whether it takes
an upload from the documents and the number of uploads it has taken so far. Each client logs what it was sent,
so the methods are proved against specification functions over those logs.

## Model

| member | source | states |
|---|---|---|
| PdfParser.Filter | ScriptPrepdocs/DocumentAnalysisPdfParser.cs:48-49 | every kept table lies on the page, and no more tables are kept than given |
| PdfParser.TablesOnPage | ScriptPrepdocs/DocumentAnalysisPdfParser.cs:48-49 | a table is kept exactly when it is in the result and one of its bounding regions names page i + 1; none are kept when the result has no table list |
| PdfParser.FilterMembers | ScriptPrepdocs/DocumentAnalysisPdfParser.cs:48-49 | the filter keeps a table exactly when it lies on the page |
| PdfParser.FilterKeepsOrder | ScriptPrepdocs/DocumentAnalysisPdfParser.cs:48-49 | any two kept tables appear in the input in the same order |
| PdfParser.FilterAllOnPage | ScriptPrepdocs/DocumentAnalysisPdfParser.cs:48-49 | when every table lies on the page, the filter returns the list unchanged |
| PdfParser.FilterCounts | ScriptPrepdocs/DocumentAnalysisPdfParser.cs:48-49 | a table on the page is kept as many times as it occurs in the input, and a table elsewhere not at all |
| PdfParser.Owner | ScriptPrepdocs/DocumentAnalysisPdfParser.cs:56-69 | a position's owner is -1 exactly when no table's spans cover it; otherwise it is the last table that covers it |
| PdfParser.MarkOwners | ScriptPrepdocs/DocumentAnalysisPdfParser.cs:51-69 | returns a fresh array of the page's length holding each position's owner, with out-of-page span positions skipped |
| PdfParser.CoveredBySnoc | ScriptPrepdocs/DocumentAnalysisPdfParser.cs:58-68 | after one more span, a position is covered exactly when the earlier spans or the new span cover it |
| PdfParser.PageTextOf | ScriptPrepdocs/DocumentAnalysisPdfParser.cs:51-84 | a page fails exactly when it has no first span, when its length is negative, or when a free position falls outside the document text |
| PdfParser.PiecesTables | ScriptPrepdocs/DocumentAnalysisPdfParser.cs:79-83 | the merge emits a table exactly when that table owns some position |
| PdfParser.PiecesRaw | ScriptPrepdocs/DocumentAnalysisPdfParser.cs:75-78 | the merge emits position p's character exactly when no table owns p |
| PdfParser.PiecesInPageOrder | ScriptPrepdocs/DocumentAnalysisPdfParser.cs:73-84 | pieces come out in increasing page position; a table sits at its first position |
| PdfParser.FirstIndex | ScriptPrepdocs/DocumentAnalysisPdfParser.cs:79-83 | a table's place in the merge is its first position: that position holds it and no earlier one does |
| PdfParser.PageWithoutTables | ScriptPrepdocs/DocumentAnalysisPdfParser.cs:71-84 | a page that no table touches merges to exactly its slice of the document text |
| PdfParser.PageOfOneTable | ScriptPrepdocs/DocumentAnalysisPdfParser.cs:79-83 | a page that one table covers entirely merges to that table's HTML, once |
| PdfParser.MergedLength | ScriptPrepdocs/DocumentAnalysisPdfParser.cs:71-84 | the merged length is the number of free positions plus the HTML lengths of the tables that own at least one position |
| PdfParser.RawInRangeIff | ScriptPrepdocs/DocumentAnalysisPdfParser.cs:75-78 | the loop's running range check over the first k positions agrees with "no free position among them lies outside the text" |
| PdfParser.MergePage | ScriptPrepdocs/DocumentAnalysisPdfParser.cs:71-84 | fails with ContentOutOfRange exactly when a free position lies outside the text; otherwise returns the rendering of the pieces in page order |
| PdfParser.WalkPosition | ScriptPrepdocs/DocumentAnalysisPdfParser.cs:73-84 | one position extends the page text by its piece and keeps the added-tables set equal to the tables seen so far |
| PdfParser.ParsePage | ScriptPrepdocs/DocumentAnalysisPdfParser.cs:46-84 | the loop body for one page returns that page's specified text, or the error (as stated for PageTextOf) that stops the loop |
| PdfParser.DeliverNext | ScriptPrepdocs/DocumentAnalysisPdfParser.cs:86-87 | yielding a page numbers it one past the pages before it and moves the offset on by its text's length |
| PdfParser.ParseAsync | ScriptPrepdocs/DocumentAnalysisPdfParser.cs:19-102 | page i is numbered i + 1 and carries that page's merged text; the first offset is 0 and each next offset adds the previous text's length; on an error, the pages before the failing one have been yielded |
| PdfParser.PageTextWithoutTables | ScriptPrepdocs/DocumentAnalysisPdfParser.cs:46-86 | a page with no tables on it yields exactly its span of the document text |
| TableHtml.GroupsAreRows | ScriptPrepdocs/DocumentAnalysisPdfParser.cs:107 | each group holds exactly the cells of one row, in input order |
| TableHtml.GroupsPermutation | ScriptPrepdocs/DocumentAnalysisPdfParser.cs:107 | the groups together are a permutation of the cells |
| TableHtml.GroupsInFirstAppearanceOrder | ScriptPrepdocs/DocumentAnalysisPdfParser.cs:107 | groups come in the order their rows first appear among the cells |
| TableHtml.GroupsDistinct | ScriptPrepdocs/DocumentAnalysisPdfParser.cs:107 | no two groups share a row |
| TableHtml.SplitRow | ScriptPrepdocs/DocumentAnalysisPdfParser.cs:107 | one row's cells and the other cells together are a permutation of the cells |
| TableHtml.InsertByColumn | ScriptPrepdocs/DocumentAnalysisPdfParser.cs:108 | inserting a cell adds exactly that cell |
| TableHtml.InsertSorted | ScriptPrepdocs/DocumentAnalysisPdfParser.cs:108 | inserting into a column-sorted row keeps it sorted |
| TableHtml.SortByColumn | ScriptPrepdocs/DocumentAnalysisPdfParser.cs:108 | the ordered row is a permutation of the row |
| TableHtml.SortByColumnSorted | ScriptPrepdocs/DocumentAnalysisPdfParser.cs:108 | the ordered row is sorted by column |
| TableHtml.SortByColumnStable | ScriptPrepdocs/DocumentAnalysisPdfParser.cs:108 | within each column, cells keep their input order (the ordering is stable) |
| TableHtml.InsertKeepsColumnOrder | ScriptPrepdocs/DocumentAnalysisPdfParser.cs:108 | inserting a cell puts it after every cell of its own column |
| TableHtml.RowsArePermutation | ScriptPrepdocs/DocumentAnalysisPdfParser.cs:107-109 | the emitted rows hold every cell exactly once, each row sorted by column |
| TableHtml.CellTag | ScriptPrepdocs/DocumentAnalysisPdfParser.cs:116 | "th" exactly for column and row headers, "td" otherwise |
| TableHtml.CellSpans | ScriptPrepdocs/DocumentAnalysisPdfParser.cs:117-125 | empty exactly when neither span exceeds 1; when the column span is above 1 the attributes start with " colspan=" and that number; when the row span is above 1 they end with " rowspan=" and that number |
| TableHtml.TableToHtml | ScriptPrepdocs/DocumentAnalysisPdfParser.cs:104-135 | the HTML is the table element wrapping the rows' HTML in order |
| TableHtml.RowToHtml | ScriptPrepdocs/DocumentAnalysisPdfParser.cs:111-130 | a row's HTML is the tr element wrapping its cells' HTML in order |
| Batching.Chunks | ScriptPrepdocs/SearchManager.cs:147-151 | every batch is non-empty and at most the batch size, and all but the last are full |
| Batching.ChunksFlatten | ScriptPrepdocs/SearchManager.cs:147-151 | concatenating the batches gives back the input |
| Batching.ChunkCount | ScriptPrepdocs/OpenAIEmbeddings.cs:20-24 | there are no batches exactly for empty input, and the batch count c satisfies (c - 1) * size < n <= c * size, that is c = ceil(n / size) |
| Batching.ChunkElement | ScriptPrepdocs/SearchManager.cs:147-151 | element i of batch j is input element j * size + i |
| Batching.ChunkOf | ScriptPrepdocs/SearchManager.cs:147-151 | input element k is element k % size of batch k / size |
| Batching.SplitIntoBatches | ScriptPrepdocs/SearchManager.cs:146-151 | the loop builds exactly the batches above (the same loop is at OpenAIEmbeddings.cs:19-24) |
| Embeddings.Tried | ScriptPrepdocs/OpenAIEmbeddings.cs:33-47 | one batch takes between 1 and retries + 1 requests |
| Embeddings.TriedSpec | ScriptPrepdocs/OpenAIEmbeddings.cs:33-47 | every request but the last failed with a request failure; the batch yields the last reply's items exactly when that reply has them; another exception fails it at once; the retries run out exactly when all retries + 1 requests failed |
| Embeddings.TriedFromReplies | ScriptPrepdocs/OpenAIEmbeddings.cs:33-47 | given the replies, the attempts are determined: the request failures, then the first other reply or the last failure |
| Embeddings.OpenAIEmbeddings.SendWithRetry | ScriptPrepdocs/OpenAIEmbeddings.cs:33-47 | sends the batch once per attempt and returns that batch's outcome |
| Embeddings.OpenAIEmbeddings.EmbedBatches | ScriptPrepdocs/OpenAIEmbeddings.cs:29-52 | the requests and the result are those of the run over the batches |
| Embeddings.OpenAIEmbeddings.CreateEmbeddings | ScriptPrepdocs/OpenAIEmbeddings.cs:17-57 | the requests and the result are those of the run over the 16-text batches of the inputs |
| Embeddings.EmbedSendsBatches | ScriptPrepdocs/OpenAIEmbeddings.cs:31-47 | every request carries one of the batches |
| Embeddings.EmbedRequestsAtMost | ScriptPrepdocs/OpenAIEmbeddings.cs:31-47 | a run makes at most (retries + 1) requests per batch |
| Embeddings.EmbedRequestsAtLeast | ScriptPrepdocs/OpenAIEmbeddings.cs:31-47 | a run that succeeds makes at least one request per batch |
| Embeddings.RequestsOfInputs | ScriptPrepdocs/OpenAIEmbeddings.cs:17-57 | every request carries between 1 and 16 texts, and empty input makes no request and returns no items |
| Embeddings.EmbedFailureIsLast | ScriptPrepdocs/OpenAIEmbeddings.cs:31-47 | a failed run ends with a request that brought no embeddings |
| Embeddings.EmbedAppend | ScriptPrepdocs/OpenAIEmbeddings.cs:29-52 | the run over two lists of batches is the run over the first, then, unless it failed, the run over the second from the next request number, with requests and items appended in order |
| Embeddings.EmbedStopsAtFailedBatch | ScriptPrepdocs/OpenAIEmbeddings.cs:31-47 | when batch k is the first that fails, the run is the run over batches 0..k: nothing of a later batch is sent, and the last request carries batch k |
| Embeddings.FailedBatchSentLast | ScriptPrepdocs/OpenAIEmbeddings.cs:33-47 | the run up to a failing batch k ends with a request carrying batch k |
| Embeddings.EmbedWhenEveryRequestAnswered | ScriptPrepdocs/OpenAIEmbeddings.cs:31-56 | when every request is answered, each batch is sent once and the items are the answers concatenated in batch order |
| Embeddings.AnswersLength | ScriptPrepdocs/OpenAIEmbeddings.cs:42 | when each answer has one item per text, the answers hold as many items as there are texts |
| Embeddings.OneItemPerText | ScriptPrepdocs/OpenAIEmbeddings.cs:17-57 | with such answers the call succeeds with one item per input text |
| SearchManager.SearchClient.UploadDocuments | ScriptPrepdocs/SearchManager.cs:177 | an upload the service takes is appended to its log; one it rejects throws UploadFailed and changes nothing |
| SearchManager.NewDocument | ScriptPrepdocs/SearchManager.cs:158-166 | a section's document carries the id for its position, the page text, the category, the source page of its page number, the file name, and an empty vector |
| SearchManager.DocumentId | ScriptPrepdocs/SearchManager.cs:160 | the id is the file's id prefix, then "-page-", then decimal digits that read back as the position |
| SearchManager.BatchDocuments | ScriptPrepdocs/SearchManager.cs:158-166 | one document per section of the batch, numbered by the section's position in the input |
| SearchManager.Texts | ScriptPrepdocs/SearchManager.cs:170 | the batch's page texts, one per section, in order |
| SearchManager.AttachedSpec | ScriptPrepdocs/SearchManager.cs:171-174 | attaching fails exactly when there are fewer items than documents; otherwise document i keeps every other field and takes item i's vector |
| SearchManager.AttachEmbeddings | ScriptPrepdocs/SearchManager.cs:171-174 | the loop gives exactly that result |
| SearchManager.BatchStepSpec | ScriptPrepdocs/SearchManager.cs:158-175 | a batch sends its texts exactly when a client is configured; it fails exactly when the client throws (with that error) or answers short (MissingEmbedding) |
| SearchManager.BatchStepUpload | ScriptPrepdocs/SearchManager.cs:158-175 | a batch that is prepared gives one document per section, each that section's document with its vector |
| SearchManager.UploadWithoutProvider | ScriptPrepdocs/SearchManager.cs:158-168 | without a client, the batch's documents go out as built, with empty vectors |
| SearchManager.UploadWithProvider | ScriptPrepdocs/SearchManager.cs:168-175 | with a client whose answer covers the batch, document i takes item i's vector |
| SearchManager.SearchManager.PrepareBatch | ScriptPrepdocs/SearchManager.cs:156-175 | one batch's documents, or its error, and the embeddings call it made |
| SearchManager.SearchManager.UploadBatch | ScriptPrepdocs/SearchManager.cs:154-180 | one turn of the loop: the batch is prepared and uploaded; a preparation or upload failure ends the call with that error and nothing uploaded for this batch |
| SearchManager.SearchManager.UpdateContent | ScriptPrepdocs/SearchManager.cs:144-182 | the uploads, the embeddings calls and the way the call ends are those of the specification over the 1000-section batches |
| SearchManager.UpdateUploadCount | ScriptPrepdocs/SearchManager.cs:154-180 | earlier uploads stay and at most one more is made per batch; the call succeeds exactly when every batch is uploaded; when it fails, the first batch not uploaded is the one that failed to prepare (with its error) or whose upload the service rejected (UploadFailed), and no later batch is prepared |
| SearchManager.UpdateUploads | ScriptPrepdocs/SearchManager.cs:154-180 | upload j is what preparing batch j gives when its embeddings call is number n + j, and the service took it as its upload number u + j |
| SearchManager.UpdateKeepsUploads | ScriptPrepdocs/SearchManager.cs:154-180 | a call only adds uploads after those it started with |
| SearchManager.UpdateRequests | ScriptPrepdocs/SearchManager.cs:168-170 | without a client no embeddings call is made; with one, each batch the call reached sent its texts, in order: one call per uploaded batch, plus one for a batch that failed |
| SearchManager.UploadedSections | ScriptPrepdocs/SearchManager.cs:144-182 | a call that succeeds makes one upload per batch; document i of upload j is, but for its vector, the document of input section i + j * 1000 |
| SearchManager.UploadedBatch | ScriptPrepdocs/SearchManager.cs:156-166 | the same for one upload of any call, failed or not |
| SearchManager.EverySectionUploaded | ScriptPrepdocs/SearchManager.cs:147-166 | after a call that succeeds, every input section has a document, at batch k / 1000, index k % 1000 |
| SearchManager.PositionInjective | ScriptPrepdocs/SearchManager.cs:160 | the position sectionIndex + batchIndex * 1000 determines both indices |
| SearchManager.DocumentIdInjective | ScriptPrepdocs/SearchManager.cs:160 | two document ids are equal exactly when their file names and positions are |
| SearchManager.UploadedIdsDistinct | ScriptPrepdocs/SearchManager.cs:158-166 | in a call that succeeds, documents at two different places (batch, index) have different ids |
| SearchManager.WithoutEmbeddings | ScriptPrepdocs/SearchManager.cs:154-180 | without an embeddings client and with a service that takes every upload, the call succeeds, makes no embeddings call and uploads each batch's documents as built |
| SearchManager.WithAnsweringProvider | ScriptPrepdocs/SearchManager.cs:154-180 | with a client that always answers in full and a service that takes every upload, the call succeeds with one embeddings call per batch, carrying the batch's texts |
| SearchManager.PdfSourcepageIsOnePageOn | ScriptPrepdocs/SearchManager.cs:163 | a PDF section's document points at its file name with anchor "#page=" and page number + 1 |
| SearchManager.FirstPageAnchor | ScriptPrepdocs/SearchManager.cs:163 | the document of a PDF's first page points at "#page=2", since the parser numbers pages from 1 |
| Files.NewFile | ScriptPrepdocs/File.cs:11-15 | a missing stream throws ArgumentNull("content"); missing ACLs become the empty map; otherwise both are kept |
| Files.Sanitize | ScriptPrepdocs/File.cs:29 | every output character is an ASCII letter, digit, '_' or '-', with one output character per UTF-16 unit of the input |
| Files.SanitizeKeepsIdString | ScriptPrepdocs/File.cs:29 | a name made only of such characters is kept unchanged |
| Files.SanitizeIdempotent | ScriptPrepdocs/File.cs:29 | sanitizing twice is sanitizing once |
| Files.SanitizeBmp | ScriptPrepdocs/File.cs:29 | for names without surrogate pairs, each character is kept or replaced by '_' in place |
| Files.Utf8Char | ScriptPrepdocs/File.cs:30 | a character takes 1, 2, 3 or 4 bytes as its code point is below 0x80, 0x800, 0x10000 or above; every byte after the first is a continuation byte (0x80 to 0xBF) |
| Files.Utf8CharDecodes | ScriptPrepdocs/File.cs:30 | each character's UTF-8 bytes announce their own length and decode back to the character |
| Files.Utf8Injective | ScriptPrepdocs/File.cs:30 | different names have different UTF-8 encodings |
| Files.RemoveDashes | ScriptPrepdocs/File.cs:31 | the result has no '-' |
| Files.RemoveDashesKeepsOthers | ScriptPrepdocs/File.cs:31 | removing the dashes keeps every other character as often as it occurs |
| Files.BitConverterWithoutDashes | ScriptPrepdocs/File.cs:31 | removing the dashes from the dashed hex form gives the plain upper-case hex of the bytes |
| Files.Hex | ScriptPrepdocs/File.cs:31 | two upper-case hex digits per byte |
| Files.HexRoundTrip | ScriptPrepdocs/File.cs:31 | the hex form decodes back to the bytes |
| Files.FilenameToId | ScriptPrepdocs/File.cs:27-33 | "file-", the sanitized name, "-" and the hex of the name's UTF-8 bytes; everything after "file-" is an id character |
| Files.FilenameToIdInjective | ScriptPrepdocs/File.cs:27-33 | two file names with the same id prefix are the same name |
| BlobManager.SourcepageFromFilePage | ScriptPrepdocs/BlobManager.cs:82-92 | always starts with the file-name part, and is longer than it exactly for PDF files |
| BlobManager.SourcepageOfPdfPath | ScriptPrepdocs/BlobManager.cs:84-86 | "dir/stem.ext" with ext reading "pdf" in any letter case gives "stem.ext#page=" and page + 1 |
| BlobManager.SourcepageOfPdfName | ScriptPrepdocs/BlobManager.cs:84-86 | the same for a bare file name |
| BlobManager.SourcepageOfOtherPath | ScriptPrepdocs/BlobManager.cs:88-91 | any other file gives its bare file name, without the directory |
| BlobManager.SourcepageOfFirstPage | ScriptPrepdocs/BlobManager.cs:84-86 | page 1 of a PDF gets "#page=2" |
| BlobManager.SourcepageDefaultPage | ScriptPrepdocs/BlobManager.cs:82-86 | the default page 0 gives "#page=1" |
| BlobManager.IsPdfEnding | ScriptPrepdocs/BlobManager.cs:84 | a file is treated as a PDF exactly when its path ends in '.' and p, d, f, each in either case |
| BlobManager.PdfEndingIsExtension | ScriptPrepdocs/BlobManager.cs:84 | such an ending is the path's extension |
| BlobManager.LowerDotPdf | ScriptPrepdocs/BlobManager.cs:84 | a '.' followed by p, d, f in any letter case lowers to ".pdf" |
| BlobManager.BlobNameFromFile | ScriptPrepdocs/BlobManager.cs:94-97 | the blob name is a suffix of the path without '/', and the character before it, if any, is '/' |
| Paths.GetFileName | ScriptPrepdocs/File.cs:19 | the file-name part is a suffix of the path without '/', and the character before it is '/' |
| Paths.FileNameOfJoin | ScriptPrepdocs/BlobManager.cs:96 | the file-name part of "dir/name" is name |
| Paths.FileNameOfName | ScriptPrepdocs/BlobManager.cs:96 | a name without '/' is its own file-name part |
| Paths.DotSuffix | ScriptPrepdocs/BlobManager.cs:84 | empty exactly when there is no '.'; otherwise a suffix starting at the last '.' |
| Paths.ExtensionOfName | ScriptPrepdocs/BlobManager.cs:84 | the extension of "stem.ext" is ".ext" when ext is non-empty and has no '.' |
| Paths.GetExtension | ScriptPrepdocs/BlobManager.cs:84 | the extension is empty exactly when the file name has no '.' or ends with one; otherwise it is the suffix of the file name from its last '.', at least two characters long |
| Paths.ToLowerAscii | ScriptPrepdocs/BlobManager.cs:84 | lowers each character in place, keeping the length |
| Text.NatToString | ScriptPrepdocs/SearchManager.cs:160 | a non-empty string of decimal digits with no leading zero |
| Text.NatToStringRoundTrip | ScriptPrepdocs/SearchManager.cs:160 | the digits read back as the number |
| Text.NatToStringInjective | ScriptPrepdocs/SearchManager.cs:160 | different numbers print differently |

## Left out

- PdfParser.ParseAsync: strings are sequences of Unicode scalar values, so spans, offsets and lengths count scalar values where .NET counts UTF-16 code units. For text outside the Basic Multilingual Plane the model's offsets are smaller than the source's, and a span given in UTF-16 units may fall outside the model's text.
- PdfParser.MergePage: indexes the document text by scalar value rather than by UTF-16 unit, for the same reason; a table span that splits a surrogate pair cannot be represented.
- PdfParser.ParseAsync: offsets are unbounded integers; the source adds page lengths into a 32-bit int that would wrap after 2^31 characters.
- PdfParser.Owner: the position span.Index - pageOffset + i is computed without 32-bit wrap-around.
- PdfParser.ParseAsync: yields pages one by one as the source does, so a failure on page k leaves pages 1..k-1 delivered; the model follows the code.
- PdfParser.ParseAsync: reading the file and the layout-service call are left out; the analysis result is a parameter, and so is the HTML entity encoder.
- BlobManager.SourcepageFromFilePage: page + 1 is computed without 32-bit wrap-around.
- BlobManager.IsPdf: lowers ASCII letters only, where the source's ToLower follows the current culture. For the ".pdf" test the two agree, since no other character lowers to '.', 'p', 'd' or 'f'.
- SearchManager.Position: sectionIndex + batchIndex * 1000 is computed without 32-bit wrap-around.
- SearchManager.DocumentId: uses that unbounded position.
- SearchManager.SearchClient.UploadDocuments: the service's answer depends only on how many uploads it has taken and on the documents, so a failure is not tied to time or to the service's other traffic. A rejected upload takes nothing; a partly applied batch is not modelled.
- SearchManager.SearchManager.UpdateContent: the document type's float vectors are kept as opaque values, since nothing is computed with them.
- Paths.GetFileName: treats '/' as the only directory separator (as on Unix), so a '\\' or a drive letter is part of the name.
- Paths.GetExtension: is built on that file name, so it shares the simplification.
- Files.NewFile: the file name of a stream is a field of the model's stream, not read from the file system.
- SearchManager.CreateIndex is not part of this model: it only builds a fixed index definition and sends it to the service.
- SearchManager.RemoveContent is not part of this model: it is a search-and-delete loop against the service with no exit, and it has no state of its own to model.
- BlobManager.UploadBlob and BlobManager.RemoveBlob are not part of this model: they are storage I/O loops.
- Embeddings.OpenAIEmbeddings.SendWithRetry: the random sleep between retries and the log lines are left out; they do not change which requests are made.
- Program.cs, App.cs and the logging throughout are not part of this model: they wire the services together and print progress.
