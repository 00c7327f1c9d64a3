# gemini-book-translator, modelled in Dafny

This project models the page-by-page translation pipeline of gemini-book-translator. The model covers six parts:

- **Prompt composer** (`customize_prompt`): builds the prompt from the template, the page and a one-slot translation history.
- **Retry wrapper**: tenacity's policy around `translate_page` and around the OCR call `extract_text_from_image`.
- **PDF driver** (`process_pdf`): one record per page, with a history that moves only on success.
- **Kindle driver** (`process_kindle_book`):
  - screenshot, OCR and translation per page;
  - a checkpoint file and resume;
  - `max_pages`, the stop after five consecutive empty pages, and the end-of-book stops;
  - the file names `main_async` derives.
- **Converter** (`convert_jsonl_to_docx`): filters and counts the log's lines into paragraphs.
- **`input_name_file`**: asks until the answer is not blank, then adds the extension.

What the model treats as inputs:

- **Model calls** (Gemini text and vision) are oracles of type `(argument, attempt number) -> Reply`, where a reply is a text or one of the exception kinds the code tells apart. Every behaviour of the remote service is therefore an input.
- **The Kindle reader** is a finite sequence of screens. Each screen says whether `capture_page` succeeds, what OCR and translation return, whether `next_page()` succeeds and what `is_last_page()` answers.
- **The PDF** is the sequence of texts `extract_text()` returns.
- **The log and the checkpoint** are classes whose methods append to a `seq<Record>` and overwrite an `Option<Progress>`. The converter's document is a class whose paragraphs are only appended.
- **Each driver loop** is a method proved equal to a specification function: `PdfRun`, or `KindleLoop` reached through `KindleRun`. These functions take the loop body as a function value, so the lemmas about them hold for any pass with the stated per-page guarantees (`PdfBodyFacts`, `KeepsHistory`, `BodyFacts`).

In these places the model follows the code as written:

- The Kindle driver writes `failed_rate_limit` where the PDF driver writes `failed_after_retries`.
- The Kindle driver maps `ValueError` to `failed_generic_error`.
- `max_pages` is an absolute page number, not a count from the resume point.
- On Ctrl+C the `finally` block still appends a record with status `undefined`. Interruption itself is left out (see below).

## Model

| member | source | states |
|---|---|---|
| Text.StripProperties | kindleTranslation.py:237 | `strip()` is empty exactly for blank strings, leaves no whitespace at either end and is an infix of its input |
| Text.StripAt | kindleTranslation.py:237 | `strip()` removes only whitespace: the result sits where the leading whitespace ends, and what lies before and after it is blank |
| Text.StripEnds | kindleTranslation.py:237 | the stripped text has no whitespace at either end, and a blank text strips to nothing |
| Text.ReplaceAllFinal | kindleTranslation.py:260 | when `pat` occurs in `base + pat` only at the end, `replace` rewrites that one occurrence: the result is `base + rep` |
| Text.ReplaceAllLonger | kindleTranslation.py:260 | replacing a pattern by a text at least as long never shortens a string, and lengthens every string the pattern occurs in |
| Utils.WithExtensionKeepsName | utils.py:23-24 | the entry is a prefix of the result, and the result equals the entry exactly when the lower-cased entry already ends with the extension |
| Utils.WithExtensionEndsWith | utils.py:17-26 | for a lower-case extension and a non-blank entry, the lower-cased result ends with the extension and is not blank |
| Utils.WithExtensionIdempotent | utils.py:23-24 | normalising a normalised name changes nothing, whatever the case of the letters typed |
| Utils.InputNameFile | utils.py:16-27 | the loop reads entries until one is not blank; every entry before it was blank; the name is that entry with the extension rule applied; `None` (EOF) exactly when all entries are blank |
| Prompt.HistorySection | bookTranslation.py:34-45 | the example block is empty exactly when either history half is empty |
| Prompt.CustomizePrompt | bookTranslation.py:47-55 | the prompt starts with the template, ends with the page right after the `### TEXT TO BE TRANSLATED` marker, verbatim and untruncated, and is at least as long as its fixed pieces |
| Prompt.HistoryBlockPlacement | bookTranslation.py:47-53 | right after the template comes the blank separator line, and between it and the marker lies exactly the history block |
| Prompt.HistoryBlockShowsBoth | bookTranslation.py:36-45 | a present history block opens with its heading, then the source text verbatim, and ends with the reference translation verbatim before the closing rule |
| Prompt.HistoryUsedIff | bookTranslation.py:34-53 | the history changes the prompt if and only if both halves are non-empty |
| Prompt.PromptNeverBlank | bookTranslation.py:47-53 | a composed prompt is never blank, so `translate_page`'s empty-prompt guard cannot fire on it |
| Retry.BackoffWait | bookTranslation.py:58 | every wait lies between 4 and 60 seconds |
| Retry.BackoffValues | bookTranslation.py:58 | the wait after attempt `n` is 4 seconds up to the third attempt, `2^(n-1)` seconds from the third to the sixth, and 60 seconds from the seventh on |
| Retry.BackoffNonDecreasing | bookTranslation.py:58 | waits never shrink as attempts go on |
| Retry.Waits | bookTranslation.py:57-59 | one wait after every failed attempt but the last, each between 4 and 60 |
| Retry.PolicyWaits | bookTranslation.py:57-59 | with at most three attempts the waits are exactly 4 and 4 seconds |
| Retry.RetryFromPolicy | bookTranslation.py:57-62 | one to three calls; every call but the last raised ResourceExhausted; the result is the last call's own outcome (re-raised); a ResourceExhausted result means all three attempts were spent |
| Retry.NonQuotaFailureNotRetried | bookTranslation.py:60 | any other failure on the first attempt propagates after one call and no wait |
| Retry.QuotaScenarios | bookTranslation.py:57-62 | two quota failures then a success return the success after three calls and two waits; three quota failures re-raise after the third call |
| Retry.CallWithRetry | bookTranslation.py:57-62 | the attempt loop gives the policy's reply and call count, and the waits for that many calls |
| Retry.FirstAttemptAnswers | bookTranslation.py:75-79 | a non-blank prompt answered on the first attempt yields that answer |
| Retry.TranslatePage | bookTranslation.py:63-79 | a blank prompt fails with ValueError after zero model calls and no wait; otherwise the retry policy applies, with at most three calls and waits between 4 and 60 |
| Retry.ExtractSpec | vision_ocr.py:148-155 | OCR text has no whitespace at either end |
| Retry.ExtractSpecReply | vision_ocr.py:88-155 | OCR fails exactly when the retried call fails, with the same error; its text is empty exactly when the model's text is blank |
| Retry.ExtractTextFromImage | vision_ocr.py:88-155 | the method returns the retried OCR reply, stripped |
| Records.ConsecutiveJoin | kindleTranslation.py:97-116 | two runs, the second numbered on from the first, together number pages strictly increasingly |
| Records.LastSuccess | bookTranslation.py:150-153 | the index found is the latest success before `j`, and no record after it (or none at all) succeeded |
| Records.LastSuccessCons | bookTranslation.py:150-153 | putting a record in front shifts the latest success by one, or makes it the new record |
| Records.JsonlLog.Append | bookTranslation.py:163-164 | the log gains exactly the new record at its end |
| Checkpoint.LoadSpec | kindleTranslation.py:42-47 | an absent file reads as zero pages completed and last page zero; an existing file is returned as saved |
| Checkpoint.ProgressStore.Load | kindleTranslation.py:32-47 | returns `LoadSpec` of the stored record |
| Checkpoint.ProgressStore.Save | kindleTranslation.py:50-64 | the stored record is overwritten with the two counters |
| PdfDriver.Preview | bookTranslation.py:158 | `None` exactly for empty text; otherwise the text's first 100 characters (all of it when shorter), followed by `...` |
| PdfDriver.PdfPage | bookTranslation.py:123-164 | each page is recorded with `page_number = i + 1` and its preview; it is skipped exactly when blank; it has a translation exactly on success; it has an error exactly on failure, with the failure's status; the history changes only on success, to this page's pair; for a non-blank page the record holds exactly `translate_page`'s reply to the composed prompt (the translation and `success`, or the error with its status) |
| PdfDriver.QuotaExhaustedPdfPage | bookTranslation.py:123-164 | a non-blank page whose three attempts all raise ResourceExhausted is recorded `failed_after_retries` with that error, and the history is kept |
| PdfDriver.PdfPassFacts | bookTranslation.py:111-164 | the pass with a given template and models has the per-page guarantees above |
| PdfDriver.PdfRunOneRecordPerPage | bookTranslation.py:111-164 | a run appends one record per page, numbered consecutively from `i + 1`, each skipped exactly when its page is blank |
| PdfDriver.PdfRunUsesLastSuccess | bookTranslation.py:108-153 | record `j` is the pass on page `i + j` with the history of the latest successful record before it (or the starting history); failed and empty pages never feed a prompt |
| PdfDriver.ThirdPageCarriesFirstPage | bookTranslation.py:111-153 | for pages text, blank, text with a model answering at once, the statuses are success, skipped, success, and the third prompt carries the first page's source and translation |
| PdfDriver.AnsweredPdfPage | bookTranslation.py:129-153 | a page whose prompt is answered at once succeeds with that answer and becomes the history |
| PdfDriver.ProcessPdf | bookTranslation.py:94-164 | a missing file fails with FileNotFound and an empty PDF with NoPages, both before any record; otherwise the log gains exactly the run's records |
| PdfDriver.TranslatePdfPages | bookTranslation.py:108-164 | the page loop appends exactly the run's records |
| PdfDriver.WritePdfPage | bookTranslation.py:112-164 | one pass of the loop body appends its page's record and returns the pass's outcome |
| KindleDriver.TranslateAsWritten | kindleTranslation.py:152 | the call as written raises (TypeError), whatever the prompt and the model |
| KindleDriver.Observe | kindleTranslation.py:130-155 | blank OCR text is empty after stripping, and only non-blank text is sent on to translation (what is sent is stated by `ObserveText`) |
| KindleDriver.PageStep | kindleTranslation.py:125-191 | the record has the page number and only statuses this loop writes; a translation exactly on success; an error exactly on failure, mapped ResourceExhausted to rate-limit, InvalidArgument to invalid-argument, and all else to generic; a skipped page records empty text; the empty counter rises on a skipped page, resets on any OCR text, and stays otherwise; the history changes only on success; and per observation (`FollowsObservation`): a failed capture is `failed_generic_error`, an OCR error its status, blank text a skip that counts, and translated text the reply's success or error with the OCR text as original |
| KindleDriver.KindlePage | kindleTranslation.py:130-191 | one pass of the loop body has the per-page guarantees above, and records exactly what it observed on that screen (`FollowsObservation`) |
| KindleDriver.PassFacts | kindleTranslation.py:125-191 | both translation calls give passes with those guarantees |
| KindleDriver.Skip | kindleTranslation.py:100-103 | skipping never moves the reader backwards or past the book |
| KindleDriver.SkipAdvances | kindleTranslation.py:100-103 | on resume the reader is advanced `start_page` screens when every page turn succeeds |
| KindleDriver.SkipPages | kindleTranslation.py:100-103 | the resume loop leaves the reader where `Skip` says |
| KindleDriver.KindleLoopPages | kindleTranslation.py:114-205 | page numbers go up by one per record from `start + 1`; nothing is written exactly when the first page is already past the limit; no recorded page is past a truthy `max_pages`; one screen per record |
| KindleDriver.KindleLoopRecordAt | kindleTranslation.py:105-191 | record `j` is the pass on screen `pos + j`, page `page + 1 + j`, with the empty counter and history the earlier records imply |
| KindleDriver.KindleLoopSuffix | kindleTranslation.py:114-205 | the log from record `j` on is the loop restarted at screen `pos + j`, page `page + j`, with the counter and history the earlier records leave |
| KindleDriver.KindleLoopGoesOn | kindleTranslation.py:138-205 | a record followed by another came from a pass that did not hit the empty-page stop, after which the page turn succeeded and the next screen is not the last page |
| KindleDriver.KindleLoopStops | kindleTranslation.py:118-205 | after the last record the loop ended: the empty-page stop, a failed page turn or the last page, or else the next page number is past `max_pages` |
| KindleDriver.KindleLoopEmptyStop | kindleTranslation.py:138-147 | only the last record can bring the consecutive-empty counter to five |
| KindleDriver.FreshRunStartsAtPageOne | kindleTranslation.py:93-116 | without a saved checkpoint the run starts at page 1 on the screen the user left open |
| KindleDriver.ResumeAfterCheckpoint | kindleTranslation.py:97-195 | a run resumed from the checkpoint another run left starts right after its last page, so the two logs together are strictly increasing with no page twice |
| KindleDriver.AsWrittenPage | kindleTranslation.py:152 | with the call as written no pass succeeds, and a page with OCR text is recorded `failed_generic_error` |
| KindleDriver.AsWrittenNeverTranslates | kindleTranslation.py:152 | with the call as written no record of a run is a success, and the history never leaves its starting value |
| KindleDriver.AsWrittenFailsOnText | kindleTranslation.py:152 | a captured page with non-blank OCR text is recorded `failed_generic_error` |
| KindleDriver.CorrectedTranslatesText | kindleTranslation.py:151-155 | with the corrected call the same page succeeds with the model's first answer and becomes the history |
| KindleDriver.TranslateCallFinding | kindleTranslation.py:151-155 | both halves for one page: failure as written, success with the model's answer when corrected |
| KindleDriver.AnsweredStep | kindleTranslation.py:146-179 | an answered page records success with the reply and moves the history, or records the error's status and keeps the history |
| KindleDriver.ObserveText | kindleTranslation.py:136-152 | a captured page with text sends the composed prompt; the corrected call returns a first-attempt answer |
| KindleDriver.LoopAdvance | kindleTranslation.py:175-205 | after one pass the written records grow by its record, and either the loop ends or continues from the next screen with the pass's counter and history |
| KindleDriver.LoopLimit | kindleTranslation.py:119-121 | a page past the limit ends the loop with nothing more written |
| KindleDriver.ObservePage | kindleTranslation.py:130-155 | the `try` block returns what `Observe` describes for the corrected call |
| KindleDriver.ProcessPage | kindleTranslation.py:125-191 | one pass (`try` plus `finally`) gives the corrected pass's record, counter and history for that page number |
| KindleDriver.WritePage | kindleTranslation.py:175-195 | the pass's record is appended, and the checkpoint becomes that page number in both fields |
| KindleDriver.TranslatePages | kindleTranslation.py:105-205 | the `while True` loop appends exactly the loop's records, and the checkpoint holds the last page written (unchanged if none) |
| KindleDriver.ProcessKindleBook | kindleTranslation.py:89-205 | the log gains exactly the resumed run's records, and the checkpoint ends at the last page written |
| KindleFiles.OutputFileName | kindleTranslation.py:237-239 | the log name ends with `.jsonl` and has no surrounding whitespace; a blank entry gives just `.jsonl` |
| KindleFiles.WithExtension | kindleTranslation.py:238-239 | a trimmed name is kept when it already ends with the extension and gets the extension appended otherwise; the result ends with it and has no surrounding whitespace |
| KindleFiles.OutputFileNameKeepsEntry | kindleTranslation.py:237-239 | the log name is the stripped entry when that ends with `.jsonl` (case-sensitive), and the stripped entry followed by `.jsonl` otherwise |
| KindleFiles.PromptFileName | kindleTranslation.py:242-244 | the prompt file name is never blank: the stripped entry, or the default when the entry is blank |
| KindleFiles.OutputFileNameIdempotent | kindleTranslation.py:237-239 | typing the derived name back in gives the same name |
| KindleFiles.ExtensionOnlyAtEnd | kindleTranslation.py:238-239 | `.jsonl` cannot overlap itself, so an added extension is its only occurrence |
| KindleFiles.ProgressFileNeverLog | kindleTranslation.py:237-260 | for every entry, including one that already ends in `.jsonl`, the checkpoint file is not the log file |
| KindleFiles.ProgressFileBesideLog | kindleTranslation.py:237-260 | for a name without `.jsonl` inside, the log is `name.jsonl` and the checkpoint is `name_progress.json`, never the log itself |
| KindleFiles.ProgressNameOf | kindleTranslation.py:260 | `replace` turns `name.jsonl` into `name_progress.json`, a different name |
| Converter.Header | jsonl_to_docx.py:64 | the header reads `--- Page `, then the page number as the f-string shows it (`?` when absent), then ` ---` |
| Converter.Block | jsonl_to_docx.py:62-84 | a page to convert (one whose texts are strings; a number raises before any block is built) gives the bold header, then, only when asked for and present, a bold "Original:", the original and a spacer, then the translation and a spacer: six paragraphs or three |
| Converter.Converted | jsonl_to_docx.py:57-60 | every converted record has status `success` and a truthy translation |
| Converter.ConvertLinesMatchesExpected | jsonl_to_docx.py:42-84 | the loop raises exactly when a non-blank line is JSON but not an object, or is a page to convert whose translation (or, when asked for, its truthy original) is a number; otherwise the document holds the blocks of the converted records in file order, `pages_processed` counts them and `pages_skipped` counts the other objects |
| Converter.NumberTranslationRaises | jsonl_to_docx.py:58-79 | a first line holding a success record whose translation is a non-zero number makes the conversion raise, whatever lines follow |
| Converter.CountsAddUp | jsonl_to_docx.py:39-84 | `pages_processed + pages_skipped` is the number of non-blank lines that decode to an object |
| Converter.IgnoredLine | jsonl_to_docx.py:44-50 | a blank or undecodable line may be inserted anywhere without changing the document or the counters |
| Converter.AbortIsFinal | jsonl_to_docx.py:52-55 | once a line has raised, reading more lines does not bring the conversion back |
| Converter.LastIndex | jsonl_to_docx.py:27 | the index found holds the character and no later one does |
| Converter.Suffix | jsonl_to_docx.py:27 | a suffix is a dot and at least one more character ending the name, never the whole name |
| Converter.DefaultDocxName | jsonl_to_docx.py:26-27 | the default name fails exactly for a path with an empty name and otherwise ends with `.docx` |
| Converter.DefaultDocxNameReplacesSuffix | jsonl_to_docx.py:26-27 | `dir/stem.ext` becomes `dir/stem.docx`: the directory is kept and only the last extension is replaced |
| Converter.DefaultDocxNameAddsSuffix | jsonl_to_docx.py:26-27 | a name without a suffix keeps all of itself and gets `.docx` appended |
| Converter.DefaultDocxNameIdempotent | jsonl_to_docx.py:26-27 | applying the default naming to its own result changes nothing |
| Converter.Document.AddParagraph | jsonl_to_docx.py:63-82 | the document gains exactly that paragraph at its end |
| Converter.AddPage | jsonl_to_docx.py:62-84 | one converted page whose texts are not numbers, which python-docx cannot take, appends exactly its block |
| Converter.ConvertJsonlToDocx | jsonl_to_docx.py:13-94 | the method fails on an empty path name, a missing file, a non-object line or a page whose text is a number, and otherwise returns the output name, the document and the two counters that `ConvertSpec` gives |
| Converter.ConvertLine | jsonl_to_docx.py:43-84 | one turn of the loop raises exactly when the loop step does, and otherwise leaves the document and counters that step gives |
| Converter.ConvertDriverLog | jsonl_to_docx.py:39-84 | converting a log either driver wrote never raises, and counts each record once: converted when it is a success with a non-empty translation, skipped otherwise |
| Converter.PdfLogIgnoresIncludeOriginal | jsonl_to_docx.py:69-76 | for a PDF driver log, asking for the original changes nothing, because its records have no `original_text` |

## Left out

- The Playwright reader (kindle_reader.py) is not part of this model. Its login and book-selection waits, its timeouts and its DOM heuristics are left out. Only the answers of `capture_page`, `next_page()` and `is_last_page()` are modelled, as per-screen inputs.
- The OCR call is an oracle. Image preprocessing and the mime-type table are left out. The FileNotFoundError raised for a missing screenshot is one of the oracle's `OtherError` replies.
- The actual sleeping is left out:
  - tenacity's backoff: the waits are computed and returned, never slept;
  - the 60-second sleep after a Kindle rate-limit failure;
  - the checkpoint's timestamp.
- JSON encoding and decoding, and opening and closing the log and checkpoint files, are left out. A log line is modelled as its text plus what `json.loads` makes of it.
- A record's error message is modelled by the kind of exception it came from, not by the exception's text.
- Only null, string and integer JSON values are modelled in the converter; floats, lists and booleans in the four fields read are not.
- ConvertJsonlToDocx: a failing conversion reports one error, `LineRaised`, for both exceptions a line can raise: AttributeError for a JSON value that is not an object, and TypeError for a number passed to `add_paragraph`.
- ConvertLinesMatchesExpected: python-docx also raises ValueError on a string holding characters XML cannot hold (most control characters). The model treats every string as accepted, so it does not promise that such a log fails.
- CanAdvance / KindleLoop: the book is a finite sequence of screens, and `next_page()` fails on the last one. In kindle_reader.py:196-203 `next_page()` answers True whenever the ArrowRight keypress succeeds, even at the end of the book. So the source's `while True` loop ends only through `is_last_page()`, five consecutive empty pages or `max_pages`. When those heuristics miss and `max_pages` is unset, the source keeps re-capturing the last screen for ever. The model forces termination the source does not guarantee, and a run that never ends is not modelled.
- ProcessPdf / PdfRunOneRecordPerPage: `page.extract_text()` runs outside the `try` (bookTranslation.py:116). An extraction error aborts `process_pdf` after the earlier pages' records are written. The model's pages are the texts extraction returns, so this path is not modelled, and one record per page holds unconditionally.
- ProcessPdf: `PdfReader` errors other than FileNotFoundError, such as a corrupt file, propagate out of `process_pdf` (bookTranslation.py:94-97). The model knows only FileNotFound and NoPages.
- Python's `lower()` is modelled on ASCII letters only.
- `str.isspace` is modelled by its code-point list.
- The python-docx styling (font, size, alignment, indentation) and `doc.save` are left out; the document is its sequence of paragraphs with a bold flag.
- Path handling in `with_suffix` is modelled for `/`-separated POSIX paths. Python's path normalisation (collapsing `//` and `.` components, a trailing `/`) is left out.
- `KeyboardInterrupt` and the status `undefined` are left out. On Ctrl+C the `finally` block would append one more record with status `undefined` and save the checkpoint; asynchronous scheduling is not modelled either.
- The `main` functions, dotenv and API keys, `input()` prompts other than `input_name_file`'s, the parsing of `max_pages` with `int()` and `import_text` are left out. The drivers receive the template, the OCR prompt and the page limit as values.
- `load_progress` on a checkpoint file without `pages_completed` (a KeyError) is left out: the checkpoint always holds both counters.
- The Kindle driver's `translate_page` call is modelled twice: as written (`TranslateCall.AsWritten`) and as evidently intended (`TranslateCall.Corrected`). The methods implement the corrected call.

## Findings

| source | as written | input that shows it | evidently intended | confidence | as-written member | corrected member |
|---|---|---|---|---|---|---|
| kindleTranslation.py:152 | `translate_page(client, model_name, current_prompt)` passes three arguments to the two-parameter `translate_page(model, prompt)` of bookTranslation.py. Python raises TypeError, which is not retried and is caught as a generic error | any captured page whose OCR text is not blank, with a model that would answer at once | call the model with the composed prompt under the retry policy, so the page is recorded as `success` with the answer and becomes the history | not executed | KindleDriver.AsWrittenFailsOnText | KindleDriver.CorrectedTranslatesText |
