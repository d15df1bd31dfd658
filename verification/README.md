# StudyGo nr. Anki — a Dafny model of the scrape-and-export core

StudyGo nr. Anki is a small command-line tool. It reads a list of StudyGo card-set
URLs from `urls.txt`, renders each page in a headless Chrome, and extracts the
front/back pairs of the page's pair-list items. It then writes all cards to
`anki.csv`, a two-column comma-separated file for Anki to import.

This project models the data-shaping logic of that tool as pure Dafny functions and
one loop. The browser and the file system are replaced by inputs.

- `Text` is Rust's whitespace (`char::is_whitespace`), `str::trim`, and character counts.
- `Seqs` is an order-preserving filter-map. It has a lemma that characterises its
  result exactly: which elements are kept, at which positions, and in which order.
- `Cards` holds the `Flashcard` entity and the invariant that extraction guarantees.
- `Csv` holds field escaping (`escape_csv`) and the file content written by `write_to_csv`.
- `CsvRead` is a reader for exactly the format `Csv` writes: `front,back` records, each
  ended by a line feed, with fields quoted as in rules 5–7 of section 2 of RFC 4180.
  It is the inverse used to prove the round trips: reading back an escaped field or a
  written file gives the original field or card list exactly. It differs from
  RFC 4180 in three ways. A record ends at a line feed, not CR LF. The last record
  must also end with a line feed. A bare CR is accepted inside an unquoted field.
- `Urls` is the URL-list reading done by `read_urls_from_file`.
- `Extract` turns the pair-list items of one rendered page into cards. This is the
  loop in `scrape_flashcards`. A page load that fails is an error value.
- `Batch` is the loop in `main` over all URLs. It keeps the cards of the pages that
  loaded, counts successes and failures, and never aborts on a failure.
- `Pipeline` is `main` as a whole. It handles an empty or missing URL list, a browser
  that cannot start, the non-empty guard on writing, and a write error.

The browser is a parameter. `fetch(i, url)` is the `Page` the browser delivers for
the `i`-th URL: either `Failed(error)` or `Rendered(pairs)`, where each pair is the
sequence of its info-span texts in document order. Whether the browser starts and
whether the output file can be written are boolean parameters of `Pipeline.Run`.
The URL file is `Missing`, `Unopenable` or `Present(lines)`.

Behaviours of the code that the model keeps:

- A failure to open a new tab fails that page (`TabFailed`, `src/main.rs` line 61),
  like a failed navigation, a missing pair list or a failed content retrieval.
- Any error reading `urls.txt`, whether the file is missing or cannot be opened,
  leads to the "no URLs" exit (`src/main.rs` lines 115–119).
- A field is quoted only for a comma, a double quote or a line feed
  (`src/main.rs` line 104). A lone carriage return is written unquoted, although
  RFC 4180 does not allow a bare CR in an unquoted field. The reader in `CsvRead`
  accepts one, so the round trips hold for every string.

## Model

| member | source | states |
|---|---|---|
| Text.Trim | src/main.rs:53 | The trimmed line is a contiguous slice of the input with only whitespace before and after it and no whitespace at either end; it is empty exactly when the input is all whitespace |
| Text.TrimOfTrimmed | src/main.rs:80-81 | Trimming a string that has no whitespace at its ends returns it unchanged, so trimming is idempotent |
| Seqs.FilterMap | src/main.rs:50-55 | The kept values are at most as many as the inputs, and every input that yields a value has that value kept |
| Seqs.FilterMapEmpty | src/main.rs:50-55 | Nothing is kept if and only if no input yields a value |
| Seqs.FilterMapIsOrderedSelection | src/main.rs:50-55 | The result is exactly the values of the inputs that yield one, taken at strictly increasing positions: a position is kept if and only if its element yields a value |
| Csv.DoubleQuotesLength | src/main.rs:105 | Doubling the quotes adds exactly one character per double quote in the field |
| Csv.DoubleQuotesOfQuoteFree | src/main.rs:105 | A field without double quotes is unchanged by quote doubling |
| Csv.EscapeCsv | src/main.rs:103-109 | A field without comma, quote or line feed is returned unchanged; otherwise the result starts and ends with a quote and is the field's length plus 2 plus its quote count; the result starts with a quote if and only if the field needs quoting |
| Csv.WriteCsv | src/main.rs:92-101 | The output is empty exactly when there are no cards (no header line), and it holds at least one line feed per card |
| Csv.WriteCsvAppend | src/main.rs:94-97 | Writing a card list is writing its parts one after another, so records appear in card order, one per card |
| CsvRead.ReadQuotedOfDoubled | src/main.rs:105 | Reading a quote-doubled body followed by a closing quote collapses each doubled quote and recovers the original text, leaving what follows unread |
| CsvRead.ReadBareOfPlain | src/main.rs:107 | A field written verbatim reads back unchanged up to the next comma or line feed |
| CsvRead.ReadFieldOfEscaped | src/main.rs:103-109 | Any escaped field followed by a comma, a line feed or the end reads back as the original field |
| CsvRead.UnescapeOfEscape | src/main.rs:103-109 | Round trip: stripping the outer quotes and collapsing `""` in an escaped field gives back the original field exactly, and an unquoted field is read verbatim |
| CsvRead.ReadRecordOfFormatted | src/main.rs:95-97 | A written `front,back` line reads back as its card, leaving the next line unread |
| CsvRead.ReadCsvOfWritten | src/main.rs:92-101 | Round trip: reading the written file gives back every card, with both fields exact, in order |
| Urls.ReadUrls | src/main.rs:50-55 | There are at most as many URLs as lines; every URL is trimmed, non-empty and does not start with `#`; every line whose trimmed form qualifies appears; the list is empty if and only if no line qualifies |
| Urls.ReadUrlsInOrder | src/main.rs:50-55 | The URLs are exactly the trimmed qualifying lines at strictly increasing line positions: a line is kept if and only if its trimmed form is non-empty and does not start with `#` |
| Urls.ReadUrlsIdempotent | src/main.rs:53-54 | Reading an already cleaned URL list changes nothing |
| Urls.ReadUrlsFromFile | src/main.rs:41-58 | A missing file and a file that cannot be opened give distinct errors. A readable file gives its cleaned URL list: every URL trimmed, non-empty and not a comment, and the list empty if and only if no line names a URL |
| Extract.CardOf | src/main.rs:77-86 | A pair-list item yields a card if and only if it has at least two texts and neither of the first two is blank; the card is those two texts trimmed, so both sides are non-empty and trimmed |
| Extract.CardOfIgnoresExtraTexts | src/main.rs:79-81 | Texts after the second never change the card an item yields |
| Extract.SelectCards | src/main.rs:74-89 | A page yields at most one card per item; every card has non-empty, trimmed front and back; every item that yields a card has it among the page's cards; there are no cards if and only if no item yields one |
| Extract.SelectCardsInOrder | src/main.rs:76-87 | The cards are exactly those of the items with two non-blank leading texts, taken at strictly increasing item positions, each being the trimmed first and second text |
| Extract.ScrapeFlashcards | src/main.rs:60-90 | A page load fails as a whole, with its error, if and only if the page failed. A rendered page succeeds and every card has a non-empty, trimmed front and back. A rendered page yields no cards (still a success) if and only if none of its items qualifies |
| Batch.RunBatch | src/main.rs:131-149 | The loop collects the cards of all successful URLs in URL order and counts successes and failures, which add up to the number of URLs |
| Batch.SuccessesPlusFailures | src/main.rs:132-146 | Every URL is counted exactly once, as a success or as a failure |
| Batch.CollectedAround | src/main.rs:138-141 | The cards of URL k appear whole, between the cards of earlier URLs and those of later URLs |
| Batch.FailureIsIsolated | src/main.rs:137-147 | If URL k fails instead, only its own cards go missing and every other URL's cards stay in order; the failure count rises by one if it had succeeded |
| Batch.CollectedMembers | src/main.rs:138-141 | A card is collected if and only if some successful URL produced it |
| Pipeline.UrlList | src/main.rs:115-119 | A URL file that is missing or cannot be opened counts as an empty URL list. Every URL is trimmed, non-empty and not a comment. The list is empty if and only if the file is unreadable or none of its lines names a URL |
| Pipeline.Run | src/main.rs:111-165 | The run stops before scraping if and only if there are no URLs. It fails to start the browser if and only if there are URLs and the browser cannot start. A write error is fatal if and only if there are URLs, the browser starts and at least one card was collected. Otherwise the run finishes with a summary. The CSV is written if and only if at least one card was collected, and its content is the written form of all collected cards. The summary counts match the batch |

## Left out

- The headless Chrome session: `Browser::default`, `new_tab`, `navigate_to`, `wait_for_element` and `get_content` are foreign calls. Their per-URL result is the `Page` given by `fetch`, and whether the browser starts is a parameter.
- The two-second sleep after the pair list appears. It affects timing only.
- HTML parsing and CSS selector matching by the `scraper` crate. This library is not part of this model. A page is given as its pair-list items and each item as its info-span texts. Each text is already the concatenation of the text under its span.
- File I/O is abstracted. The existence check (`Path::exists`) and `File::open` become the three `UrlFile` cases: `Missing`, `Unopenable`, and `Present` with the file's lines. Line splitting by `BufReader::lines` is not modelled. This includes CR LF handling and the silent drop of unreadable lines. The CSV output is a string.
- Pipeline.Run: a write error is modelled as writing nothing. `writeln!` can fail after some lines are written, which leaves a partial `anki.csv`.
- Console output: progress lines, per-URL counts, error messages and the summary. The summary message names `cards.csv`, but the file written is `anki.csv`.
- Closing the browser tabs and the process exit status.
- Batch.RunBatch: the `successful` and `failed` counters of `main` are `i32`, but the model counts with unbounded `nat`. Overflow would need more than 2^31 − 1 URLs.
