# receipt-recognizer-client, modelled in Dafny

This project models the deterministic core of the Python package
`receipt_recognizer`, a thin client for a receipt-recognition service.
The model covers:

- **Base-field schema** (`constants.dfy`). The five required fields
  `source`, `destination`, `amount`, `fee`, `date` and their descriptions.
  Also the notion of a *missing* field (absent, or `None`) and the ordered
  list of missing fields.
- **Error classes** (`exceptions.dfy`). The library's classes, and the
  built-ins it raises, as one hierarchy with `issubclass`. A raised
  exception is an `Error(kind, message)` value. `VersionMismatchError` is a
  class whose constructor chooses between the given message and the
  default one.
- **Version compatibility** (`version.dfy`). `check_compatibility`
  compares only the text before the first `.` of each version.
- **Adapter for the external recognizer** (`core.py`, modelled in
  `core.dfy`):
  - alias-based field extraction, where the first present key wins even
    when its value is `None`;
  - numeric and date coercion;
  - the standardised record, with its `ValueError` listing every missing
    field;
  - the boolean `validate_fields`.
- **Local PDF path** (`pdf_processor.dfy`). A document is an abstract
  sequence of pages; each page has its text blocks, its words and its
  plain text. The model covers:
  - the plain text: blocks sorted by `(y0, x0)`, empty ones dropped, the
    rest joined with `"\n"`;
  - the positioned lines: words grouped by y-key, lines in ascending
    y-key, words in ascending x, blank lines dropped;
  - the "searchable" test: the first three pages, more than 50 stripped
    characters;
  - the pattern lookup, with the regular-expression engine as a given
    function;
  - first-match bank detection;
  - the combined receipt record, which turns a failure into
    `{error, success: False}`.
- **Client** (`client.dfy`). The construction rules:
  - URL and token come from the arguments or the environment;
  - trailing `/` is stripped from the URL;
  - local mode holds exactly when there is no URL;
  - a token is required otherwise;
  - the health check runs against the server.

  It also covers:
  - `recognize`: the local path for `.pdf` files when local processing is
    allowed or there is no API;
  - the in-place tagging and mapping of `_process_pdf_locally`;
  - `_combine_date_time`;
  - `_validate_result`, a loop that collects the missing fields in schema
    order;
  - `_send_to_api`'s handling of the server's reply.

  The network is a given function: `health` for the GET of `/api/health`,
  `send` for the POST of `/api/v1/recognize`. Python's `str()` of a
  non-string value is a given `render` function.

Methods model the code that changes state step by step:

- `ExtractText`, `AppendBlockLines`, `GroupWords`, `AppendKeyLines`,
  `ExtractTextWithPositions`, `IsSearchablePdf`, `FindTextByPatterns` and
  `ProcessReceiptPdf` in the PDF processor;
- the `ReceiptRecognizerClient` constructor, `Create`, `ValidateResult`,
  `ProcessPdfLocally`, `SendToApi` and `Recognize` in the client.

Each method is proved equal to a specification function. The properties
are proved about those functions.

### Where the code, its comments and its tests disagree

The model follows the code in each case:

- **Local mode.** With no URL, the client enters local mode
  (receipt_recognizer/client.py:43-45). It does not reject a missing URL,
  which tests/test_client.py:20 expects.
- **`ValidationError` is not a `ValueError`.** It derives from
  `ReceiptRecognizerError` and so from `Exception`
  (receipt_recognizer/exceptions.py:16), whereas tests/test_client.py:167
  expects a `ValueError`.
- **A version mismatch is fatal at construction.** `check_compatibility`
  raises a plain `Exception`, not `VersionMismatchError`
  (receipt_recognizer/version.py:34). The `except VersionMismatchError` of
  `_check_connection` (receipt_recognizer/client.py:201) therefore never
  catches it, and the mismatch escapes from the constructor. This includes
  a server that reports no version, which is read as `"0.0.0"`
  (`Client.UnversionedServerRejected`). The handler's own comment
  (receipt_recognizer/client.py:202) says a mismatch should only be logged,
  and its `warnings.warn` (receipt_recognizer/client.py:203-207) would issue
  a warning instead of failing; neither is reached.
- **The mapped `amount` is the raw extracted string**
  (receipt_recognizer/client.py:109). It is not converted to a number.

## Model

| member | source | states |
|---|---|---|
| Exceptions.Parent | receipt_recognizer/exceptions.py:6-36 | every class but `Exception` has a base class one level closer to `Exception` |
| Exceptions.EveryErrorIsAnException | receipt_recognizer/exceptions.py:6-36 | every error class is a subclass of `Exception` |
| Exceptions.IsATransitive | receipt_recognizer/exceptions.py:6-36 | `issubclass` is transitive over the hierarchy |
| Exceptions.Hierarchy | receipt_recognizer/exceptions.py:6-36 | `APIError`, `ValidationError`, `VersionMismatchError` and `DeprecatedClientError` derive from `ReceiptRecognizerError`, which derives from `Exception`; `ValidationError` is not a `ValueError` |
| Exceptions.MismatchMessage | receipt_recognizer/exceptions.py:27-30 | a non-empty message is kept verbatim; an empty one becomes "Version mismatch: client=C, server=S. Please update your client library."; the result is never empty |
| Exceptions.MismatchMessageNamesVersions | receipt_recognizer/exceptions.py:27-30 | the default message contains both versions, and choosing the message again from the chosen one keeps it |
| Exceptions.VersionMismatch.constructor | receipt_recognizer/exceptions.py:24-31 | both versions are stored unchanged, `message` is the chosen message, and `str(e)` equals `self.message` |
| Exceptions.VersionMismatch.AsError | receipt_recognizer/exceptions.py:21-31 | the raised error is a `VersionMismatchError`, a `ReceiptRecognizerError`, and carries the single argument as its text |
| Constants.BaseFieldsExact | receipt_recognizer/constants.py:7-20 | `BASE_FIELDS` is exactly `[source, destination, amount, fee, date]`: five names, pairwise distinct |
| Constants.DescriptionsCoverSchema | receipt_recognizer/constants.py:23-29 | `BASE_FIELDS_DESC` has exactly one entry per base field, and the `source` and `amount` descriptions are the documented texts |
| Constants.MissingFields | receipt_recognizer/client.py:216-220 | a field is in the list exactly when it is one of the checked fields and is absent or `None`; the list keeps the fields' order |
| Constants.MissingListFacts | receipt_recognizer/client.py:216-220 | the field-by-field scan collects exactly the missing fields, in order |
| Constants.MissingFieldsAppend | receipt_recognizer/client.py:218-220 | scanning a concatenation gives the missing fields of each part, one after the other |
| Constants.MissingFieldsSnoc | receipt_recognizer/client.py:218-220 | checking one more field appends it exactly when it is missing |
| Constants.NothingMissing | receipt_recognizer/client.py:222 | the list is empty exactly when no checked field is missing |
| Constants.SubsequenceUnique | receipt_recognizer/client.py:218-220 | two order-preserving selections from a list without repeats that hold the same fields are equal |
| Constants.SubsequenceIn | receipt_recognizer/client.py:218-220 | an order-preserving selection holds only elements of the list it is taken from |
| Constants.MissingBaseFieldsDetermined | receipt_recognizer/client.py:218-224 | any list of exactly the missing base fields in schema order is the list `_validate_result` builds |
| Version.Major | receipt_recognizer/version.py:30-31 | `v.split('.')[0]` is the dot-free prefix of `v` that ends at the first '.' or at the end |
| Version.MajorCharacterized | receipt_recognizer/version.py:30-31 | any dot-free prefix ending at a '.' or at the end of `v` is the major segment |
| Version.MajorOfDotted | receipt_recognizer/version.py:30-31 | a version without '.' is its own major; `a.rest` has major `a` |
| Version.IncompatibleMessageNamesMajors | receipt_recognizer/version.py:34-38 | the mismatch message contains both majors |
| Version.CheckCompatibility | receipt_recognizer/version.py:15-40 | `True` exactly when the majors are equal; otherwise a plain `Exception` whose message names both majors |
| Version.CompatibilityIsSymmetric | receipt_recognizer/version.py:33 | compatibility is reflexive and symmetric |
| Version.MinorAndPatchIgnored | receipt_recognizer/version.py:30-33 | versions with the same major are compatible whatever follows the first '.' |
| Version.Examples | receipt_recognizer/version.py:15-40 | "1.0.0" and "1.9.3" are compatible, "1.0.0" and "2.0.0" are not, "2" and "2.5" are |
| Version.MismatchIsNotAVersionMismatchError | receipt_recognizer/version.py:34 | the mismatch error is neither a `VersionMismatchError` nor a `ReceiptRecognizerError`, so `except VersionMismatchError` cannot catch it |
| Core.ExtractField | receipt_recognizer/core.py:76-81 | the value of the first key, in argument order, present in the data, even when that value is `None`; `None` when no key is present |
| Core.ExtractNumericField | receipt_recognizer/core.py:83-91 | `None` when no key is present or the found value is `None`; otherwise `float()` of the found value: floats as they are, booleans as 1.0 and 0.0, strings by the float parser, and `None` where `float()` raises `ValueError` or `TypeError` |
| Core.ExtractDateField | receipt_recognizer/core.py:93-101 | `None` exactly when no value is found; the ISO string of a datetime; `str(value)` of any other value, which is the string itself for a string |
| Core.Standardized | receipt_recognizer/core.py:60-67 | the record has exactly the five base fields and `_raw`, each field taken from its fixed alias list in order |
| Core.ListReprNamesItems | receipt_recognizer/core.py:72 | every missing field appears in the message built from `str(missing_fields)` |
| Core.StandardizeResult | receipt_recognizer/core.py:53-74 | success exactly when every base field of the record is not `None`, with the record itself; otherwise `ValueError` whose message names every missing field |
| Core.ValidateFields | receipt_recognizer/core.py:103-105 | true exactly when no base field is missing |
| Core.NoneAliasShadowsLater | receipt_recognizer/core.py:61 | `sender: None` hides a later `source`, so no source is extracted |
| Values.JoinHasParts | receipt_recognizer/client.py:224 | every part occurs in the joined text |
| Values.StripEnds | receipt_recognizer/pdf_processor.py:38 | a non-empty stripped text neither starts nor ends with whitespace |
| Values.StripShape | receipt_recognizer/pdf_processor.py:38 | the stripped text is a slice of the text and what is dropped on either side is whitespace |
| Values.StripEmpty | receipt_recognizer/pdf_processor.py:39 | the stripped text is empty exactly when the text is all whitespace |
| Values.LowerChar | receipt_recognizer/pdf_processor.py:194 | the ASCII capitals A-Z and the Cyrillic capitals U+0400-U+042F map to their small letters; the result is never one of those capitals, and any other character is unchanged |
| Values.Lower | receipt_recognizer/pdf_processor.py:194 | the model's lower-casing keeps the length, leaves none of the ASCII capitals A-Z or the Cyrillic capitals U+0400-U+042F in the text and keeps every other character |
| Values.LowerInfix | receipt_recognizer/pdf_processor.py:194-202 | if `sub` occurs in `s`, then `sub.lower()` occurs in `s.lower()` |
| Values.DecimalString | receipt_recognizer/client.py:168 | `str(n)` of a status code is a minus sign when negative followed by decimal digits that denote `abs(n)` |
| Values.DigitString | receipt_recognizer/client.py:168 | the digits of a natural number denote that number, and only "0" starts with '0' |
| Sorting.SortCorrect | receipt_recognizer/pdf_processor.py:35 | for a total preorder, the sort is ordered, is a permutation, and keeps elements with equal keys in input order, as Python's stable sort does |
| Sorting.DistinctPermutation | receipt_recognizer/pdf_processor.py:83 | a permutation of a list without repeats has none |
| PdfProcessor.BlockOrderIsPreorder | receipt_recognizer/pdf_processor.py:35 | the `(y0, x0)` key order is a total preorder |
| PdfProcessor.SortedBlocksOrdered | receipt_recognizer/pdf_processor.py:35 | a page's blocks come out ordered by `(y0, x0)`, as a permutation, with equal keys in their original order |
| PdfProcessor.BlockLines | receipt_recognizer/pdf_processor.py:37-40 | no kept text is empty, and there are at most as many as blocks |
| PdfProcessor.DocLinesNonEmpty | receipt_recognizer/pdf_processor.py:30-42 | no joined part is empty, and there is at most one part per block |
| PdfProcessor.AppendBlockLines | receipt_recognizer/pdf_processor.py:37-40 | the inner loop appends the stripped, non-empty block texts of one page |
| PdfProcessor.ExtractText | receipt_recognizer/pdf_processor.py:16-45 | pages in order, blocks sorted, empty ones dropped, joined with "\n"; an unreadable document raises "Error extracting text from PDF: ..." |
| PdfProcessor.Positioned | receipt_recognizer/pdf_processor.py:74-80 | a word record keeps the text, `x = x0`, `y = y0`, and `width`, `height` recover `x1`, `y1` |
| PdfProcessor.YKeys | receipt_recognizer/pdf_processor.py:70 | every word's y-key is a key of the page |
| PdfProcessor.YKeysCarried | receipt_recognizer/pdf_processor.py:70-72 | every key of the page is some word's y-key |
| PdfProcessor.KeyOrder | receipt_recognizer/pdf_processor.py:71-72 | the dict's keys, each once, exactly the y-keys of the words |
| PdfProcessor.Groups | receipt_recognizer/pdf_processor.py:64-80 | the `lines` dict has exactly the y-keys as keys |
| PdfProcessor.WordsAtAbsent | receipt_recognizer/pdf_processor.py:71-74 | a key no word carries has no words |
| PdfProcessor.GroupsHoldWordsAt | receipt_recognizer/pdf_processor.py:64-80 | each key holds the records of its words in page order |
| PdfProcessor.GroupWords | receipt_recognizer/pdf_processor.py:64-80 | the grouping loop builds exactly that dict and that key order |
| PdfProcessor.WordsAtMembers | receipt_recognizer/pdf_processor.py:70-80 | a key's words are the records of exactly the words with that y-key |
| PdfProcessor.LineWordsOrdered | receipt_recognizer/pdf_processor.py:85 | a line's words are sorted by `x`, a permutation of its key's words, equal `x` in page order |
| PdfProcessor.SortedKeysAscending | receipt_recognizer/pdf_processor.py:83 | the page's y-keys are visited in strictly ascending order |
| PdfProcessor.BuildLine | receipt_recognizer/pdf_processor.py:85-94 | one key yields its sorted words and their joined text, and is kept exactly when that text is not blank |
| PdfProcessor.AppendKeyLines | receipt_recognizer/pdf_processor.py:83-94 | the second inner loop appends one line per key whose text is not blank |
| PdfProcessor.ExtractTextWithPositions | receipt_recognizer/pdf_processor.py:48-99 | the positioned lines of every page in order; an unreadable document raises the extraction error |
| PdfProcessor.KeyLinesKeys | receipt_recognizer/pdf_processor.py:89-94 | each line carries its page index and one of the keys |
| PdfProcessor.KeyLinesContent | receipt_recognizer/pdf_processor.py:85-94 | each line holds its key's words sorted by `x` and their space-joined text, which is not blank |
| PdfProcessor.KeyLinesComplete | receipt_recognizer/pdf_processor.py:83-94 | every key whose text is not blank gets a line |
| PdfProcessor.KeyLineKey | receipt_recognizer/pdf_processor.py:88-94 | one key yields at most one line, carrying that key |
| PdfProcessor.KeyLinesAscending | receipt_recognizer/pdf_processor.py:83-94 | strictly ascending keys give lines in strictly ascending `y_position` |
| PdfProcessor.PageLinesKeys | receipt_recognizer/pdf_processor.py:89-94 | a page's lines carry its index and one of its y-keys |
| PdfProcessor.PageLinesContent | receipt_recognizer/pdf_processor.py:85-94 | a line's words are its key's words sorted by `x`, its text their texts joined by single spaces, not blank |
| PdfProcessor.PageLinesAscending | receipt_recognizer/pdf_processor.py:83 | a page's lines come in strictly ascending y-key |
| PdfProcessor.PageLinesComplete | receipt_recognizer/pdf_processor.py:83-94 | every y-key whose text is not blank has a line |
| PdfProcessor.PositionedLinesMember | receipt_recognizer/pdf_processor.py:59-94 | a line of the document is exactly a line of the page its index names |
| PdfProcessor.PositionedLinesOrdered | receipt_recognizer/pdf_processor.py:59-94 | the document's lines are ordered by page, then strictly by y-key |
| PdfProcessor.FirstPages | receipt_recognizer/pdf_processor.py:115 | `doc[:3]` is the first three pages, or all when fewer |
| PdfProcessor.IsSearchablePdf | receipt_recognizer/pdf_processor.py:102-122 | true exactly when the stripped text of the first three pages is longer than 50 characters; false for a document that cannot be opened |
| PdfProcessor.SearchableIgnoresLaterPages | receipt_recognizer/pdf_processor.py:115 | pages after the third never change the verdict |
| PdfProcessor.ConcatAllSpace | receipt_recognizer/pdf_processor.py:116 | whitespace pages concatenate to whitespace |
| PdfProcessor.SearchableHasText | receipt_recognizer/pdf_processor.py:115-119 | a searchable document has more than 50 characters in its first three pages, and one of those pages is not blank |
| PdfProcessor.Names | receipt_recognizer/pdf_processor.py:139 | the field names, in order |
| PdfProcessor.PatternResultsKeys | receipt_recognizer/pdf_processor.py:139-145 | the result has exactly the pattern keys |
| PdfProcessor.PatternResultsValues | receipt_recognizer/pdf_processor.py:139-145 | each value is its own pattern's search: `None` on no match, group 1 when the pattern has groups, else the whole match |
| PdfProcessor.PatternResultsSnoc | receipt_recognizer/pdf_processor.py:139-145 | one more pattern adds its field's value |
| PdfProcessor.FindTextByPatterns | receipt_recognizer/pdf_processor.py:125-147 | the text first (an unreadable document raises), then one search per pattern into the result dict |
| PdfProcessor.ReceiptFields | receipt_recognizer/pdf_processor.py:151-158 | `RECEIPT_PATTERNS` yields exactly the six fields amount, card_number, date, time, operation_id, commission, each from its own pattern |
| PdfProcessor.DetectBankIsFirstMatch | receipt_recognizer/pdf_processor.py:195-202 | the if/elif chain is the first-match lookup over Sberbank, Tinkoff, Alfa-Bank, VTB |
| PdfProcessor.PairMarkers | receipt_recognizer/pdf_processor.py:195-199 | a two-marker test matches exactly when one of its markers occurs |
| PdfProcessor.FirstBankFirst | receipt_recognizer/pdf_processor.py:195-202 | no bank exactly when no entry's marker occurs; otherwise the bank of the first entry with a marker |
| PdfProcessor.FirstMarkerWins | receipt_recognizer/pdf_processor.py:195-196 | a text with both "sber" and "alfa" is a Sberbank receipt |
| PdfProcessor.LatinVtbNotRecognised | receipt_recognizer/pdf_processor.py:201 | the Latin "vtb" is not a VTB marker |
| PdfProcessor.BankDetectionIgnoresCase | receipt_recognizer/pdf_processor.py:194-196 | a Sberbank marker in any case in the text is detected |
| PdfProcessor.WordValues | receipt_recognizer/pdf_processor.py:93 | one word record per word |
| PdfProcessor.LineValues | receipt_recognizer/pdf_processor.py:89-94 | one line record per line |
| PdfProcessor.ReceiptRecordKeys | receipt_recognizer/pdf_processor.py:182-202 | the record holds the text, lines and flag; with patterns, "extracted", and "bank" only when a bank was detected |
| PdfProcessor.ReceiptRecordBankKey | receipt_recognizer/pdf_processor.py:194-202 | with patterns, "bank" is a key exactly when a bank was detected |
| PdfProcessor.ReceiptRecordNoError | receipt_recognizer/pdf_processor.py:182-204 | a successful record never has an "error" key |
| PdfProcessor.ReceiptRecordBase | receipt_recognizer/pdf_processor.py:182-186 | `full_text`, `positioned_text` and `is_searchable` hold the text, the line records and the flag |
| PdfProcessor.ReceiptRecordValues | receipt_recognizer/pdf_processor.py:189-202 | with patterns, "extracted" holds the pattern results and `get('bank')` the detected bank or `None` |
| PdfProcessor.ReceiptDataError | receipt_recognizer/pdf_processor.py:206-210 | the record has an error exactly when the document cannot be opened, and then it is exactly `{error, success: False}` |
| PdfProcessor.ProcessReceiptPdf | receipt_recognizer/pdf_processor.py:161-210 | the method's successive updates build the receipt record of the document |
| PdfProcessor.ReceiptDataWithPatterns | receipt_recognizer/pdf_processor.py:189-202 | with patterns, a readable document's record has no error, the six pattern results and the detected bank |
| PdfProcessor.ReceiptDataBankKey | receipt_recognizer/pdf_processor.py:194-202 | with patterns, no "bank" key unless a marker occurs |
| PdfProcessor.ReceiptDataWithoutPatterns | receipt_recognizer/pdf_processor.py:182-189 | without patterns, no pattern search and no bank detection: only the text, the lines and the flag |
| Client.RStripSlash | receipt_recognizer/client.py:36 | `rstrip('/')` gives a prefix not ending in '/', and removes only slashes |
| Client.RStripSlashIdempotent | receipt_recognizer/client.py:36 | stripping twice strips nothing more |
| Client.CheckConnection | receipt_recognizer/client.py:183-212 | fails exactly on a 200 reply whose version's major differs from the client's, with a plain `Exception`; network failures and other statuses pass |
| Client.UnversionedServerRejected | receipt_recognizer/client.py:197-200 | a server that reports no version ("0.0.0") fails the check |
| Client.Construction | receipt_recognizer/client.py:36-53 | local mode exactly without URL; no URL never fails; a URL without a token raises `ValueError`; with both, failure exactly when the connection check fails; settings keep the resolved URL and token, the URL never ends in '/' |
| Client.LastIndex | receipt_recognizer/client.py:72 | the last position of the character, or -1 when it does not occur |
| Client.IsPdfIffEndsInPdf | receipt_recognizer/client.py:72 | a file is a PDF exactly when its name is longer than ".pdf" and ends in ".pdf" in any case |
| Client.EndsInPdf | receipt_recognizer/client.py:72 | such a name has the suffix ".pdf" |
| Client.SplitAtTAfter | receipt_recognizer/client.py:235 | a date without 'T' splits back from the combined stamp |
| Client.CombineDateTimeSplits | receipt_recognizer/client.py:227-236 | `None` exactly when the date is missing or empty; otherwise, for a date without 'T', the stamp splits at its first 'T' into the date and the time, or is the date alone when the time is missing or empty |
| Client.LocalFromRecordTags | receipt_recognizer/client.py:96-117 | source "pdf", not scanned, success exactly when there is no "error"; the mapping only with pattern results |
| Client.MappedFromFound | receipt_recognizer/client.py:106-114 | the mapping has no source or destination, the raw extracted amount, the commission as fee, the combined date, the bank and the raw results |
| Client.LocalSuccessIffSearchable | receipt_recognizer/client.py:85-99 | success, source "pdf", `is_scanned` the opposite of searchable; without searchable text no pattern results appear |
| Client.LocalMapping | receipt_recognizer/client.py:102-117 | for a searchable document the mapping is built from the pattern results and the detected bank |
| Client.ValidationAgreesWithValidateFields | receipt_recognizer/client.py:214-225 | `_validate_result` passes exactly when `validate_fields` is true, that is when every base field is present and not `None` |
| Client.ValidationNamesEveryMissingField | receipt_recognizer/client.py:218-224 | a missing base field makes the check raise `ValidationError` naming it |
| Client.EmptyDataMissesEverything | receipt_recognizer/client.py:174 | a reply without data fails with all five fields named in schema order |
| Client.AllMissingFromEmpty | receipt_recognizer/client.py:218-220 | an empty dict misses every field |
| Client.ApiReturnsOnlyValidData | receipt_recognizer/client.py:165-176 | data comes back only from a 200 reply, is the reply's `data`, and has every base field |
| Client.ApiErrorCarriesServerText | receipt_recognizer/client.py:165-169 | a non-200 reply raises `APIError` whose message contains the server's error text |
| Client.InvalidTokenReply | receipt_recognizer/client.py:165-169 | a 401 with "Invalid token" raises `APIError("API Error 401: Invalid token")` |
| Client.ReceiptRecognizerClient.constructor | receipt_recognizer/client.py:36-47 | the fields hold the given settings and options, and the settings invariant holds |
| Client.ReceiptRecognizerClient.Create | receipt_recognizer/client.py:19-53 | a new client with the settings `Construction` gives, or its exception |
| Client.ReceiptRecognizerClient.RequestFor | receipt_recognizer/client.py:138-152 | the upload goes to `api_url + "/api/v1/recognize"`, field "pdf" exactly for PDFs, with the token and client version headers |
| Client.ReceiptRecognizerClient.RemoteRequestCarriesToken | receipt_recognizer/client.py:149-152 | for a client the constructor accepted, outside local mode the `X-Client-Token` header is a non-empty token, and the request goes to the URL without a trailing slash followed by "/api/v1/recognize" |
| Client.ReceiptRecognizerClient.LocalModeRouting | receipt_recognizer/client.py:75-79 | in local mode a PDF is processed locally whatever `process_pdf_locally` says, and anything else raises `ValueError` |
| Client.ReceiptRecognizerClient.RemoteRouting | receipt_recognizer/client.py:75-79 | with the API and local processing off every file goes to the server, and only validated data comes back |
| Client.ReceiptRecognizerClient.ValidateResult | receipt_recognizer/client.py:214-225 | the loop's outcome is the required-field check |
| Client.ReceiptRecognizerClient.ProcessPdfLocally | receipt_recognizer/client.py:81-126 | the in-place updates give the scanned record or the tagged and mapped receipt record |
| Client.ReceiptRecognizerClient.SendToApi | receipt_recognizer/client.py:128-181 | refused in local mode, otherwise the upload and the handling of the reply |
| Client.ReceiptRecognizerClient.Recognize | receipt_recognizer/client.py:55-79 | the local path exactly for a `.pdf` (any case) when local processing is allowed or in local mode; the API otherwise |

## Left out

- I/O is not modelled. The model leaves out file reading (`open(file_path, 'rb')`), the bytes uploaded, `print` and logging, `warnings.warn`, and the path's existence.
- HTTP transport is not modelled: `requests.get` and `requests.post`, timeouts and SSL verification. The server is a given function from request to reply, and `timeout` and `verify_ssl` are stored but have no effect.
- Invalid JSON is left out. A body that is not valid JSON, and whatever `json.JSONDecodeError` or `requests`' own decode error does with it, depend on the installed `requests` version.
- A reply body that is not an object, or whose `data` member is not an object, is not modelled: the reply carries the `error` and `data` members already decoded.
- A health reply whose `version` member is not a string is not modelled. `check_compatibility` would raise `AttributeError` on it.
- PyMuPDF (`fitz.open`, `page.get_text`) is replaced by the abstract document. Each page gives its blocks, its words and its plain text.
- The four `fitz.open` calls of one `process_receipt_pdf` run are assumed to see the same document.
- A failure partway through a document is not modelled: a document either opens fully or fails with a reason.
- `round(y0, 1)` is not modelled: the word's y-key is given with the word. Coordinates are reals, so float rounding in `x1 - x0` is not modelled.
- `re.search` is a given function from pattern and text to a match outcome. Only the key set and the choice between group 1 and the whole match are specified. An invalid pattern's `re.error`, which `find_text_by_patterns` (receipt_recognizer/pdf_processor.py:140) passes on to its caller, is not modelled; every pattern of `RECEIPT_PATTERNS` is valid.
- `pathlib` normalisation is covered only for slashes. Only trailing slashes and the last component are handled; "." components and Windows separators are not.
- Values.LowerChar, Values.Lower: `str.lower()` is modelled only for the ASCII capitals A-Z and the Cyrillic capitals U+0400-U+042F. Python also lowers the Latin-1 capitals U+00C0-U+00DE, the Latin Extended capitals, Greek, the Cyrillic capitals from U+0460 on and other scripts; the model leaves those unchanged. Python turns U+0130 ('İ') into two characters, so the length is kept only by the model. Python also turns U+212A KELVIN SIGN into ASCII 'k', so a text such as "TIN\u212AOFF" is a Tinkoff receipt at receipt_recognizer/pdf_processor.py:194-198, but `DetectBank(Lower(...))` finds no bank in it.
- `str(value)` of a non-string value and Python's float parser are given functions `render` and `parse`.
- Core.PyFloat: a string is parsed by the given `parse`, so conversion failures are only as precise as that function.
- Core.ExtractNumericField: an int converts to its exact value. Rounding to the nearest double is not modelled, nor the `OverflowError` that `float()` raises for an int of 2**1024 or more; that error would escape, because receipt_recognizer/core.py:90 catches only `ValueError` and `TypeError`.
- The outer `except Exception` of `_process_pdf_locally` (receipt_recognizer/client.py:121-126) is not modelled. In the model nothing inside the `try` can raise: the searchable test and `process_receipt_pdf` both catch their failures.
- core.py's external-library plumbing is not modelled. This covers the constructor, the optional import of `ExternalRecognizer` and `recognize`, which forwards to the external library. Only the normalisation of its result is modelled.
- telegram_integration.py, cli.py and `__init__.py` are not part of this model. They are handlers, argument parsing and import plumbing around the modelled core.
