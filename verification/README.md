# Reportable backend: a Dafny model

Reportable is a FastAPI backend. It turns a workbook of daily well reports into a table of results
through a language model. Around that core it manages uploaded files: object storage holds them, a
Postgres table holds their records and Redis caches them. It also holds the shared building blocks
of the service: the generic SQL and Redis repositories, the JWT claim checks, the character-name and
chat-settings validators, the structured error classes, the cookie-token dependency, the settings
and the project-root search.

This project models that core in Dafny 4.11 as immutable data and pure functions, and proves
properties of the model. The parts the code cannot see are parameters:
- pandas' date parsing;
- the completion call and `json.loads`;
- JWT signature checking;
- object storage;
- the MD5 digest;
- the database's constraint checks;
- the generated UUIDs: the service's `uuid4` names a file's storage path, while the record's `id` is the key the database generates, since `create` drops the schema's `id`.

Each module follows one source file:

| module | models |
|---|---|
| `Analyzer` | `AnalyzerService`: sheet extraction, prompt, per-report processing, result table |
| `FileService` | `FileManagmentService` over a table, a key-value cache and a storage oracle |
| `Repository` | `BaseRepositoryImpl` over a table of rows keyed by UUID |
| `RedisRepo` | `BaseRedisRepository` over a map of keys to stored bytes and expiry |
| `Tokens` | `DecodeAccessTokenService` and `DecodeTokenService` |
| `Characters` | `validate_name` |
| `Chat` | `ChatSettingsBaseSchema` |
| `Errors` | `CoreException` and the shared errors |
| `CoreErrors` | the repository errors |
| `FileErrors` | `FileUploadError` |
| `SchemasBase` | `CookieTokenSchema` and `CreateBaseModel` |
| `Settings` | the settings classes |
| `Paths` | the project-root search and the derived paths |

The helper modules model Python behaviour the code relies on:
- `Wrappers`: `Option` and `Result`;
- `PyStr`: `str.strip`, `split`, `join` and `lower`, with Python's white-space set;
- `Dict`: insertion-ordered `dict`;
- `Sorting`: SQL `ORDER BY` over a list of sort keys, as a sorted rearrangement;
- `PyValue`: JSON-like values with truthiness, `repr` and `json.dumps`;
- `Decimal`: `str(int)` and its parse;
- `Utf8`: strict UTF-8;
- `Uuids`: `uuid.UUID(str)` and its canonical form.

## Model

| member | source | states |
|---|---|---|
| Analyzer.Width | web/backend/reportable-app/reportable_app/apps/analyzer/services/analyzer.py:136-141 | the frame is as wide as its longest row: every row fits in it, some row is exactly that wide, and no rows give width 0 |
| Dict.AssignOrder | web/backend/reportable-app/reportable_app/apps/analyzer/services/analyzer.py:149-163 | after the loop the dict holds the assigned keys, each at the place of its first assignment: assigning a date again changes its text, not its place |
| Analyzer.AllOk | web/backend/reportable-app/reportable_app/apps/analyzer/services/analyzer.py:140-146 | a loop that stops at the first exception: it succeeds exactly when every step does, with every value in order, and otherwise raises the first error |
| Analyzer.SummaryEntry | web/backend/reportable-app/reportable_app/apps/analyzer/services/analyzer.py:140-146 | a summary row raises `KeyError` exactly when column 0, or column 3 under a non-NaN column 0, is missing from the frame; it gives an entry exactly when column 0 is present, not NaN and parses as a date, and the entry holds the stripped column 3 |
| Analyzer.SummaryEntries | web/backend/reportable-app/reportable_app/apps/analyzer/services/analyzer.py:140-146 | one entry per row, in row order |
| Analyzer.Summary | web/backend/reportable-app/reportable_app/apps/analyzer/services/analyzer.py:136-146 | the summary is a dict with unique keys; it raises `KeyError` exactly when some row does |
| Analyzer.SummaryGet | web/backend/reportable-app/reportable_app/apps/analyzer/services/analyzer.py:140-146 | each date of the summary maps to the text of the last row with that date; a date no row carries is absent |
| Analyzer.CellText | web/backend/reportable-app/reportable_app/apps/analyzer/services/analyzer.py:152-156 | a cell adds at most one piece to a sheet's text |
| Analyzer.TextCellsAppend | web/backend/reportable-app/reportable_app/apps/analyzer/services/analyzer.py:152-156 | the text of a sheet is built cell by cell: the text of a concatenation is the concatenation of the texts |
| Analyzer.TextCellsClean | web/backend/reportable-app/reportable_app/apps/analyzer/services/analyzer.py:152-156 | each piece of sheet text is a non-blank, already stripped string that comes from a string cell |
| Analyzer.ReportEntry | web/backend/reportable-app/reportable_app/apps/analyzer/services/analyzer.py:157-163 | a sheet gives a report exactly when its name parses as a date; the report is keyed by that date and holds the summary text and the sheet text |
| Analyzer.ReportEntries | web/backend/reportable-app/reportable_app/apps/analyzer/services/analyzer.py:150-163 | one entry for each sheet from the third on, in sheet order |
| Analyzer.ExtractReports | web/backend/reportable-app/reportable_app/apps/analyzer/services/analyzer.py:131-165 | fewer than three sheets is exactly the `ValueError` of too few sheets; otherwise extraction fails exactly when the summary does; the reports have unique dates and number at most the dated sheets |
| Analyzer.LastSheetFor | web/backend/reportable-app/reportable_app/apps/analyzer/services/analyzer.py:150-163 | the last sheet from the third on that is dated `date`: none is later, and when there is none no such sheet exists |
| Analyzer.ReportEntryKey | web/backend/reportable-app/reportable_app/apps/analyzer/services/analyzer.py:157-160 | a sheet's entry carries `date` exactly when the sheet's name parses as `date` |
| Analyzer.ReportEntriesKeys | web/backend/reportable-app/reportable_app/apps/analyzer/services/analyzer.py:150-160 | entry `i` carries `date` exactly when sheet `i + 2` is dated `date` |
| Analyzer.LastForSheets | web/backend/reportable-app/reportable_app/apps/analyzer/services/analyzer.py:150-163 | in entries that line up with the dated sheets, the last entry for `date` sits at the last sheet dated `date` |
| Analyzer.ExtractReportsValue | web/backend/reportable-app/reportable_app/apps/analyzer/services/analyzer.py:131-165 | a successful extraction had at least three sheets and a good summary, and assigns the entries of the later sheets in order |
| Analyzer.ExtractReportsGet | web/backend/reportable-app/reportable_app/apps/analyzer/services/analyzer.py:150-163 | the reports hold exactly the dates of the later sheets whose names parse; each holds the body built from the last sheet with that date; the first two sheets never give a report |
| Analyzer.TooFewSheetsRefused | web/backend/reportable-app/reportable_app/apps/analyzer/services/analyzer.py:133-134 | a workbook with fewer than three sheets is refused whatever the date parser does |
| Analyzer.CreatePrompt | web/backend/reportable-app/reportable_app/apps/analyzer/services/analyzer.py:167-176 | the prompt is as long as the fixed instructions plus the report |
| Analyzer.CreatePromptEmbeds | web/backend/reportable-app/reportable_app/apps/analyzer/services/analyzer.py:167-176 | the prompt is the fixed head, the report text and the fixed tail, in that order |
| Analyzer.CreatePromptInjective | web/backend/reportable-app/reportable_app/apps/analyzer/services/analyzer.py:167-176 | different reports give different prompts |
| Analyzer.ProcessSingleReport | web/backend/reportable-app/reportable_app/apps/analyzer/services/analyzer.py:112-129 | a report gives a result exactly when the completion returns and its answer is JSON other than `null`; the result is the parsed answer; every failure becomes `None` and none escapes |
| Analyzer.StartEvent | web/backend/reportable-app/reportable_app/apps/analyzer/services/analyzer.py:94-96 | a result is keyed by its start date when that is truthy, else by today's date |
| Analyzer.TableEntry | web/backend/reportable-app/reportable_app/apps/analyzer/services/analyzer.py:85-98 | a `None` result is skipped; a result that is not an object raises `AttributeError`; an unhashable start date raises `TypeError`; an object otherwise adds itself under its key |
| Analyzer.TableEntries | web/backend/reportable-app/reportable_app/apps/analyzer/services/analyzer.py:83-98 | one table step per result, in result order |
| Analyzer.Collect | web/backend/reportable-app/reportable_app/apps/analyzer/services/analyzer.py:83-103 | the table has unique keys and between one entry and one per result; when every result is `None` the call raises the no-results `ValueError` |
| Analyzer.CollectGet | web/backend/reportable-app/reportable_app/apps/analyzer/services/analyzer.py:83-98 | each key of the table holds the last result with that key |
| Analyzer.CollectEmptyIff | web/backend/reportable-app/reportable_app/apps/analyzer/services/analyzer.py:101-103 | the no-results error arises exactly when every result is `None` |
| Analyzer.Dispatch | web/backend/reportable-app/reportable_app/apps/analyzer/services/analyzer.py:71-80 | one result per report, in report order, each the processing of that report's text |
| Analyzer.Analyze | web/backend/reportable-app/reportable_app/apps/analyzer/services/analyzer.py:59-106 | fewer than three sheets is the too-few-sheets error; a table comes only from a successful extraction, with unique keys and at most one entry per report |
| Analyzer.TooFewSheetsNoDispatch | web/backend/reportable-app/reportable_app/apps/analyzer/services/analyzer.py:65-80 | a workbook with fewer than three sheets never reaches the completion call: the outcome does not depend on the oracles |
| Analyzer.AnalyzeNothingProcessed | web/backend/reportable-app/reportable_app/apps/analyzer/services/analyzer.py:59-103 | once the reports are extracted, `analyze` raises the no-results error exactly when every report comes back `None` |
| Characters.ValidateName | web/backend/reportable-app/shared/schemas/characters.py:37-67 | the checks apply in source order: the length error holds exactly for lengths outside 2..21, the blank error exactly for a blank name of good length; an accepted name comes back unchanged, already stripped and without a double space |
| Characters.ClassNotSpace | web/backend/reportable-app/shared/schemas/characters.py:49-50 | among the pattern's characters only the space is white space |
| Characters.DoubleSpaceIff | web/backend/reportable-app/shared/schemas/characters.py:64-65 | containing `"  "` is having two spaces in a row |
| Characters.PatternWhole | web/backend/reportable-app/shared/schemas/characters.py:49-50 | without a trailing newline the pattern accepts exactly the strings written in one class |
| Characters.ValidateNameSound | web/backend/reportable-app/shared/schemas/characters.py:37-67 | an accepted name is well formed: 2 to 21 characters of one alphabet's class, no space at either end, no two spaces in a row |
| Characters.ValidateNameComplete | web/backend/reportable-app/shared/schemas/characters.py:37-67 | every well-formed name is accepted |
| Characters.ValidateNameIff | web/backend/reportable-app/shared/schemas/characters.py:37-67 | `validate_name` accepts exactly the well-formed names |
| Characters.OneClassNotMixed | web/backend/reportable-app/shared/schemas/characters.py:49-57 | a string of one class, maybe with a trailing newline, does not mix the alphabets |
| Characters.MixedScriptsNeverRaised | web/backend/reportable-app/shared/schemas/characters.py:49-57 | the mixed-alphabet error is never raised, because the pattern already rules it out |
| Characters.TrailingNewlineIsEdgeSpace | web/backend/reportable-app/shared/schemas/characters.py:49-61 | a name the pattern lets through only because of a trailing newline is refused one step later as ending in white space |
| Characters.ValidateNameField | web/backend/reportable-app/shared/schemas/characters.py:10-42 | the field's `min_length=2` and `max_length=21` refuse a short or long name first; a name of good length goes to `validate_name` |
| Characters.NameLengthErrorUnreachable | web/backend/reportable-app/shared/schemas/characters.py:10-42 | through the schema the validator's own length error is never raised, and the schema accepts exactly the names the validator accepts |
| Chat.ValidateFontSizeAfter | web/backend/reportable-app/shared/schemas/chat.py:36-40 | the validator accepts exactly 13..16 and returns the value unchanged |
| Chat.ValidateFontSize | web/backend/reportable-app/shared/schemas/chat.py:12-40 | `font_size` is accepted exactly in 13..16; smaller values fail the `ge` bound and larger ones the `le` bound |
| Chat.ValidatorErrorUnreachable | web/backend/reportable-app/shared/schemas/chat.py:12-40 | the validator's own error is never reached, and the field accepts what the validator accepts |
| Chat.ValidateFontSizeIdempotent | web/backend/reportable-app/shared/schemas/chat.py:12-40 | an accepted size validates again to itself |
| Chat.Flags | web/backend/reportable-app/shared/schemas/chat.py:9-33 | the schema has eighteen flags |
| Chat.Defaults | web/backend/reportable-app/shared/schemas/chat.py:5-33 | the default settings belong to the given character |
| Chat.DefaultsShape | web/backend/reportable-app/shared/schemas/chat.py:9-33 | by default a flag is on exactly when it is one of `chat_enabled`, `filter_system_messages`, `show_journal`, `show_bell` and `show_lastic`; the default font size is 13, which validates |
| Errors.ExtrasOrEmpty | web/backend/reportable-app/shared/exceptions.py:34 | absent extras read as the empty dict; given ones are kept |
| Errors.Make | web/backend/reportable-app/shared/exceptions.py:10-34 | the fields are kept as given; a falsy `error_type` falls back to the class name; absent extras become empty |
| Errors.ToDict | web/backend/reportable-app/shared/exceptions.py:36-43 | the payload has unique keys `detail`, `error_code` and `error_type` with the error's values, and `extras` exactly when extras is non-empty |
| Errors.FromDict | web/backend/reportable-app/shared/exceptions.py:36-43 | a payload read back had the three mandatory keys |
| Errors.FromToDict | web/backend/reportable-app/shared/exceptions.py:36-43 | the payload loses nothing but the status code and the headers |
| Errors.ToString | web/backend/reportable-app/shared/exceptions.py:45-51 | the printed form starts with the header and the detail and adds `, extras=` and the repr of the dict exactly when extras is non-empty |
| PyValue.ZeroWidthSpaceRepr | web/backend/reportable-app/shared/exceptions.py:51 | `repr` of extras spells the zero-width space out as `\u200b` |
| Errors.ToStringShowsStatus | web/backend/reportable-app/shared/exceptions.py:45-51 | two errors that differ only in status code print differently |
| Errors.ToStringParts | web/backend/reportable-app/shared/exceptions.py:48-51 | the printed form is the type, the code in brackets, the status in parentheses, then the detail |
| Errors.InvalidToken | web/backend/reportable-app/shared/exceptions.py:54-72 | `InvalidTokenError` is 401 of its own type, with the given detail, code, headers and extras |
| Errors.PermissionDenied | web/backend/reportable-app/shared/exceptions.py:74-92 | `PermissionDeniedError` is 403 of its own type, with the given detail, code, headers and extras |
| Errors.CharacterIsNotOnline | web/backend/reportable-app/shared/exceptions.py:94-125 | 403 `CHARACTER_NOT_ONLINE`; an explicit detail wins, else the message names the character when given; the character id is added to the extras and no other key changes |
| Errors.NotOnlineDetail | web/backend/reportable-app/shared/exceptions.py:106-110 | an explicit detail is kept; otherwise the detail is `Character '<id>' is not online` when a character is given, with the id at offset 11, and the generic message when none is |
| Errors.NotOnlineExtras | web/backend/reportable-app/shared/exceptions.py:112-116 | the extras gain `character_id` when one is given; every other key reads as in the caller's extras |
| CoreErrors.ModelNotFound | web/backend/reportable-app/reportable_app/core/utils/exceptions.py:10-42 | 404 `MODEL_NOT_FOUND`; the detail names the model and the id when given; the extras carry `resource` and `id`, and keys stay unique |
| CoreErrors.Put3 | web/backend/reportable-app/reportable_app/core/utils/exceptions.py:60-65 | `dict.update` with three distinct keys: they read as given, every other key as before, and keys stay unique |
| CoreErrors.Put1 | web/backend/reportable-app/reportable_app/core/utils/exceptions.py:182-183 | setting one key: it reads as given and every other key as before |
| CoreErrors.ModelFieldNotFound | web/backend/reportable-app/reportable_app/core/utils/exceptions.py:45-77 | 404 `MODEL_FIELD_NOT_FOUND` with the detail naming model, field and value, and those three in extras |
| CoreErrors.ModelAlreadyExists | web/backend/reportable-app/reportable_app/core/utils/exceptions.py:101-133 | 409 `MODEL_ALREADY_EXISTS` with the detail naming model, field and message, and those three in extras |
| CoreErrors.Validation | web/backend/reportable-app/reportable_app/core/utils/exceptions.py:136-166 | 422 with the given code; the detail shows the field with `str`; `field` and `message` are in extras |
| CoreErrors.SortingFieldNotFound | web/backend/reportable-app/reportable_app/core/utils/exceptions.py:169-193 | 400 `SORTING_FIELD_NOT_FOUND` naming the field in detail and extras |
| CoreErrors.FileNotFound | web/backend/reportable-app/reportable_app/core/utils/exceptions.py:196-220 | 404 `FILE_NOT_FOUND` with detail `File <path> not found.` and the path in extras |
| CoreErrors.ExternalService | web/backend/reportable-app/reportable_app/core/utils/exceptions.py:223-255 | the given status, code and detail; service, method and endpoint added to extras, every other key kept |
| CoreErrors.ExternalServiceOf | web/backend/reportable-app/reportable_app/core/utils/exceptions.py:258-380 | each external-service subclass has its own status, code and default detail, keeps the type `ExternalServiceError` and adds the service, method and endpoint |
| CoreErrors.ExternalKindsDistinct | web/backend/reportable-app/reportable_app/core/utils/exceptions.py:258-380 | different subclasses have different status codes and different error codes |
| FileErrors.FileUploadError | web/backend/reportable-app/reportable_app/apps/files/exceptions.py:5-29 | 500 `FILE_NOT_UPLOAD` of type `FileNotUpload`, detail `File <name> not upload.`, `filename` added to extras and every other key kept |
| FileService.NewConfig | web/backend/reportable-app/reportable_app/apps/files/services/file_managment_service.py:57-66 | the service keeps its storage root, its storage oracles (the signed URL and the exception raised instead) and its cache time, thirty minutes unless given |
| FileService.OrElse | web/backend/reportable-app/reportable_app/apps/files/services/file_managment_service.py:88 | `x or fallback`: a non-empty value wins |
| FileService.ReadOf | web/backend/reportable-app/reportable_app/apps/files/services/file_managment_service.py:104-107 | the answer carries every field of the record but its path, and the URL |
| FileService.GetExtension | web/backend/reportable-app/reportable_app/apps/files/services/file_managment_service.py:345-352 | `.jpg` for a missing or empty name or one without a dot; otherwise a dot followed by lower-case text with no dot |
| FileService.ExtensionAfterLastDot | web/backend/reportable-app/reportable_app/apps/files/services/file_managment_service.py:349-351 | the extension is the lower-cased text after the last dot, whatever precedes it |
| FileService.PhotoPathParts | web/backend/reportable-app/reportable_app/apps/files/services/file_managment_service.py:342-343 | a storage path is the root, `/`, the sub-directory, `/`, the 36-character id and the extension |
| FileService.PhotoPathInjective | web/backend/reportable-app/reportable_app/apps/files/services/file_managment_service.py:342-343 | files with different ids never share a path in one sub-directory |
| FileService.CacheKeysDistinct | web/backend/reportable-app/reportable_app/apps/files/services/file_managment_service.py:355-361 | a URL key and a record key never coincide, and record keys tell ids apart |
| FileService.UrlCacheKeyInjective | web/backend/reportable-app/reportable_app/apps/files/services/file_managment_service.py:355-357 | with an injective digest, different paths have different URL keys |
| FileService.GetFileUrl | web/backend/reportable-app/reportable_app/apps/files/services/file_managment_service.py:150-164 | a truthy cached URL is returned without asking storage; on a miss storage is asked once: the exception it raises propagates with the cache untouched, and a URL it signs is cached for `ttl` |
| FileService.GetFileUrlTwice | web/backend/reportable-app/reportable_app/apps/files/services/file_managment_service.py:150-164 | after a miss has cached a non-empty URL, the next lookup is answered from the cache with the same URL |
| FileService.CacheFileUrl | web/backend/reportable-app/reportable_app/apps/files/services/file_managment_service.py:363-366 | the URL is stored under the path's URL key with the service's time limit |
| FileService.CacheFileData | web/backend/reportable-app/reportable_app/apps/files/services/file_managment_service.py:368-373 | the record's JSON text is stored under its record key |
| FileService.CacheFileDataKeepsUrls | web/backend/reportable-app/reportable_app/apps/files/services/file_managment_service.py:368-373 | caching a record leaves every URL entry as it was |
| FileService.InvalidateFileCache | web/backend/reportable-app/reportable_app/apps/files/services/file_managment_service.py:412-420 | both of the record's entries are gone and nothing else changes |
| FileService.SoundGetFileUrl | web/backend/reportable-app/reportable_app/apps/files/services/file_managment_service.py:150-164 | from a cache that holds only signed URLs, the lookup answers the signed URL of the path when it is cached or storage signs it, and otherwise raises storage's exception; the cache stays so |
| FileService.SoundCacheFileData | web/backend/reportable-app/reportable_app/apps/files/services/file_managment_service.py:368-373 | caching a record keeps a cache of signed URLs so |
| FileService.SoundInvalidate | web/backend/reportable-app/reportable_app/apps/files/services/file_managment_service.py:412-420 | dropping a record's entries keeps a cache of signed URLs so |
| FileService.Publish | web/backend/reportable-app/reportable_app/apps/files/services/file_managment_service.py:96-107 | after storing, the answer is the record with its URL and the record is cached; a failing URL lookup raises its error; the table is untouched either way |
| FileService.ContentRecord | web/backend/reportable-app/reportable_app/apps/files/services/file_managment_service.py:77-94 | the stored record has the database's key as `id`, the path built from the service's uuid, `len(content)` as size and the schema's name or else the given one |
| FileService.CreateFromContent | web/backend/reportable-app/reportable_app/apps/files/services/file_managment_service.py:76-107 | a refused upload raises `FileUploadError` and changes nothing; a created record is stored, cached and answered under the key the database generates, with the path built from the service's own uuid, `size` the content length and `filename` the schema's name or the given one |
| FileService.CreateKeepsRow | web/backend/reportable-app/reportable_app/apps/files/services/file_managment_service.py:96-102 | once the insert succeeds the row stays even when the URL lookup or the caching then raises, and a failing lookup raises its error |
| FileService.CreateSignFailure | web/backend/reportable-app/reportable_app/apps/files/services/file_managment_service.py:96-97 | when storage cannot sign the fresh path, `create_from_content` raises storage's exception after the insert, leaving the row and the stored object |
| FileService.Removed | web/backend/reportable-app/reportable_app/apps/files/services/file_managment_service.py:209-213 | an accepted delete leaves no cache entry, no row and no stored object for the file |
| FileService.Delete | web/backend/reportable-app/reportable_app/apps/files/services/file_managment_service.py:204-214 | a missing record is `ModelNotFoundException`; another creator is `FileNotFound` before storage is asked; a refused storage delete answers `False` and changes nothing; otherwise the record and its entries go |
| FileService.Positions | web/backend/reportable-app/reportable_app/apps/files/services/file_managment_service.py:122-123 | the listed positions are below `n` and uploaded |
| FileService.PositionsIncreasing | web/backend/reportable-app/reportable_app/apps/files/services/file_managment_service.py:122-146 | the positions increase, so the answers keep the request order |
| FileService.PositionsNext | web/backend/reportable-app/reportable_app/apps/files/services/file_managment_service.py:122-123 | one more position is appended when it was uploaded, and nothing otherwise |
| FileService.PositionsComplete | web/backend/reportable-app/reportable_app/apps/files/services/file_managment_service.py:122-123 | every uploaded position below `n` is listed |
| FileService.Size | web/backend/reportable-app/reportable_app/apps/files/services/file_managment_service.py:113 | `zip` pairs up as many positions as the shorter list has |
| FileService.BatchRecord | web/backend/reportable-app/reportable_app/apps/files/services/file_managment_service.py:127-135 | a batch record takes its path from the first loop's uuid, its id from the key the database generates, and its name, content type (or the default) and size from the upload |
| FileService.StoreOne | web/backend/reportable-app/reportable_app/apps/files/services/file_managment_service.py:136-146 | one record is inserted and published; once inserted the row stays even when publishing then raises, and a failing URL lookup raises its error |
| FileService.StoredAppend | web/backend/reportable-app/reportable_app/apps/files/services/file_managment_service.py:122-146 | storing one more uploaded position keeps what was stored and adds its record |
| FileService.StoredSkip | web/backend/reportable-app/reportable_app/apps/files/services/file_managment_service.py:122-123 | a position whose upload failed adds nothing |
| FileService.BatchStep | web/backend/reportable-app/reportable_app/apps/files/services/file_managment_service.py:122-146 | one round of the second loop stores an uploaded position under its database key and publishes it, and skips another; a failure after the insert leaves that row in place |
| FileService.CreateBatch | web/backend/reportable-app/reportable_app/apps/files/services/file_managment_service.py:109-148 | storage gains one object per uploaded position; on success every uploaded position of the shorter list is stored and answered, in input order, each answer carries its record's database key, and no other row changes |
| FileService.StoredIds | web/backend/reportable-app/reportable_app/apps/files/services/file_managment_service.py:136-145 | each answered file carries the key the database gave its record, as `created_file` is read back from the insert |
| FileService.UrlsFor | web/backend/reportable-app/reportable_app/apps/files/services/file_managment_service.py:283-315 | one URL per record, in order |
| FileService.SoundUrlsFor | web/backend/reportable-app/reportable_app/apps/files/services/file_managment_service.py:283-315 | from a cache of signed URLs every gathered URL is the signed URL of the record's path, or `""` when storage cannot sign it, and always the signed one when storage signs it |
| FileService.SoundListed | web/backend/reportable-app/reportable_app/apps/files/services/file_managment_service.py:304-329 | from a cache of signed URLs every listed answer carries its path's signed URL, and the listing answers whenever storage signs every path with a non-empty URL |
| FileService.GetByIds | web/backend/reportable-app/reportable_app/apps/files/services/file_managment_service.py:239-329 | an empty id list answers nothing without a query; a failing query answers nothing; otherwise exactly one answer per record found, in table order, unless a record is left with the empty URL, which raises `ValidationError` |
| FileService.Listed | web/backend/reportable-app/reportable_app/apps/files/services/file_managment_service.py:304-326 | each answer is its record with its gathered URL; the listing raises `ValidationError` exactly when some gathered URL is empty |
| FileService.SoundGetByIds | web/backend/reportable-app/reportable_app/apps/files/services/file_managment_service.py:239-329 | from a cache of signed URLs every answer carries the URL storage signs for its path, and it answers whenever storage signs every path with a non-empty URL |
| FileService.UpdateAsWritten | web/backend/reportable-app/reportable_app/apps/files/services/file_managment_service.py:216-226 | `update` as written: a missing record is `ModelNotFoundException`; otherwise the table and the cache are untouched |
| FileService.UpdateAsWrittenFails | web/backend/reportable-app/reportable_app/apps/files/services/file_managment_service.py:219-226 | as written, `update` never succeeds on an existing record: it raises `TypeError` whether or not the upload went through |
| FileService.Updated | web/backend/reportable-app/reportable_app/apps/files/services/file_managment_service.py:222-226 | the given names replace the stored ones; the id, the path and every other field stay |
| FileService.Update | web/backend/reportable-app/reportable_app/apps/files/services/file_managment_service.py:216-237 | `update` as intended: a missing record is `ModelNotFoundException`; a refused upload is `FileUploadError` for the stored name; a success writes exactly the updated row, keeps every other row and answers the freshly signed URL; when storage cannot sign the path, its exception is raised with the updated row already written |
| FileService.Refresh | web/backend/reportable-app/reportable_app/apps/files/services/file_managment_service.py:229-237 | after the cache work the table and storage are untouched; the answer carries the freshly signed URL, or storage's exception is raised when it cannot sign the path |
| Paths.Child | src/utils/paths.py:5 | `path / name` is the path with one more component |
| Paths.Candidates | src/utils/paths.py:4 | the candidates are the path and each of its parents, nearest first |
| Paths.FirstMarked | src/utils/paths.py:4-7 | a found directory is a marked candidate; otherwise `FileNotFoundError` |
| Paths.FindProjectRoot | src/utils/paths.py:3-7 | a found root holds `.git` or `pyproject.toml`; otherwise `FileNotFoundError` |
| Paths.FirstMarkedFirst | src/utils/paths.py:4-7 | the search fails exactly when no candidate is marked and otherwise picks the first marked one |
| Paths.FindProjectRootNearest | src/utils/paths.py:3-7 | the root is the nearest marked ancestor of the start, itself included; the search fails exactly when none is marked |
| Paths.FindProjectRootMarked | src/utils/paths.py:4-6 | a marked start is its own root |
| Paths.DerivedPaths | src/utils/paths.py:11-16 | the data and config paths sit under the root where the constants say, and no two coincide |
| RedisRepo.MakeKey | web/backend/reportable-app/reportable_app/core/repositories/base_redis_repository.py:17-19 | the key itself for an empty prefix, else the prefix, `:` and the key |
| RedisRepo.MakeKeyInjective | web/backend/reportable-app/reportable_app/core/repositories/base_redis_repository.py:17-19 | within one repository different keys never share a Redis key |
| RedisRepo.Serialize | web/backend/reportable-app/reportable_app/core/repositories/base_redis_repository.py:87-100 | strings as themselves; integers in a form that parses back to them; booleans as `True`/`False`; lists and dicts as JSON; `None` as `null` |
| RedisRepo.Deserialize | web/backend/reportable-app/reportable_app/core/repositories/base_redis_repository.py:102-109 | text is kept; bytes decode as strict UTF-8, else `UnicodeDecodeError`; anything else is `TypeError` |
| RedisRepo.Fetch | web/backend/reportable-app/reportable_app/core/repositories/base_redis_repository.py:34 | an absent key reads as `None`; without `decode_responses` the stored bytes come back raw |
| RedisRepo.Set | web/backend/reportable-app/reportable_app/core/repositories/base_redis_repository.py:21-29 | a negative `ttl` is refused; otherwise the key holds the encoded serialised value, with expiry exactly when `ttl` is truthy, and no other key changes |
| RedisRepo.Get | web/backend/reportable-app/reportable_app/core/repositories/base_redis_repository.py:31-39 | an absent key is `None`; a present one is its decoded text |
| RedisRepo.Delete | web/backend/reportable-app/reportable_app/core/repositories/base_redis_repository.py:41-45 | the key is gone, every other key is kept, and the answer says whether the key was there |
| RedisRepo.SetGet | web/backend/reportable-app/reportable_app/core/repositories/base_redis_repository.py:21-39 | a stored value reads back as its serialised text; a string reads back as itself |
| RedisRepo.SetOther | web/backend/reportable-app/reportable_app/core/repositories/base_redis_repository.py:21-39 | storing under one key leaves every other key's reading unchanged |
| RedisRepo.DeleteGet | web/backend/reportable-app/reportable_app/core/repositories/base_redis_repository.py:41-45 | after a delete the key reads as absent, and a second delete removes nothing |
| RedisRepo.Lookup | web/backend/reportable-app/reportable_app/core/repositories/base_redis_repository.py:77-85 | one entry of `get_many` agrees with `get`, except that a falsy reply reads as `None` |
| RedisRepo.FirstFailure | web/backend/reportable-app/reportable_app/core/repositories/base_redis_repository.py:77-85 | there is no failing lookup exactly when every lookup succeeds |
| RedisRepo.GetMany | web/backend/reportable-app/reportable_app/core/repositories/base_redis_repository.py:77-85 | it succeeds exactly when every lookup does; the dict has unique keys, exactly the caller's keys, each holding its own lookup |
| Repository.Get | web/backend/reportable-app/reportable_app/core/repositories/base_repository.py:95-101 | the row with that key, or `ModelNotFoundException` naming the model and the id exactly when there is none |
| Repository.GetOrNone | web/backend/reportable-app/reportable_app/core/repositories/base_repository.py:103-106 | `get` with the not-found case as `None` |
| Repository.GetByIds | web/backend/reportable-app/reportable_app/core/repositories/base_repository.py:108-112 | exactly the rows whose keys are asked for, in storage order |
| Repository.GetAll | web/backend/reportable-app/reportable_app/core/repositories/base_repository.py:114-118 | every row, in storage order |
| Repository.GetByIdsAll | web/backend/reportable-app/reportable_app/core/repositories/base_repository.py:108-118 | asking for every key is asking for the whole table |
| Repository.OrderOf | web/backend/reportable-app/reportable_app/core/repositories/base_repository.py:233-240 | a leading `-` sorts descending on the rest; an empty string is an uncaught `IndexError`; an unknown attribute is `SortingFieldNotFoundError` on the whole sort string |
| Repository.OrderRoundTrip | web/backend/reportable-app/reportable_app/core/repositories/base_repository.py:233-240 | a parsed order renders back to its sort string, and every order on an attribute parses back from its rendering |
| Repository.GetOrderByExpr | web/backend/reportable-app/reportable_app/core/repositories/base_repository.py:231-241 | one order per sort string, in order, or the error of the first string that fails |
| Repository.WordRun | web/backend/reportable-app/reportable_app/core/repositories/base_repository.py:247 | the run of word characters stays within the message |
| Repository.WordRunMaximal | web/backend/reportable-app/reportable_app/core/repositories/base_repository.py:247 | the run is made of word characters and cannot be extended |
| Repository.MatchAt | web/backend/reportable-app/reportable_app/core/repositories/base_repository.py:247-248 | where the pattern `Key \((\w+)\)=` matches, its group is a non-empty run of word characters |
| Repository.FirstMatch | web/backend/reportable-app/reportable_app/core/repositories/base_repository.py:248 | a match found is a match at some position from the start on |
| Repository.FirstMatchAt | web/backend/reportable-app/reportable_app/core/repositories/base_repository.py:248 | the search stops at the leftmost matching position |
| Repository.ExtractFieldName | web/backend/reportable-app/reportable_app/core/repositories/base_repository.py:243-253 | the literal `field_name` when the pattern matches nowhere |
| Repository.ExtractAt | web/backend/reportable-app/reportable_app/core/repositories/base_repository.py:243-253 | where the pattern first matches, its group is the field name |
| Repository.NoParenNoMatch | web/backend/reportable-app/reportable_app/core/repositories/base_repository.py:247 | a message with no `(` never matches |
| Repository.CyrillicFieldName | web/backend/reportable-app/reportable_app/core/repositories/base_repository.py:247-251 | a column named in Cyrillic is made of word characters, so `Key (имя)=` yields the field `имя` |
| Repository.IntegrityToError | web/backend/reportable-app/reportable_app/core/repositories/base_repository.py:167-171 | a uniqueness violation becomes `ModelAlreadyExistsError` on the extracted field; anything else is raised again |
| Repository.PkViolationIsDuplicateId | web/backend/reportable-app/reportable_app/core/repositories/base_repository.py:167-171 | a duplicated primary key is reported as `ModelAlreadyExistsError` on `id`, whatever the table is called |
| Repository.PkMessageIsDuplicateId | web/backend/reportable-app/reportable_app/core/repositories/base_repository.py:243-253 | the duplicate-key message yields the field `id` |
| Repository.Create | web/backend/reportable-app/reportable_app/core/repositories/base_repository.py:156-171 | it succeeds exactly when no constraint is violated and the key is free; a success adds the row under its key and keeps every other row; a violation is mapped as above |
| Repository.CreateTakenId | web/backend/reportable-app/reportable_app/core/repositories/base_repository.py:156-171 | inserting under a taken key is a duplicate `id` |
| Repository.Update | web/backend/reportable-app/reportable_app/core/repositories/base_repository.py:181-201 | an absent key is `ModelNotFoundException`; a success replaces exactly that row and keeps the keys; a violation is mapped as in `create` |
| Repository.BulkCreate | web/backend/reportable-app/reportable_app/core/repositories/base_repository.py:173-179 | nothing to insert answers `[]` without a query; otherwise all rows are added and returned in order, or the insert raises `IntegrityError` unmapped, on a key collision or on any other violated constraint |
| Repository.ApplyUpdates | web/backend/reportable-app/reportable_app/core/repositories/base_repository.py:204-209 | applying the updates in turn keeps the set of keys |
| Repository.ApplyOne | web/backend/reportable-app/reportable_app/core/repositories/base_repository.py:204-209 | one update replaces the row with its key and keeps every other row |
| Repository.ApplyUpdatesOther | web/backend/reportable-app/reportable_app/core/repositories/base_repository.py:204-209 | a key no update names keeps its row |
| Repository.ApplyUpdatesLast | web/backend/reportable-app/reportable_app/core/repositories/base_repository.py:204-209 | the last update naming an existing key decides its row |
| Repository.BulkUpdate | web/backend/reportable-app/reportable_app/core/repositories/base_repository.py:204-209 | nothing to update changes nothing; with updates, a violated constraint raises an unmapped `IntegrityError`; otherwise the keys are unchanged |
| Repository.BulkUpdateRows | web/backend/reportable-app/reportable_app/core/repositories/base_repository.py:204-209 | after `bulk_update` a key no update names keeps its row and an existing key holds the row of its last update |
| Repository.Delete | web/backend/reportable-app/reportable_app/core/repositories/base_repository.py:225-229 | the row is gone, every other row is kept, and the answer is `True` either way |
| Repository.Searched | web/backend/reportable-app/reportable_app/core/repositories/base_repository.py:133-142 | an empty search keeps every row; otherwise the rows kept are exactly those some search column matches, none when no column is given |
| Repository.Paginate | web/backend/reportable-app/reportable_app/core/repositories/base_repository.py:120-152 | without policies, an empty page and count 0; an unknown search column is an `AttributeError`; a page comes only with parsing sort strings and non-negative bounds; it holds the matching rows sorted as the sort strings ask, from `offset` on, at most `limit` of them, and the count is how many match |
| Repository.Window | web/backend/reportable-app/reportable_app/core/repositories/base_repository.py:145 | `LIMIT` and `OFFSET`: at most `limit` rows, the ones after the first `offset` |
| Repository.KeysOf | web/backend/reportable-app/reportable_app/core/repositories/base_repository.py:143-145 | one sort key per parsed order, in the order of the sort strings |
| Repository.CompareFirstOrder | web/backend/reportable-app/reportable_app/core/repositories/base_repository.py:235-238 | an ascending order puts the lower-ranked row first and a descending one the higher-ranked; a tie goes to the next order |
| Repository.PaginateOrdered | web/backend/reportable-app/reportable_app/core/repositories/base_repository.py:143-148 | every page is sorted by the orders, holds some of the table's rows and, for a search, only matching ones |
| Repository.PaginateUnsorted | web/backend/reportable-app/reportable_app/core/repositories/base_repository.py:143-148 | without sort strings a page is a run of the matching rows in storage order |
| Sorting.Sort | web/backend/reportable-app/reportable_app/core/repositories/base_repository.py:145 | `ORDER BY`: the rows rearranged, none lost or added, so that no row sorts before an earlier one |
| SchemasBase.NewCookieTokenSchema | web/backend/reportable-app/shared/schemas/base.py:76-79 | the dependency keeps its cookie name; `auto_error` is on unless given |
| SchemasBase.Call | web/backend/reportable-app/shared/schemas/base.py:81-85 | it raises `InvalidTokenError` exactly when `auto_error` is on and the cookie is missing or empty; otherwise it answers the cookie as found |
| SchemasBase.StrictAgreesWithLenient | web/backend/reportable-app/shared/schemas/base.py:81-85 | a token the strict form returns is a present non-empty cookie, and the lenient form returns the same |
| SchemasBase.LenientNeverRaises | web/backend/reportable-app/shared/schemas/base.py:81-85 | a non-empty cookie passes both forms unchanged |
| SchemasBase.NewCreateBaseModel | web/backend/reportable-app/shared/schemas/base.py:13-20 | the creation contract keeps the id given |
| SchemasBase.CreateBaseModelDefault | web/backend/reportable-app/shared/schemas/base.py:20 | with no id given there is none |
| Settings.NewDb | web/production/backend/reportable-app/reportable_app/settings.py:15-27 | the fields are kept; scheme and provider default to `public` and `postgresql+psycopg_async` |
| Settings.Dsn | web/production/backend/reportable-app/reportable_app/settings.py:29-31 | the DSN is the credentials, `@` and the location |
| Settings.DsnAtSplit | web/production/backend/reportable-app/reportable_app/settings.py:29-31 | when no component has an `@`, splitting the DSN at `@` gives back the credentials and the location |
| Settings.DsnInjective | web/production/backend/reportable-app/reportable_app/settings.py:29-31 | databases that differ in credentials or location have different DSNs |
| Settings.NewJwtSettings | web/production/backend/reportable-app/reportable_app/settings.py:33-40 | the fields are kept as given |
| Settings.JwtDefaults | web/production/backend/reportable-app/reportable_app/settings.py:39-40 | the JWT defaults are `HS256` and 24 |
| Settings.ToConnectionKwargs | web/production/backend/reportable-app/reportable_app/settings.py:75-84 | the kwargs have exactly the seven field names, in order |
| Settings.FromKwargs | web/production/backend/reportable-app/reportable_app/settings.py:75-84 | settings read back find each field under its own name |
| Settings.KwargsKeysUnique | web/production/backend/reportable-app/reportable_app/settings.py:75-84 | no name appears twice in the kwargs |
| Settings.KwargsGets | web/production/backend/reportable-app/reportable_app/settings.py:75-84 | each field is found under its own name with its value |
| Settings.KwargsRoundTrip | web/production/backend/reportable-app/reportable_app/settings.py:75-84 | reading the kwargs back gives the settings again |
| Settings.DecodeCorsOrigins | web/production/backend/reportable-app/reportable_app/settings.py:103-106 | at least one origin, none with a comma, joined back with commas to the input |
| Settings.CorsOriginsRoundTrip | web/production/backend/reportable-app/reportable_app/settings.py:103-106 | origins joined with commas decode back to the same list |
| Settings.DefaultsValues | web/production/backend/reportable-app/reportable_app/settings.py:62-114 | `redis_ttl` is 300 and debug is off; Redis defaults to port 6379 with no password and decoded responses; the database scheme and provider defaults |
| Tokens.ParseRole | web/production/backend/reportable-app/shared/services/tokens_utils.py:58-62 | a role is found exactly when the value is one of the role strings |
| Tokens.ParseRoleValue | web/production/backend/reportable-app/shared/services/tokens_utils.py:58-62 | every role parses back from its value |
| Tokens.ClaimUuid | web/production/backend/reportable-app/shared/services/tokens_utils.py:42-46 | a string that parses is that id; a malformed string is `PermissionDeniedError`; a non-string is an `AttributeError` |
| Tokens.ClaimUuidOfString | web/production/backend/reportable-app/shared/services/tokens_utils.py:42-46 | the canonical form of an id is accepted as that id |
| Tokens.OptionalClaimUuid | web/production/backend/reportable-app/shared/services/tokens_utils.py:48-52 | a falsy claim is no id; a truthy one reads as `ClaimUuid` does |
| Tokens.Timestamp | web/production/backend/reportable-app/shared/services/tokens_utils.py:69 | integers and booleans are seconds; anything else is `TypeError` |
| Tokens.LaxBool | web/production/backend/reportable-app/shared/services/tokens_utils.py:64-73 | pydantic's lax `bool`: booleans as they are, 0 and 1, and the true and false words in any ASCII case; anything else is a `ValidationError` |
| Tokens.Read | web/production/backend/reportable-app/shared/services/tokens_utils.py:31-36 | each claim reads its key, an absent one as `None`, except `is_main`, which defaults to `False` |
| Tokens.CheckClaims | web/production/backend/reportable-app/shared/services/tokens_utils.py:38-73 | a missing or malformed id, a missing `exp` and an unknown role are each `PermissionDeniedError`; other raised errors come from ill-typed claims; accepted data is the parsed claims |
| Tokens.DecodeAccessToken | web/production/backend/reportable-app/shared/services/tokens_utils.py:28-77 | a token the library rejects is `PermissionDeniedError`; a verified one goes through the claim checks; a missing `is_main` means not main |
| Tokens.DecodeServiceToken | web/production/backend/reportable-app/shared/services/tokens_utils.py:94-111 | the verified payload unchanged exactly when the library accepts token and audience; otherwise `PermissionDeniedError` |
| Tokens.CheckClaimsOk | web/production/backend/reportable-app/shared/services/tokens_utils.py:38-73 | the claim checks pass exactly on claims that are valid one by one |
| Tokens.OptionalClaimUuidOf | web/production/backend/reportable-app/shared/services/tokens_utils.py:48-52 | an optional id written as a claim reads back as that id |
| Tokens.ReadClaims | web/production/backend/reportable-app/shared/services/tokens_utils.py:31-36 | the claims read from an issued payload are its fields |
| Tokens.CheckClaimsAccepts | web/production/backend/reportable-app/shared/services/tokens_utils.py:38-73 | claims that each read as the matching field of the token data are accepted as that data |
| Tokens.CheckClaimsRoundTrip | web/production/backend/reportable-app/shared/services/tokens_utils.py:28-73 | checking the claims of a payload issued for some token data gives that data back |

## Left out

- `AnalyzerService.__init__` and `ExampleAnalyzerService`: they load files; the prompt and the workbook reach the model as values.
- Reading the workbook with pandas is left out: the model takes a workbook as sheets of cells.
- `pd.to_datetime`, the completion call (`_analyze_with_llm`) and `json.loads` are oracle parameters.
- The concurrency of `asyncio.gather` in `analyze` is not modelled. It is a sequential map, and results pair back by index as `gather` pairs them.
- The `Exception` branch of the results loop (analyzer.py:88-90) is not modelled. It cannot be reached, because `_process_single_report` catches everything.
- Table keys of `analyze` compare as Dafny values. Python's `True == 1` hash collision is not modelled.
- Floating-point cells and results are not modelled: numbers are integers.
- Logging and `print` calls change no result and are left out.
- S3 storage and its client are oracles: a set of stored paths, the answer of each upload and delete, and for each path either the URL `get_url` signs or the exception it raises (apps/files/services/file_service.py:144-166).
- SQLAlchemy's SQL text is left out.
- The Redis client is a map from keys to bytes and expiry. Time does not pass, so entries never expire.
- MD5 is a digest parameter; injectivity is assumed only where a lemma's requires says so.
- `BaseRedisRepository.exists`, `expire`, `get_ttl` and `set_many`: not part of the file-service flows modelled here.
- `BaseRepositoryImpl.upsert`: PostgreSQL's `ON CONFLICT` statement, which no modelled operation uses.
- `FileManagmentService.create`: it only reads the upload and delegates to `create_from_content`, which is modelled.
- `FileManagmentService.get`, `get_by_template` and the cache readers `_get_cached_file_data` and `_get_cached_files_data`: they rebuild records from cached JSON through `json.loads` and pydantic, and only `get` uses them.
- The commented-out cache code in `get_by_ids` does not run and is left out.
- `TimestampMixin` and the schemas of `base.py` without logic are left out.
- `ChatSettingsDefaultCreateSchema` and the chat read schemas declare fields only.
- Settings loading from the environment and `.env` is left out, and so are `base_dir` and the LLM and Minio sections.
- JWT signature, expiry and audience checking by `jose` are an oracle: a payload or a refusal.
- Tokens.Timestamp: does not model the platform range of `datetime.fromtimestamp` or float timestamps; every integer is accepted.
- Built-in and pydantic error messages are modelled by their kind. Their texts are approximations.
- FileService.GetExtension, FileService.ExtensionAfterLastDot: `_get_extension` lower-cases ASCII letters and the Cyrillic capitals U+0400 to U+042F only. The rest of Unicode case mapping is not modelled.
- Repository.ExtractFieldName: `\w` is known for ASCII, Latin-1 and the Cyrillic blocks only. A field name with word characters of other scripts (Greek, CJK and so on) does not match in the model.
- Repository.WordRunMaximal: the run is maximal over the same `\w` subset, so it stops early at a word character of another script.
- Repository.MatchAt: the group admits only the same `\w` subset, so a name in another script does not match at that position.
- Repository.ExtractAt: the extracted group is the run over the same `\w` subset.
- Errors.ToString: `repr` escapes the non-printable characters the model lists: controls, separators, format controls, private use, noncharacters, and the unassigned planes 4 to 14 (Unicode 15.0). Other unassigned code points are written as they are.
- FileService.ReadOf: the `url` field is a plain string. `FileReadSchema.url` is an `HttpUrl` (web/production/backend/reportable-app/shared/schemas/files.py:20), and its validation is not modelled, so a URL pydantic would refuse is accepted.
- FileService.GetByIds: of `HttpUrl`'s checks on the answered URLs only the refusal of `""` is modelled. That string is what the source uses when `get_file_url` and then the retry through storage (file_managment_service.py:311) both raise (file_managment_service.py:323-326).
- The `asyncio.gather` of URL lookups in `get_by_ids` (file_managment_service.py:286) is a sequential loop over the records. Each lookup sees the cache the previous one left.
- The error constructors that add keys to `extras` write into the caller's dict in place (core/utils/exceptions.py:28-31, apps/files/exceptions.py:18-19, shared/exceptions.py:115-116). The model returns a new dict and leaves the caller's as it was.
- A `select` with `IN` or without `ORDER BY` (base_repository.py:110-111, 116) promises no row order. Repository.GetByIds, Repository.GetAll and FileService.GetByIds answer in storage order; that order is a modelling choice.
- Rows that tie on every sort key come in an order SQL leaves open. The model keeps them in storage order, and Repository.PaginateOrdered promises only the order the keys fix.
- Column values are compared through an integer rank per column (`rank`). It stands for the database's ordering of the column's type, NULLs included.
- The search test of a column (`ILIKE '%search%'`, or equality on an enum column) is an oracle `hit` per column, including what `%` and `_` inside the search text do.

## Findings

| source | as written | input that shows it | evidently intended | confidence | as-written member | corrected member |
|---|---|---|---|---|---|---|
| web/backend/reportable-app/reportable_app/apps/files/services/file_managment_service.py:219-220 | a refused upload raises `FileUploadError()` without the required `filename` argument, so Python raises `TypeError` instead | `update` of an existing record whose storage upload answers `False` | raise `FileUploadError` naming the stored file | not executed | FileService.UpdateAsWrittenFails | FileService.Update |
| web/backend/reportable-app/reportable_app/apps/files/services/file_managment_service.py:222-226 | `FileUpdateDBSchema(**data.model_dump(), id=db_file.id, ...)` passes `id` twice, because `UpdateBaseModel` already has an `id` field, so every accepted upload ends in `TypeError` | `update` of an existing record whose storage upload answers `True` | a partial update that writes the given names under the stored id and path and keeps a name given as `None`; dropping the duplicate `id` alone is not enough, since `model_dump()` marks both names as set and `exclude_unset=True` (base_repository.py:189) would write the `None`s, so it also needs `exclude_none` or `model_dump(exclude_unset=True)` | not executed | FileService.UpdateAsWrittenFails | FileService.Update |
