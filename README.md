# FragmentsUI content gate and fragment-body cache, in Dafny

FragmentsUI is a browser dashboard for a fragment storage service. Users create,
view, edit and convert small content objects ("fragments") of seven media types.
The dashboard itself decides very little. This project models the part that does:

- the client-side content validator run before every create and update;
- the create form's state (selected type, text, attached file, error line);
- the editor's save gate and its post-update transitions;
- the single-file slot with its image previews;
- the module-level cache of fetched fragment bodies, with its thirty-minute window and prefix invalidation;
- the string helpers behind endpoints, download names and the fragment table.

Modules follow the source files:

| module | source |
|---|---|
| `Validation` | `utils/validation.ts` |
| `Json` | what `JSON.parse` accepts (RFC 8259, section 2) |
| `Strings` | `trim`, `startsWith`, `split("/")[1]` and template-literal rendering |
| `MediaTypes` | `constants.ts` |
| `Files` | `FileWithPreview` (`utils/types.ts`) |
| `CreateForm` | the create form in `app/dashboard/page.tsx` |
| `FileHandling` | `hooks/utils/useFileHandling.ts` |
| `FragmentUpdate` | `hooks/useFragmentUpdate.ts` |
| `ContentCache` | `hooks/useFragmentContent.ts` |
| `Helpers` | `utils/helpers.ts` |
| `Columns` | `app/dashboard/columns.tsx` |

Pure code is written as functions and lemmas. The hooks and the form update state in place, so each becomes a class:

- its fields are the React state;
- its methods are the handlers, with `modifies` frames;
- effects the source triggers are recorded in fields: issued requests in `submissions` and `updatesIssued`, revoked object URLs in `revoked`.

The cache is a class over a `map<string, CacheEntry>`. Its prefix deletion is a loop, proved against the specification function `WithoutFragment`.

Inputs the source gets from its environment are parameters:

- the clock (`now`, `completedAt`);
- whether a user is signed in;
- the outcome of the network fetch (success with a body, or failure);
- the URL `URL.createObjectURL` returns;
- the two-space `JSON.stringify` printer.

`utils/validation.ts` holds only the blank rule and the JSON rule, and `constants.ts` lists seven types.

## Model

| member | source | states |
|---|---|---|
| `Validation.ValidateFragmentContent` | utils/validation.ts:4-20 | The verdict is one of "", "Content cannot be empty", "Invalid JSON format". It is the empty-content message exactly when there is no file and the text is blank. It is the JSON message exactly when there is no file, the type is application/json and the non-blank text does not parse. |
| `Validation.AcceptedIff` | utils/validation.ts:9-19 | Accepted exactly when a file is attached, or the text is non-blank and either not JSON-typed or parseable JSON. |
| `Validation.FileMakesContentIrrelevant` | utils/validation.ts:9-19 | With a file attached, every type and every text is accepted, so the text is never examined. |
| `Validation.BlankRuleHasPriority` | utils/validation.ts:9-17 | Blank application/json text gives "Content cannot be empty", although such text would also fail JSON parsing. |
| `Validation.NonJsonTextAccepted` | utils/validation.ts:11-19 | Non-blank text of any type other than application/json is accepted: no HTML, Markdown or image check exists. |
| `Validation.JsonTextAccepted` | utils/validation.ts:11-19 | Every JSON text is accepted as application/json content. |
| `Validation.JsonExamples` | utils/validation.ts:11-16 | `{"a":1}` is accepted and `{bad` gets "Invalid JSON format". |
| `Strings.BlankIffTrimEmpty` | utils/validation.ts:9 | `content.trim()` is empty exactly when every character is ECMAScript whitespace or a line terminator. |
| `Strings.Trim` | utils/validation.ts:9 | What `trim` leaves is no longer than the input, and it neither starts nor ends with whitespace. |
| `Strings.TrimStartDropsBlank` | utils/validation.ts:9 | Trimming the start keeps a suffix of the text that starts with a kept character, and every dropped character is whitespace. |
| `Strings.TrimEndDropsBlank` | utils/validation.ts:9 | Trimming the end keeps a prefix of the text that ends with a kept character, and every dropped character is whitespace. |
| `Strings.TrimDropsOnlyOuterWhitespace` | utils/validation.ts:9 | `trim` returns a contiguous slice of the text, with only whitespace before and after it. |
| `Strings.TrimStartEmptyIffBlank` | utils/validation.ts:9 | Trimming the start leaves nothing exactly when the text is all whitespace. |
| `Strings.TrimEndEmptyIffBlank` | utils/validation.ts:9 | Trimming the end leaves nothing exactly when the text is all whitespace. |
| `Json.JsonIsNotBlank` | utils/validation.ts:9-16 | Every JSON text contains a character `trim` keeps, so blank text never parses. |
| `Json.IsJson` | utils/validation.ts:12-16 | Whether `JSON.parse` accepts the text: the RFC 8259 grammar, a single value with optional whitespace around it. |
| `Json.SmallObjectIsJson` | utils/validation.ts:13 | `JSON.parse('{"a":1}')` succeeds. |
| `Json.UnquotedKeyIsNotJson` | utils/validation.ts:13 | `JSON.parse('{bad')` throws. |
| `Json.WhitespaceOnlyIsNotJson` | utils/validation.ts:13 | Text made only of JSON whitespace, the empty text included, does not parse. |
| `Strings.SplitJoin` | hooks/useFragmentContent.ts:40 | Joining the pieces of `s.split(sep)` with `sep` gives back `s`, and no piece contains `sep`. |
| `Strings.SecondSegment` | hooks/useFragmentContent.ts:40 | `s.split("/")[1]`, when present, comes from a string holding a '/' and holds no '/' itself. |
| `Strings.SecondSegmentMissingIffNoSlash` | hooks/useFragmentContent.ts:40 | `s.split("/")[1]` is undefined exactly when `s` has no '/'. |
| `Strings.SecondSegmentOfMime` | utils/helpers.ts:13-14 | For `type/subtype` (optionally followed by more '/'-pieces), `split("/")[1]` is `subtype`. |
| `MediaTypes.NameRoundTrip` | constants.ts:3-11 | Each fragment type's MIME string reads back as that type. |
| `MediaTypes.NameInjective` | constants.ts:3-11 | No two fragment types share a MIME string. |
| `MediaTypes.ValidFragmentTypes` | constants.ts:3-11 | `VALID_FRAGMENT_TYPES`: text/plain, text/markdown, text/html, application/json, image/png, image/jpeg, image/webp, in that order. |
| `MediaTypes.TextTypes` | constants.ts:14 | `VALID_FRAGMENT_GROUPS.textTypes`: text/plain, text/markdown, text/html, application/json. |
| `MediaTypes.ImageTypes` | constants.ts:15 | `VALID_FRAGMENT_GROUPS.imageTypes`: image/png, image/jpeg, image/webp. |
| `MediaTypes.ValidFragmentTypesDistinct` | constants.ts:3-11 | No two entries of `VALID_FRAGMENT_TYPES` share a MIME string. |
| `MediaTypes.ValidFragmentTypesComplete` | constants.ts:3-11 | Every fragment type is listed in `VALID_FRAGMENT_TYPES`. |
| `MediaTypes.ValidFragmentTypesParse` | constants.ts:3-11 | Every listed MIME string is one of the seven the parser reads back. |
| `MediaTypes.ValidFragmentTypesEnumeration` | constants.ts:3-11 | Seven types with pairwise distinct names, every type among them. text/csv, image/gif and image/avif are not among them. |
| `MediaTypes.GroupsPartitionValidTypes` | constants.ts:13-16 | The text and image groups are disjoint, and their union is the set of valid types. |
| `MediaTypes.GroupsFollowPrefixes` | constants.ts:14-15 | A type is in the image group exactly when its name starts with "image/". It is in the text group exactly when its name starts with "text/" or it is application/json. |
| `Files.WebFile.constructor` | utils/types.ts:5-7 | A file fresh from the browser has its name and MIME type, and no preview. |
| `Files.PreviewUrls` | hooks/utils/useFileHandling.ts:19-25 | A cleanup revokes nothing for a missing or empty preview (`if (file?.preview)`), and otherwise exactly the preview URL. |
| `CreateForm.TextTypeIffTextGroup` | app/dashboard/page.tsx:228-229 | `isTextType` holds exactly for the text group (text/* and application/json). |
| `CreateForm.IsTextType` | app/dashboard/page.tsx:228-229 | A type gets the text area exactly when it is not an `image/` type, that is, when it does not get the drop zone. |
| `CreateForm.IsImageType` | app/dashboard/page.tsx:271-272 | The "Image Formats" filter: the type's MIME string starts with "image/". It holds exactly for the image group (`MediaTypes.GroupsFollowPrefixes`). |
| `CreateForm.TextMenuIsTextGroup` | app/dashboard/page.tsx:252-255 | The "Text Formats" menu lists exactly the text group, in declaration order. |
| `CreateForm.ImageMenuIsImageGroup` | app/dashboard/page.tsx:271-273 | The "Image Formats" menu lists exactly the image group, in declaration order. |
| `CreateForm.CreateFragmentForm.constructor` | app/dashboard/page.tsx:127-132 | The form starts on text/plain with empty text, no error and no file. |
| `CreateForm.CreateFragmentForm.ValidateContent` | app/dashboard/page.tsx:166-180 | The form's own copy of the validator, which reads the attached file, gives the same verdict as `validateFragmentContent`. |
| `CreateForm.CreateFragmentForm.HandleSubmit` | app/dashboard/page.tsx:182-196 | A refusal sets the error line to the verdict and issues nothing. An acceptance clears the error and issues exactly one create request with the current type, text and file. |
| `CreateForm.CreateFragmentForm.HandleFileSelection` | app/dashboard/page.tsx:214-226 | A file of another type sets "Invalid file type. Expected <type>" and changes nothing else. A matching file is attached, gets a preview only when it is an image, and clears the error. The replaced file's preview is revoked. |
| `CreateForm.CreateFragmentForm.HandleDrop` | app/dashboard/page.tsx:198-212 | A dropped file is attached only when its type equals the selected type. A missing or mismatched file sets "Please drop a valid <type> file" and leaves the attached file, the revoked URLs and the dropped file's preview as they were. |
| `CreateForm.CreateFragmentForm.HandleInputChange` | app/dashboard/page.tsx:358-367 | An empty pick does nothing. A mismatched file sets "Please select a valid <type> file" and leaves the attached file, the revoked URLs and the chosen file's preview as they were. A matching file is attached as on selection. |
| `CreateForm.CreateFragmentForm.ChangeType` | app/dashboard/page.tsx:238-242 | Choosing a type resets the file to none and the text to "". The detached file's preview is revoked. |
| `CreateForm.CreateFragmentForm.RemoveFile` | app/dashboard/page.tsx:338-343 | Removing the attached file revokes its preview (if any) and leaves no file. |
| `CreateForm.CreateFragmentForm.EditContent` | app/dashboard/page.tsx:297 | Typing replaces the text. |
| `CreateForm.CreateFragmentForm.OnCreateSuccess` | app/dashboard/page.tsx:143 | A successful create empties the text. |
| `CreateForm.CreateFragmentForm.Unmount` | app/dashboard/page.tsx:158-164 | When the form unmounts, the attached file's preview (if any) is revoked and nothing else of the form changes. |
| `FileHandling.FileSlot.constructor` | hooks/utils/useFileHandling.ts:6 | The slot starts empty, with nothing revoked. |
| `FileHandling.FileSlot.HandleFileSelection` | hooks/utils/useFileHandling.ts:8-28 | A file whose type differs from the expected one changes nothing. A matching file fills the slot and gets an object-URL preview when its type starts with "image/", so a fresh file has a preview exactly when it is an image. The previous file's preview is revoked. |
| `FileHandling.FileSlot.ClearFile` | hooks/utils/useFileHandling.ts:18-21 | The slot ends empty. The old preview is revoked only when there was one. |
| `FileHandling.FileSlot.Unmount` | hooks/utils/useFileHandling.ts:23-28 | Unmounting revokes the current file's preview. |
| `FragmentUpdate.FormatLeavesOtherTypes` | hooks/useFragmentUpdate.ts:65-74 | Content of any type but application/json is returned unchanged. |
| `FragmentUpdate.FormatKeepsUnparseable` | hooks/useFragmentUpdate.ts:66-71 | JSON-typed content that does not parse is returned unchanged. |
| `FragmentUpdate.FormattedContentStillAccepted` | hooks/useFragmentUpdate.ts:65-74 | Content the validator accepts is still accepted after formatting for the editor, given a printer that emits JSON. |
| `FragmentUpdate.FormatContentForEdit` | hooks/useFragmentUpdate.ts:65-74 | The content shown for editing differs from the stored content only for application/json content that parses, and that content is shown as the printer's output. |
| `FragmentUpdate.FragmentEditor.constructor` | hooks/useFragmentUpdate.ts:16-18 | The editor starts out of edit mode, with empty edited text and no validation error. |
| `FragmentUpdate.FragmentEditor.SetEditing` | hooks/useFragmentUpdate.ts:16 | Sets edit mode. |
| `FragmentUpdate.FragmentEditor.SetEditedContent` | hooks/useFragmentUpdate.ts:20-22 | Replaces the edited text. |
| `FragmentUpdate.FragmentEditor.HandleSaveClick` | hooks/useFragmentUpdate.ts:47-63 | Save validates the edited text with no file. A refusal is stored as the validation error and no update is issued. An acceptance clears the error and issues one update carrying the edited text. A raised validator sets "An unexpected error occurred during validation". |
| `FragmentUpdate.FragmentEditor.OnUpdateSuccess` | hooks/useFragmentUpdate.ts:28-37 | A successful update leaves edit mode and clears every cached format of the fragment, then refetches. The refetch of a signed-in user therefore always goes to the network and stores what that fetch returns. A fetch begun before the clear is not covered (see "## Left out"). |
| `ContentCache.KeyHasFragmentPrefix` | hooks/useFragmentContent.ts:19 | Every cache key of a fragment starts with "<id>-". |
| `ContentCache.GetCacheKey` | hooks/useFragmentContent.ts:19 | A key is the fragment's prefix "<id>-" followed by exactly the format. |
| `ContentCache.Endpoint` | hooks/useFragmentContent.ts:35-42 | The endpoint starts with the fragment id. It is the bare id exactly for the original format, and otherwise the id is followed by '.'. |
| `ContentCache.Lookup` | hooks/useFragmentContent.ts:46-50 | The cached content under a key, served only when an entry exists and is less than 30 minutes old; otherwise nothing. |
| `ContentCache.KeyDeterminesFragmentAndFormat` | hooks/useFragmentContent.ts:19 | For formats without '-', different (id, format) pairs never share a key. |
| `ContentCache.PrefixReachesLongerIds` | hooks/useFragmentContent.ts:86 | Keys of a fragment whose id begins with "<id>-" also match the prefix of `id`. |
| `ContentCache.EndpointOfOriginal` | hooks/useFragmentContent.ts:35 | The original format fetches the bare id. |
| `ContentCache.EndpointOfMime` | hooks/useFragmentContent.ts:38-42 | A `type/subtype` view format fetches "<id>.<subtype>". |
| `ContentCache.EndpointWithoutSlash` | hooks/useFragmentContent.ts:40-41 | A view format without '/' fetches "<id>.undefined". |
| `ContentCache.StoredEntryServedWithinWindow` | hooks/useFragmentContent.ts:47-51 | A stored entry is served exactly while now is less than 1,800,000 ms after its timestamp. |
| `ContentCache.StoreLeavesOtherKeys` | hooks/useFragmentContent.ts:58-61 | Storing under one key changes no other key's lookup. |
| `ContentCache.ClearedFragmentMisses` | hooks/useFragmentContent.ts:80-90 | After clearing a fragment, no format of it is served from the cache. |
| `ContentCache.ClearKeepsOtherKeys` | hooks/useFragmentContent.ts:80-90 | Keys outside the "<id>-" prefix keep their entries. |
| `ContentCache.ClearIdempotent` | hooks/useFragmentContent.ts:80-90 | Clearing a fragment twice is the same as clearing it once. |
| `ContentCache.FragmentContentCache.constructor` | hooks/useFragmentContent.ts:9-11 | The cache starts empty. |
| `ContentCache.FragmentContentCache.Query` | hooks/useFragmentContent.ts:31-76 | Signed out: null, and the cache is untouched. A fresh entry is served without a fetch, and the cache is unchanged. Otherwise the endpoint is fetched. A body is stored with the completion time and returned. A failure stores "Error loading fragment content" and rejects. |
| `ContentCache.FragmentContentCache.ClearAllCachedFormatsForFragment` | hooks/useFragmentContent.ts:80-90 | Deletes exactly the keys starting with "<id>-". Every other entry is unchanged. |
| `Helpers.EditableTypesAreTheTextTypes` | utils/helpers.ts:26-28 | Exactly text/plain, text/markdown, text/html and application/json are editable. |
| `Helpers.EditableIffTextGroup` | utils/helpers.ts:26-28 | A fragment type is editable exactly when it is in the text group. |
| `Helpers.IsEditableType` | utils/helpers.ts:26-28 | A MIME string is editable exactly when it names a fragment type of the text group. |
| `Helpers.DownloadFragmentContent` | utils/helpers.ts:4-20 | No link for empty data. Otherwise the link points at the data, and its file name starts with "fragment-<id>.". |
| `Helpers.DownloadExtension` | utils/helpers.ts:13-14 | The download extension: the second '/'-segment of the fragment's own type for "original", else of the view format, rendered "undefined" when missing. |
| `Helpers.DownloadIffData` | utils/helpers.ts:10-19 | A download link is made exactly when the data is non-empty, and it links to that data. |
| `Helpers.OriginalDownloadUsesSubtype` | utils/helpers.ts:13-19 | Downloading the original of a `type/subtype` fragment is named "fragment-<id>.<subtype>". |
| `Helpers.ConvertedDownloadMatchesEndpoint` | utils/helpers.ts:13-19 | A converted download is named "fragment-" followed by the endpoint the conversion is fetched from. |
| `Columns.JsRemainder` | app/dashboard/columns.tsx:99 | JavaScript's `%`: `a` is `b` times the quotient truncated toward zero, plus the remainder. The remainder is smaller than the divisor in magnitude and takes the dividend's sign. |
| `Columns.OrdinalSuffix` | app/dashboard/columns.tsx:97-109 | The suffix is always one of "st", "nd", "rd", "th". |
| `Columns.TeensTakeTh` | app/dashboard/columns.tsx:98 | Every day from 4 to 20, 11, 12 and 13 included, takes "th". |
| `Columns.SuffixFollowsLastDigit` | app/dashboard/columns.tsx:99-108 | A non-negative day outside 4..20 takes the suffix that follows the last digit: 1 gives "st", 2 "nd", 3 "rd", anything else "th". |
| `Columns.OrdinalSuffixIsEnglishForDays` | app/dashboard/columns.tsx:97-109 | For every day 1..31 the suffix is the English ordinal suffix. |
| `Columns.NegativeDaysTakeTh` | app/dashboard/columns.tsx:99-108 | Under truncating `%`, negative inputs always take "th". |
| `Columns.ShortId` | app/dashboard/columns.tsx:55 | The shown id is never longer than 30 characters. Ids of 30 or fewer are shown unchanged. Longer ids show their first 20 characters and "..." (23 in all). |
| `Columns.ShortIdIdempotent` | app/dashboard/columns.tsx:55 | Shortening a shortened id changes nothing. |

## Left out

- QuickLRU's eviction and its `maxSize: 100` bound (hooks/useFragmentContent.ts:9-11): the library is not part of this model. The cache is an unbounded map, so an entry the real cache has evicted would be a miss where the model serves it.
- Network calls (app/api.ts, lib/fragments.ts): the fetch outcome, the signed-in state and the user conversion are parameters or left out. The create request is recorded as a `Submission` of type, text and file, without the user.
- react-query scheduling: `enabled`, refetch timing and mutation state are not modelled. The refetch after an update is modelled as one immediate query for the current view format.
- ContentCache.FragmentContentCache.Query: runs the lookup, the fetch and the store as one step. The `await` of `fetchFragmentById` (hooks/useFragmentContent.ts:55) is not modelled. In the program, `clearAllCachedFormatsForFragment` (lines 80-90) can run while a fetch is in flight. That happens when a later update succeeds during a background refetch, since editing needs only `!isLoading`. The older fetch then stores its pre-update body, or "Error loading fragment content", after the clear, and that entry is served for up to 30 minutes. The model promises nothing about such interleavings.
- Toasts, console logging, the `isDragging` highlight, and the anchor element appended, clicked and removed by `downloadFragmentContent`: these are visual or DOM effects. The download is modelled as the link it would click.
- `URL.createObjectURL`: its result is a parameter. `revokeObjectURL` calls are recorded as a set of revoked URLs. React's effect cleanup, which revokes the previous file's preview when `file` changes, is folded into the transition that changes `file`.
- `JSON.stringify(JSON.parse(x), null, 2)` is the parameter `stringify`. Number formatting and key order of the real printer are not modelled.
- `Json.IsJson` has no nesting-depth limit, where an engine may throw on very deep nesting. Dafny characters are Unicode scalar values, so texts with lone UTF-16 surrogates cannot be expressed.
- CreateForm.CreateFragmentForm.OnCreateSuccess: models the emptying of the text only (app/dashboard/page.tsx:143). `onSuccess` then closes the dialog (line 146), which unmounts the form: its cleanup is `CreateFragmentForm.Unmount`, and its type, file and error are discarded, since the next opening builds a new form. The model has no dialog, so the object stays usable after `OnCreateSuccess` where the program has no form left to submit again.
- Columns.ShortId: counts Unicode scalar values where `id.length` counts UTF-16 code units. They differ only for ids with characters outside the Basic Multilingual Plane.
- Columns.OrdinalSuffix: takes an integer. The NaN that `getDate` returns for an invalid date (which also gives "th") is not modelled.
- FragmentUpdate.FragmentEditor.HandleSaveClick: the parameter `validatorRaised` stands for the validator throwing. The modelled validator is total, so that branch is reachable only through the parameter.
- The view-format state of `useFragmentContent` (`viewFormat`, `isFormatChanging` and their setters) is held by the caller. The view format is a parameter of `Query`.
- UI components, the dialog-level effects in `FragmentDetails`, `useDragHandling`, `useCleanUrlParams`, date formatting with `toLocaleString`, and the authentication wiring: presentational or external.
