# Built with Bifrost — a verified model of the submission core

This project models, in Dafny, the core of the "Built with Bifrost" showcase
site: the submission repository over an S3-style object store, the server
action behind the submit form, the form's client state, and the
deterministic view rules (pagination, canonical URLs, sitemap, dropdown,
project card, breadcrumbs).

Modules, one per source file:

- `Storage` (`storage.dfy`) — `lib/storage.ts`:
  - an `ObjectStore` class whose `objects` map from (bucket, key) to a stored object is updated in place by `Put`, with `Get` and `List` reading it;
  - `UploadImage`, `SubmitProject`, `GetApprovedSubmissions` and `GetProjectBySlug` as methods over the store, each proved against a function of the old store (`AfterUpload`, `SubmitEffect`, `Collect`, `FindBySlug`);
  - the outcome of every remote request (success, `NoSuchKey` or another failure) is a parameter, and so are the uuids and the clock reading.
- `Slug` (`slug.dfy`) — `slugify`, as the composition of its five string steps (`toLowerCase`, `trim` and three `replace` calls).
- `Submissions` (`submission.dfy`) — the record and form-data shapes of `types/submission.ts`.
- `Pagination` (`pagination.dfy`) — `components/Pagination.tsx`: `clamp`, `buildHref`, the page, window and range numbers, the prev/next links, the numbered links and the ellipses.
- `Seo` (`seo.dfy`) — `buildCanonicalUrl` of `lib/seo.ts`. Its final loop over the sorted entries is a method proved against a function.
- `Actions` (`actions.dfy`) — `createSubmission` of `app/actions.ts`. The outcome of `submitProject` is a parameter.
- `SubmissionFormState` (`submission_form.dfy`) — `components/SubmissionForm.tsx`: a class holding the component's state fields, with one method per handler.
- `Dropdowns` (`dropdown.dfy`) — `components/Dropdown.tsx`:
  - the display text and the open list as functions;
  - `isExpanded` as a class field.
- `ProjectCards` (`project_card.dfy`) — `components/ProjectCard.tsx`.
- `Breadcrumbs` (`breadcrumbs.dfy`) — `components/Breadcrumbs.tsx`.
- `Sitemaps` (`sitemap.dfy`) — `app/sitemap.ts`.
- Shared helpers:
  - `Wrappers`: `Option`, `Result`, `Outcome`.
  - `Strings`: prefix and suffix tests, first-occurrence `replace`, decimal rendering, ordinal string order.
  - `Keyed`: ordered key/value lists with the `get`/`getAll`/`set`/`append` semantics of `FormData` and `URLSearchParams`.
  - `Queries`: query objects as entry lists, the rule that keeps only present values, and `k=v&…` serialisation.

## Model

| member | source | states |
|---|---|---|
| Storage.ObjectStore.Put | lib/storage.ts:96-104 | a successful PutObject maps the key to the new object and replaces what it held; a failed one leaves the store unchanged and reports the error |
| Storage.ObjectStore.Get | lib/storage.ts:122-126 | GetObject returns the stored object, `NoSuchKey` for an absent key, or the request's failure |
| Storage.ObjectStore.List | lib/storage.ts:110-116 | ListObjectsV2 on a bucket lists every key of that bucket exactly once, or fails with the request's error |
| Storage.Extension | lib/storage.ts:44 | `name.split(".").pop()` is a suffix of the name with no dot that either is the whole name or follows a dot |
| Storage.ExtensionUnique | lib/storage.ts:44 | that suffix is unique: any dot-free suffix at the start of the name or after a dot is the extension |
| Storage.ExtensionAfterLastDot | lib/storage.ts:44-45 | the extension of `base + "." + ext` is `ext` whenever `ext` has no dot |
| Storage.UploadImage | lib/storage.ts:41-76 | on success the file's bytes and MIME type are stored under `<uuid>.<ext>` in the images bucket, and the result is the tigris public URL of that key; a failed put is passed on and leaves the store unchanged |
| Storage.FirstFailed | lib/storage.ts:84 | the index of the first failed upload: none exactly when every upload succeeded, and otherwise a failed index with every earlier upload successful |
| Storage.UploadImages | lib/storage.ts:84 | every image is uploaded whatever happened to the others; the error reported is the first failing image's, and on success the URLs are one per image in image order |
| Storage.SubmitProject | lib/storage.ts:78-107 | succeeds exactly when every upload and the record write succeed, then returns the pending record; otherwise returns the first upload error, or else the write error; the store changes exactly as `SubmitEffect` says |
| Storage.SubmitEffect | lib/storage.ts:84-104 | the store after a submission holds `<slugify(title)>.json` in the submissions bucket whenever every upload and the record write succeeded |
| Storage.PendingRecordShape | lib/storage.ts:80-94 | the returned record has status pending, `slug == slugify(title)`, the given id and timestamp, the form fields unchanged, and URL i is the upload URL of image i |
| Storage.UploadedOutsideImages | lib/storage.ts:84 | uploads add or change nothing outside the images bucket |
| Storage.UploadedKeepsImages | lib/storage.ts:84 | an image whose upload succeeded is in the store afterwards even when other uploads failed |
| Storage.SubmitWritesOneRecord | lib/storage.ts:96-104 | outside the images bucket, submitProject writes only `<slugify(title)>.json` in the submissions bucket, overwriting it, and only when every upload and the write succeeded; all other keys, including the approved bucket, are unchanged |
| Storage.SameSlugOverwrites | lib/storage.ts:81-104 | two successful submissions whose titles slugify alike write the same `<slug>.json`: after the first it holds the first record, after the second only the second |
| Storage.CollidingTitlesOverwrite | lib/storage.ts:81-104 | submitting "My Project!" and then "My Project?" stores the first record at `my-project.json`, then replaces it with the second |
| Storage.GetApprovedSubmissions | lib/storage.ts:109-145 | a failed listing yields `[]`; otherwise the result is `Collect` over a listing that enumerates the approved bucket exactly once per key |
| Storage.ReadListed | lib/storage.ts:120-135 | a listed key yields a record only when it ends in `.json`, its fetch did not fail and the approved bucket holds it; the record carries the key without `.json` as its slug |
| Storage.ReadKey | lib/storage.ts:120-136 | reading one listed key from the store gives `ReadListed` of the store for that key |
| Storage.Collect | lib/storage.ts:118-140 | the filtered results are never more than the listed keys |
| Storage.CollectStep | lib/storage.ts:118-140 | reading one more key appends that key's record, or nothing when the key is dropped |
| Storage.CollectFromReadable | lib/storage.ts:118-140 | results come in listing order from listed `.json` keys whose records were fetched and parsed; each is the stored record with its slug set to the key minus `.json`; there are never more results than listed keys |
| Storage.CollectAppend | lib/storage.ts:118-140 | the listing is read key by key: the result for `a + b` is the result for `a` followed by that for `b` |
| Storage.UnreadableKeyDropped | lib/storage.ts:133-140 | a key that fails to fetch or parse is dropped and leaves the records around it untouched |
| Storage.CollectAllReadable | lib/storage.ts:118-140 | when every listed key reads back there is one record per key |
| Storage.FindBySlug | lib/storage.ts:147-166 | returns the approved record under `<slug>.json` exactly as stored, and `None` exactly when the request fails, the key is absent or the body does not parse |
| Storage.GetProjectBySlug | lib/storage.ts:147-166 | the method returns `FindBySlug` of the store; every failure becomes `None` and nothing is raised |
| Storage.StripAppendedSuffix | lib/storage.ts:131 | `(slug + ".json").replace(/\.json$/, "")` gives back the slug |
| Storage.ReadPathsAgree | lib/storage.ts:130-132 | a record listed under slug s is found by getProjectBySlug(s) with the same content; only the listing rewrites the slug |
| Storage.SubmitInvisibleToReaders | lib/storage.ts:96-101 | a submission changes neither getApprovedSubmissions nor getProjectBySlug, because it never writes to the approved bucket |
| Slug.Lower | lib/storage.ts:25 | lower-casing keeps the length, maps every ASCII upper-case letter to its lower-case letter and leaves every other character as it was; no upper-case letter remains and every character keeps its word and space class |
| Slug.Trim | lib/storage.ts:26 | trim neither starts nor ends with whitespace and only removes characters |
| Slug.TrimSpan | lib/storage.ts:26 | the trimmed string is the slice of the input between a leading and a trailing run that are both white space, so trim removes white space at the two ends and nothing else |
| Slug.ReplaceRunsChars | lib/storage.ts:27-29 | replacing runs of a character class with `-` leaves only `-` and characters outside that class |
| Slug.ReplaceRunsNoAdjacent | lib/storage.ts:29 | after `/\-\-+/g → "-"` no two adjacent characters are hyphens. The model replaces every run of one or more hyphens with one hyphen; that gives the same string as replacing only the runs of two or more, because a single hyphen is replaced by itself |
| Slug.StripNonWordChars | lib/storage.ts:28 | `/[^\w\-]+/g → ""` keeps only word characters and `-` |
| Slug.Slugify | lib/storage.ts:22-30 | a slug is never longer than its title; `SlugAlphabet`, `SlugNoDoubleHyphen` and `SlugifyIdempotent` state its alphabet, its hyphens and its stability |
| Slug.SlugAlphabet | lib/storage.ts:22-30 | a slug contains only lower-case ASCII letters, digits, `_` and `-`, has no whitespace, and is no longer than the title |
| Slug.SlugNoDoubleHyphen | lib/storage.ts:27-29 | a slug never contains `--` |
| Slug.SlugifyIdempotent | lib/storage.ts:22-30 | `slugify(slugify(s)) == slugify(s)` |
| Slug.TrailingPunctuationDropped | lib/storage.ts:27-28 | "My Project" followed by any one character that is neither a word character, `-` nor whitespace slugs to "my-project" |
| Slug.SlugCollision | lib/storage.ts:27-28 | slugify is not injective: "My Project!" and "My Project?" both give "my-project" |
| Strings.ReplaceFirst | components/ProjectCard.tsx:16-19 | `String.prototype.replace` with a string pattern replaces the first occurrence only and leaves a string without one unchanged |
| Strings.NatToStringRoundTrip | components/Pagination.tsx:42 | `String(p)` for a page number is its decimal numeral, which reads back as p |
| Strings.LessIrreflexive | lib/seo.ts:22 | the key order used for sorting is irreflexive |
| Strings.LessTransitive | lib/seo.ts:22 | the key order is transitive |
| Strings.LessTotal | lib/seo.ts:22 | the key order is total on distinct keys, so sorting distinct keys has one result |
| Keyed.GetAllAppend | app/actions.ts:9 | `getAll` on a form grown by appending returns the old values followed by the new ones |
| Keyed.SetGetAll | components/SubmissionForm.tsx:75 | after `set(k, v)`, `getAll(k)` is `[v]` and every other key's values are unchanged |
| Keyed.SetEachDistinct | components/Pagination.tsx:9-11 | setting entries with distinct keys one by one into empty params yields exactly those entries in order |
| Keyed.SetEachEmpty | components/Pagination.tsx:12-13 | the params are empty exactly when no entry was set |
| Queries.KeptMembership | components/Pagination.tsx:10 | an entry survives exactly when its value is neither null, undefined nor `''`, and it keeps its value |
| Queries.Kept | components/Pagination.tsx:9-10 | filtering the query never yields more entries than it has; `KeptMembership` states which entries survive |
| Queries.KeptEmpty | components/Pagination.tsx:10-13 | nothing survives exactly when no value is present |
| Queries.KeptDistinct | lib/seo.ts:19-20 | filtering keeps the query's keys distinct |
| Queries.Serialize | components/Pagination.tsx:12-13 | the serialised parameters are empty exactly when there are none |
| Pagination.Clamp | components/Pagination.tsx:3-5 | with `lo <= hi` the result lies in `[lo, hi]`, is `n` when n is in range, and is `lo` below the range and `hi` above it |
| Pagination.TotalPages | components/Pagination.tsx:29 | `max(1, ceil(totalItems / pageSize))`: at least 1, and the smallest page count that holds the items |
| Pagination.Arrange | components/Pagination.tsx:29-39 | `totalPages >= 1` and the page lies in `[1, totalPages]`; the page is the requested one exactly when that is in range |
| Pagination.BuildHref | components/Pagination.tsx:7-14 | the href starts with the base path, and is the bare base path exactly when no query value is present |
| Pagination.RenderedIff | components/Pagination.tsx:29-32 | nothing is rendered exactly when all items fit on one page |
| Pagination.Paginate | components/Pagination.tsx:29-32 | the control is absent exactly when `totalPages <= 1`; when present its page lies in `[1, totalPages]` |
| Pagination.LayoutBounds | components/Pagination.tsx:29-39 | `totalPages >= 1`; page is in `[1, totalPages]` and equals the requested page when that is in range; for a non-empty list `1 <= rangeStart <= rangeEnd <= totalItems`; the range spans at most one page; prev/next targets lie in `[1, totalPages]` and equal the page exactly at the first and last page |
| Pagination.NavTargets | components/Pagination.tsx:80-114 | prev is disabled exactly on page 1 and next exactly on the last page; otherwise they target the neighbouring pages; their hrefs are `pageHref` of their targets |
| Pagination.NumbersOrdered | components/Pagination.tsx:34-36 | the link numbers `1, start..end, totalPages` run strictly upwards within `[1, totalPages]` and include the current page |
| Pagination.ViewShape | components/Pagination.tsx:100-109 | the rendered links are those numbers in order, each marked current exactly when it is the page; an ellipsis appears before the window exactly when `start > 2` and after it exactly when `end < totalPages - 1` |
| Pagination.CurrentLinkOnce | components/Pagination.tsx:100-109 | page numbers never repeat and exactly one link, the one for the page, is marked current |
| Pagination.EllipsesCoverHiddenPages | components/Pagination.tsx:101-106 | every page either has a link or lies behind an ellipsis on its side of the current page, and an ellipsis only stands where page 2 or page `totalPages - 1` is left out |
| Pagination.KeptGetAll | components/Pagination.tsx:9-11 | filtering keeps, for each key, exactly its present values |
| Pagination.HrefParamsGetAll | components/Pagination.tsx:7-11 | the href's parameter for a key is the query's value when present and absent otherwise |
| Pagination.PageHrefParams | components/Pagination.tsx:41-42 | `pageHref(1)` carries no `page` parameter, `pageHref(p)` for other p carries `page=String(p)` once, and every other parameter is the query's |
| Pagination.PageHref | components/Pagination.tsx:41-42 | every page link starts with the base path |
| Seo.TrimTrailingSlashes | lib/seo.ts:13 | the base loses every trailing `/` and nothing else |
| Seo.TrimIdempotent | lib/seo.ts:13 | trimming the base twice is the same as trimming it once |
| Seo.NormalizePath | lib/seo.ts:14 | the path starts with `/`; a path that already does is unchanged, and any other gets one `/` prepended |
| Seo.SortByKey | lib/seo.ts:21-22 | the entries are sorted by key and are a permutation of the input |
| Seo.SortedUnique | lib/seo.ts:21-22 | two key-sorted lists with the same elements are equal, so the ordering is stable whatever order the input came in |
| Seo.CanonicalEntries | lib/seo.ts:19-22 | the filtered entries are in ascending key order |
| Seo.CanonicalUrl | lib/seo.ts:13-29 | the URL starts with the base stripped of trailing slashes followed by the path with its leading `/` |
| Seo.BuildCanonicalUrl | lib/seo.ts:9-30 | the loop that sets the sorted entries into the URL's parameters one by one produces `CanonicalUrl`; the URL is built by concatenation, so a path carrying its own query or fragment and a base that does not parse are outside it (see Left out) |
| Seo.CanonicalParamsExact | lib/seo.ts:19-26 | the URL's parameters are exactly the present entries, each once, sorted by key |
| Seo.CanonicalOrderIndependent | lib/seo.ts:19-26 | two queries with the same entries in a different key order give the same URL |
| Seo.NoParamsIff | lib/seo.ts:18-26 | the URL is the bare trimmed base plus path exactly when there is no query or none of its values is present |
| Actions.OptionalFieldIff | app/actions.ts:25-28 | an optional link becomes undefined exactly when it is missing or empty, and is otherwise the submitted text |
| Actions.ImagesInFormOrder | app/actions.ts:9 | the images forwarded are the files under `images` in form order |
| Actions.FailureMessageNamesError | app/actions.ts:42 | the failure message is "Failed to submit project: " followed by the error's message, or "Unknown error" when it has none |
| Actions.FailureMessage | app/actions.ts:42 | the failure message starts with "Failed to submit project: " and always says something after it |
| Actions.RequiredField | app/actions.ts:19-24 | a required field is the form's text under that name, or `""` when the name is absent or holds a file |
| Actions.OptionalField | app/actions.ts:25-28 | an optional link is present only as the form's non-empty text under that name, and is absent whenever that text is missing or empty |
| Actions.FormDataOf | app/actions.ts:18-29 | the record's title is the form's title text, or `""` when there is none; each of the four links is non-empty whenever present |
| Actions.CreateSubmission | app/actions.ts:6-44 | submitProject is called exactly when the title is present and non-empty, otherwise the result is `{false, "Title is required"}`; the call carries the form's fields and images; success happens exactly when submitProject succeeds, with "Project submitted successfully!"; a failure gives the failure message |
| Actions.ForwardedTitle | app/actions.ts:13-19 | a forwarded record's title is the submitted one, never empty |
| SubmissionFormState.WithoutIndex | components/SubmissionForm.tsx:55-57 | filtering out index i removes exactly that element and keeps the rest in order; an out-of-range index changes nothing |
| SubmissionFormState.AppendFiles | components/SubmissionForm.tsx:70-72 | the form grows by one `images` entry per pending file, in order, after its own entries |
| SubmissionFormState.ImagesOfEntries | components/SubmissionForm.tsx:70-72 | appending each file under `images` makes exactly those files, in order, the form's images |
| SubmissionFormState.OutgoingCarriesState | components/SubmissionForm.tsx:70-75 | the sent form's images are its own followed by the pending files, and `longDescription` is the state's text, once |
| SubmissionFormState.Outgoing | components/SubmissionForm.tsx:70-75 | the sent form holds exactly one `longDescription` value, the component's description |
| SubmissionFormState.SubmittedFilesForwarded | components/SubmissionForm.tsx:70-77 | a forwarded submission carries exactly the pending files, in order, and the state's long description |
| SubmissionFormState.SubmissionForm.constructor | components/SubmissionForm.tsx:18-24 | the form starts idle, with no message, no files, no drag highlight and an empty description |
| SubmissionFormState.SubmissionForm.HandleDrag | components/SubmissionForm.tsx:27-35 | `dragenter`/`dragover` set the highlight, `dragleave` clears it, other events leave it; nothing else changes |
| SubmissionFormState.SubmissionForm.HandleDrop | components/SubmissionForm.tsx:37-45 | a drop clears the highlight and appends the dropped files after the pending ones |
| SubmissionFormState.SubmissionForm.HandleChange | components/SubmissionForm.tsx:47-53 | chosen files are appended after the pending ones; nothing else changes |
| SubmissionFormState.SubmissionForm.RemoveFile | components/SubmissionForm.tsx:55-57 | removes exactly the file at the index, or nothing when it is out of range |
| SubmissionFormState.SubmissionForm.SetLongDescription | components/SubmissionForm.tsx:171 | the editor's value, or "" when it is undefined, becomes the description |
| SubmissionFormState.SubmissionForm.OnSubmit | components/SubmissionForm.tsx:59-89 | with no files it sends nothing and shows "Please upload at least one screenshot."; otherwise it sends the form with the files and description; the message kind follows `result.success`; files and description are cleared on success and kept on failure, and `isSubmitting` ends false; when the call to the server action itself rejects, the handler stops at the `await`, so `isSubmitting` stays true, the message stays cleared and files and description are kept |
| SubmissionFormState.SubmissionForm.ShowResult | components/SubmissionForm.tsx:79-88 | a success shows the success message and clears the files and the description; a failure shows the error message and keeps them; either way submitting ends |
| Dropdowns.FindOption | components/Dropdown.tsx:50 | `options.find` stops at the first option holding the value, and finds nothing exactly when none does |
| Dropdowns.DisplayText | components/Dropdown.tsx:50-55 | when an option holds the value the text is the caption of such an option; otherwise it is the "all" caption when that entry is shown and selected, and the placeholder in every other case |
| Dropdowns.DisplayTextCases | components/Dropdown.tsx:50-55 | the text is the caption of the first matching option, so a real "all" option wins; failing that it is the all-caption when the all entry is shown and "all" is selected, and the placeholder otherwise |
| Dropdowns.Entries | components/Dropdown.tsx:92-119 | the list is empty while collapsed and otherwise has one entry per option plus one for "all" when it is shown |
| Dropdowns.EntriesShape | components/Dropdown.tsx:92-119 | the list is empty unless expanded; the all entry comes first exactly when shown, then the options in order; an entry is active exactly when its value is the current one |
| Dropdowns.Dropdown.constructor | components/Dropdown.tsx:30 | the dropdown starts collapsed |
| Dropdowns.Dropdown.Toggle | components/Dropdown.tsx:66 | the toggle flips `isExpanded` |
| Dropdowns.Dropdown.HandleSelect | components/Dropdown.tsx:57-60 | selecting passes the chosen value to `onChange` and collapses the list |
| Dropdowns.Dropdown.MouseDown | components/Dropdown.tsx:34-48 | a mousedown outside an expanded dropdown collapses it; one inside, or while collapsed, changes nothing |
| ProjectCards.Href | components/ProjectCard.tsx:11 | the card links to `/project/` followed by the slug |
| ProjectCards.ImageSource | components/ProjectCard.tsx:16-19 | a URL that starts with the old t3 base gets the tigris host in place of that base, and a URL with no occurrence of the old base is unchanged |
| ProjectCards.CardOf | components/ProjectCard.tsx:11-27 | the card links to `/project/<slug>` and shows "No Image" exactly when the record has no image URL |
| ProjectCards.ThumbnailOf | components/ProjectCard.tsx:14-27 | an image is shown exactly when there is at least one URL; it is the first URL rewritten, with the title as alt text; otherwise "No Image" |
| ProjectCards.CardShowsRecord | components/ProjectCard.tsx:11-54 | the card shows the record's title, short description and author verbatim, and only its first image |
| ProjectCards.LegacyUrlRewritten | components/ProjectCard.tsx:16-19 | a URL on the old t3 host becomes the tigris URL uploadImage now returns for the same key |
| ProjectCards.OtherUrlUnchanged | components/ProjectCard.tsx:16-19 | a URL that does not contain the old host is used as is |
| Breadcrumbs.RenderShape | components/Breadcrumbs.tsx:17-35 | one entry per item, in order and with its label; only the last is current; every other links to its href, or to `#` when the href is missing or empty |
| Breadcrumbs.Target | components/Breadcrumbs.tsx:29 | a link target is never empty: it is the item's own `href`, or `#` |
| Breadcrumbs.Render | components/Breadcrumbs.tsx:17-25 | one entry per item, and the last item is the current entry with its label |
| Breadcrumbs.ExactlyOneCurrent | components/Breadcrumbs.tsx:17-25 | a non-empty trail has exactly one current entry, and an empty one has none |
| Sitemaps.ProjectEntries | app/sitemap.ts:11-16 | one entry per project |
| Sitemaps.ProjectEntriesAt | app/sitemap.ts:11-16 | entry i is built from project i |
| Sitemaps.EntryMatchesCard | app/sitemap.ts:12 | a project's sitemap URL is the base URL followed by the path its project card links to |
| Sitemaps.Sitemap | app/sitemap.ts:18-32 | `2 + projects.length` entries, the first the base URL and the second `<base>/submit` |
| Sitemaps.SitemapShape | app/sitemap.ts:11-32 | `2 + projects.length` entries: the base URL (daily), then `/submit` (monthly), then one weekly entry per project, in order, at `baseUrl + "/project/" + slug` with its creation date |

## Left out

- The S3 client, credentials and environment variables are not modelled. Bucket names, the public image host and the site's base URL are constants or parameters; `getBaseUrl` and `NEXT_PUBLIC_SITE_URL` become a `baseUrl` parameter.
- `console` logging and the `ACL` of the image upload are not modelled. They change nothing the model observes.
- `uuidv4()` and `new Date()` are parameters, given as supplied values.
- `streamToString` and body buffering are not modelled: an I/O detail.
- `JSON.stringify` and `JSON.parse` are not modelled. A stored body is either a record that parses or bytes that do not; no field validation is modelled, because the source casts without checking.
- `Promise.all` concurrency is modelled sequentially:
  - every upload is attempted, in list order;
  - the rejection reported is that of the first failing upload in list order, where the real one is the first to fail in time;
  - completion interleavings are not modelled.
- Listing continuation and paging (more than 1000 keys) are not modelled; the source never asks for more.
- `Storage.GetApprovedSubmissions`: the listing order the service chooses is a ghost out-parameter, `listed`. The model proves the result for that order, not for a particular one.
- `Slug.Lower`: upper-case folding covers ASCII letters only. Unicode case mapping is a foreign library behaviour; `\s` is modelled with the full JavaScript whitespace set and `\w` is ASCII, as in JavaScript.
- `Pagination.TotalPages`: requires `pageSize > 0` and uses integer ceiling division. Floating-point division by zero (`Infinity`/`NaN`) is not modelled.
- `toLocaleString` is not modelled.
- The sitemap's `priority` is kept in tenths (1 → 10, 0.8 → 8) rather than as a float. `lastModified` is the creation timestamp string or "generation time", not a `Date`.
- `URLSearchParams` and `URL` percent-encoding and normalisation are not modelled: parameters serialise as plain `k=v` joined by `&`.
- `Seo.BuildCanonicalUrl`: `new URL(base + path)` is modelled as string concatenation, so the result is weaker than the URL parser's in two ways. A path that carries its own `?query` or `#fragment` is not parsed: the model appends `?k=v…` after it, where the parser merges the parameters into the existing query and keeps the fragment last. A base URL that does not parse, on which the source throws a `TypeError`, is not rejected.
- `localeCompare` is modelled as ordinal character order.
- A query object is a list of entries with distinct keys, in the object's own order. JavaScript's reordering of integer-like keys is not modelled.
- `Actions.RequiredField`: a missing required text field is copied as `""`, where the source copies `null`. The record type has no null string.
- A `FormData` field holding a file where text is expected reads as absent. A text value under `images` is not forwarded as a file, where the source's cast would pass it on.
- `Actions.CreateSubmission`: the thrown error is reduced to its optional `message`. The AWS `$metadata` branch only logs.
- `SubmissionFormState.SubmissionForm.OnSubmit`: a `createSubmission` call that rejects is the `callRejected` parameter. The interleaving of other handlers during the await is not modelled, so the disabled submit button is not modelled either.
- The `previewMode` toggle, the markdown editor, object URLs for previews and all DOM and markup wiring are not modelled: presentation only.
- The `dropdownRef.contains` test is a boolean parameter of `Dropdowns.Dropdown.MouseDown`, and `onChange` is the value the select handler returns.
- A card whose `imageUrls` is missing is modelled as one with an empty list. The record type always carries the list.
- Presentation-only files and declarations without behaviour (`types/model.ts`, `lib/site.config.ts`, the pages and the modal) are not part of this model.
