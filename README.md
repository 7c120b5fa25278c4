# feishu2md, modelled in Dafny

feishu2md mirrors Feishu (Lark) cloud documents and wiki trees into a
directory of Markdown files with YAML frontmatter. Images are downloaded next
to the documents, or they are pushed to an image bed (Aliyun OSS or Tencent
COS, or the picgo command-line uploader) and linked from there.

This project models the deterministic core of that mirror:

- **Sync planning and assembly** of a wiki tree:
  - the node → relative-path map (`buildPaths`);
  - each document's output directory;
  - tags and categories derived from that path;
  - the per-document image pipeline: de-duplicating tokens, merging the worker results, switching to image-bed URLs and rewriting links;
  - YAML escaping and the frontmatter block;
  - the skip-if-identical write decision;
  - the download statistics and the per-document log with its status labels.
- **The Feishu client**:
  - page-following listings;
  - the pre-order tree walk `GetAllChildNodes`;
  - reuse and naming of local images;
  - seconds-or-milliseconds time stamps.
- **`SanitizeFileName`**.
- **The picgo wrapper**: the upload cache, URL extraction, token extraction and the cache-first batch upload.
- **The image-bed layer**: uploader validation, object keys and URLs, the prefix lookup over a paged listing, and the batch upload result map.
- **The configuration cascade**: defaults, then environment, then arguments.

Every remote, file-system, SDK, clock and process call is a parameter of the
model:

- a listing service is a function from a cursor to a page or an error (`Paging.Lister`);
- a rate-limiter outcome is a boolean, or a function from the index of the wait to a boolean;
- the existing file at a path is an `Existing` value;
- the MD5 digest is a `hash` function;
- the process environment is a map;
- Go's random map iteration order is an `order` sequence that covers the map.

The goroutine fan-outs only collect into maps and counters, so they are
modelled as sequential loops over the jobs in arrival order. The proofs then
show that the results do not depend on that order where it matters.

Two facts about the code shape the model:

- **Rate limiting of listings.** `GetChildNodes` and `GetDriveFolderFileList` never wait for the rate limiter, and `GetWikiNodeList` waits once, before its first request (core/client.go:257-279, 293-330, 343-385).
- **Labels from a path.** Categories come in two modes: "all", which takes every directory element, and any other value, which takes the last element (cmd/download.go:151-204).

## Model

| member | source | states |
|---|---|---|
| Assets.MdName | cmd/download.go:247-250 | the file name is the sanitized title or the token, and always ends in ".md" |
| Assets.OutputFileName | cmd/download.go:247-251 | the markdown file lies directly in the output directory under its own name: Base(Join(dir, name)) == name |
| Assets.ShouldSkipFile | cmd/download.go:55-76 | false when skipping is off or the file is absent or unreadable; otherwise true exactly when the two hashes agree |
| Assets.WritesFile | cmd/download.go:516-537 | the file (markdown or JSON dump) is always written when forced, when skipping is off, or when there is no readable file |
| Assets.SkipExactlyWhenIdentical | cmd/download.go:529-537 | with a collision-free hash, a write is skipped iff it is not forced, skipping is on and the file already holds exactly the new content |
| Assets.Unique | cmd/download.go:263-271 | the de-duplicated tokens are exactly the tokens of the input |
| Assets.UniqueOrdered | cmd/download.go:263-271 | the de-duplicated tokens have no repeats and keep the order of first occurrence |
| Assets.DedupTokens | cmd/download.go:263-271 | the loop with its `seen` set computes exactly Unique of the parser's tokens |
| Assets.Worker | cmd/download.go:297-327 | with an uploader, a prefix hit on the image bed is used as is and never marked for upload; otherwise the result is the download's link or error; a download is marked for upload iff there is an uploader; a failure carries no link |
| Assets.MergeResults | cmd/download.go:336-359 | the result loop computes MergeOf over the outcomes in arrival order |
| Assets.MergeCounts | cmd/download.go:337-359 | successes plus failures equal the number of outcomes; hits ≤ successes; every token to upload is linked; the uploads are at most the non-hit successes |
| Assets.MergeLinks | cmd/download.go:342-359 | with one outcome per token, a token is linked iff its outcome succeeded, with that outcome's link; it is marked for upload iff it was downloaded and marked; its upload link is its link |
| Assets.MergeOfWorkers | cmd/download.go:297-359 | for the workers' outcomes of the de-duplicated tokens, in any arrival order: the counts add up; a token is linked iff it was found on the bed or downloaded; only downloads are uploaded; without an uploader nothing is uploaded and nothing is a hit |
| Assets.NoHitsWithoutUploader | cmd/download.go:300-325 | without an uploader there are no image-bed hits and nothing to upload |
| Assets.UploadPaths | cmd/download.go:366-371 | the paths given to the batch upload are exactly the local files of the tokens to upload |
| Assets.SwitchToImgbed | cmd/download.go:376-386 | the linked tokens stay the same; a token takes the image-bed URL iff its local file is a key of the upload result, else it keeps its link; the count is the number of switched tokens |
| Assets.NoSuccessNothingLinked | cmd/download.go:337-362 | no success iff every outcome failed, and then nothing is linked and nothing is to be uploaded, so the `successCount > 0` guard skips only work that would change nothing, and the statistics |
| Assets.RecordImages | cmd/download.go:362-411 | with some success and statistics kept, the counters grow by the unique tokens and by the downloads to upload, and the log gains the document's image entry with the image-bed hits and those downloads; otherwise the counters and the log are unchanged; with one outcome per unique token the counters stay consistent |
| Assets.SwitchOne | cmd/download.go:377-385 | one turn of that loop: the token takes its image-bed URL and is counted exactly when its local file is a key of the upload result; no other link changes |
| Assets.ReplaceLinks | cmd/download.go:395-398 | the body after ReplaceAll of every linked token by its link, in the map's iteration order |
| Assets.ReplaceEachAbsent | cmd/download.go:395-398 | a body that holds none of the tokens comes back unchanged, whatever the iteration order |
| Strs.ReplaceAllJoin | cmd/download.go:397 | strings.ReplaceAll against a reference definition: for a string cut at the successive leftmost occurrences of the pattern, the result is the pieces joined by the replacement |
| Strs.LeftmostCutExists | cmd/download.go:397 | every string has such a cut, so ReplaceAllJoin describes every call |
| Strs.ReplaceAllSplit | cmd/download.go:397 | ReplaceAll works on the two halves of a string separately when no occurrence crosses the boundary |
| Assets.Pieces | cmd/download.go:396-398 | the body cut into words (maximal runs of ASCII letters and digits) and gaps: gluing them back gives the body, and no two words touch |
| Assets.ReplaceAllPieces | cmd/download.go:397 | one ReplaceAll of a word token over words and gaps swaps exactly the pieces equal to it, when no other piece holds it |
| Assets.ReplaceEachPieces | cmd/download.go:396-398 | after the tokens of an iteration prefix are replaced, exactly the words among them have become their links |
| Assets.ReplaceEachRewrite | cmd/download.go:396-398 | for any iteration order of the map, the replacement loop turns every linked token of the body into its link and leaves every other word and gap alone |
| Assets.ReplaceEachOrderFree | cmd/download.go:396-398 | two iteration orders of the map give the same body |
| Assets.RewritePiece | cmd/download.go:396-398 | a token with a link shows up in the rewritten body as that link; a token without one (a failed download) is still there |
| UploadCache.Load | picgo/cache.go:42-64 | the cache is marked loaded; once loaded, loading changes nothing |
| UploadCache.Lookup | picgo/cache.go:87-95 | (url, true) for a cached token; ("", false) for an absent one |
| UploadCache.Save | picgo/cache.go:98-103 | saving loads first and leaves the cache loaded |
| UploadCache.LoadOnce | picgo/cache.go:43-45 | the file is read at most once: a second load with any file changes nothing |
| UploadCache.SaveThenLookup | picgo/cache.go:87-103 | after SaveCache(t, u), t is looked up as (u, true), and every other token gives the answer it gave before |
| UploadCache.SaveSize | picgo/cache.go:98-132 | saving overwrites, and grows the cache by exactly one entry iff the token was new |
| UploadCache.FirstLoad | picgo/cache.go:42-64 | a first load of the empty cache holds exactly the valid file's entries, and nothing for a missing or invalid file |
| UploadCache.Cache.LoadCache | picgo/cache.go:42-64 | the cache's new state is Load of its old state |
| UploadCache.Cache.GetCached | picgo/cache.go:87-95 | loads, then answers Lookup of the token |
| UploadCache.Cache.SaveCache | picgo/cache.go:98-103 | the new state is Save of the old state |
| UploadCache.Cache.ClearCache | picgo/cache.go:115-122 | the map is empty afterwards and the loaded flag is unchanged |
| UploadCache.Cache.CacheSize | picgo/cache.go:125-132 | loads, then returns the number of entries |
| Client.ToDocuments | core/client.go:365-376 | one Document per listed item, in order, each copied field by field |
| Client.GetChildNodes | core/client.go:343-385 | the documents of every page in page order, following the page token while HasMore holds and it is not empty; the first listing error is the result |
| Client.GetDriveFolderFileList | core/client.go:257-279 | the files of every page from the given page token, in page order, while HasMore holds |
| Client.DocxContent | core/client.go:162-201 | every request comes right after a successful limiter wait; a failed first wait gives the limiter error before any request; a result carries the document that was fetched |
| Client.DocxContentAllowed | core/client.go:162-201 | when the limiter never refuses, the result is the document's error, or the document with every block of every page in page order |
| Client.GetDocxContent | core/client.go:162-201 | the document request, then the block loop, compute DocxContent (result and the trace of waits and calls) |
| Client.GetDocxDocumentMeta | core/client.go:142-160 | a failed limiter wait returns the limiter error without a request; otherwise the response |
| Client.GetWikiNodeInfo | core/client.go:242-255 | a failed limiter wait returns the limiter error without a request; otherwise the response |
| Client.WikiNodeListAsWritten | core/client.go:293-330 | one limiter wait and at most two requests, whatever the server says; a failed wait gives the limiter error |
| Client.GetWikiNodeList | core/client.go:293-330 | the loop as written computes WikiNodeListAsWritten |
| Client.GetWikiNodeListAllPages | core/client.go:293-330 | corrected listing: every page in page order until HasMore is false or the page token repeats |
| Client.WikiNodeListAsWrittenIsPrefix | core/client.go:310-327 | the listing as written returns a prefix of the complete listing |
| Client.WikiNodeListAgreesOnTwoPages | core/client.go:310-327 | when the complete listing has at most two pages, the code as written returns all of it |
| Client.WikiNodeListDropsThirdPage | core/client.go:310-327 | on a three-page listing, the code as written returns only the first two pages' items |
| Paging.Collect | core/client.go:257-279 | a listing error is the result; otherwise the first page's items followed by what the later pages contribute |
| Paging.Prepend | core/client.go:267-276 | the accumulated items followed by the rest, or the rest's error |
| Paging.CollectFuel | core/client.go:257-279 | what is collected does not depend on the request budget |
| Paging.CollectPaced | core/client.go:181-199 | a limiter wait before each request; a failed wait stops with the limiter error before any further request |
| Paging.CollectPacedAllowed | core/client.go:181-199 | when the limiter never refuses, the paced loop collects exactly what Collect does |
| Tree.GetAllChildNodes | core/client.go:388-412 | the walk returns AllChildren: each listed child, then everything below it when it has children, in pre-order; the first listing error aborts the walk |
| Tree.Walker.ProcessNode | core/client.go:392-409 | appends everything below the node in pre-order, or reports the first listing error |
| Tree.Walker.ProcessChildren | core/client.go:398-407 | the loop over the children appends each child and then, when it has children, its subtree |
| Tree.WalkAdvance | core/client.go:398-407 | one child advances the walk by that child and its subtree, or by the subtree's error |
| Tree.AllChildrenParented | core/client.go:388-412 | on a consistent remote, every node of the walk is a child of the root or comes after its parent, which has children |
| Images.Matching | core/client.go:116-125 | the directory entries that start with the prefix, and no others |
| Images.LeastIsLeast | core/client.go:116-125 | the entry picked comes first in sorted order among the matches |
| Images.FindExistingLocalImage | core/client.go:116-125 | none iff no entry starts with token + "."; otherwise the path of such an entry in the image directory |
| Images.ImageExt | core/client.go:52-57 | the remote file's extension, or ".png" when it has none; always a single "." element |
| Images.DownloadImage | core/client.go:34-112 | a local match is reused with no limiter wait and no request; otherwise the limiter is waited on first, and a failed wait is an error before the request; every error returns the token as the link and saves nothing; a success links the saved file |
| Images.ReusedLink | core/client.go:36-39 | a reused image is linked as "./" + base(outDir) + "/" + the first matching name in sorted order |
| Images.SavedFileIsLinked | core/client.go:52-66 | a fresh download is linked as "./" + base(outDir) + "/" + token + ext, the name of the file it saved |
| Timestamps.Wrap64 | core/client.go:228-230 | the int64 wrap-around: a value in range, congruent modulo 2^64, unchanged inside the range |
| Timestamps.ParseInt64 | core/client.go:224-227 | only an optional sign followed by decimal digits parses, and only to an int64 value |
| Timestamps.ParseFormat | core/client.go:224-227 | every int64 written in decimal is read back exactly |
| Timestamps.ParseUnixAsWritten | core/client.go:219-235 | the code as written: a blank string gives no time; the millisecond product wraps around in int64 |
| Timestamps.ParseUnix | core/client.go:219-235 | a blank string gives no time; a non-integer is an error; v > 10^12 is read as milliseconds, otherwise as seconds |
| Timestamps.ParseUnixOfInt | core/client.go:228-233 | a decimal int64 up to 10^12 is that many seconds; above that, that many milliseconds |
| Timestamps.AsWrittenAgreesIff | core/client.go:228-230 | the code as written agrees with the intended reading exactly for values below 9223372036855 |
| Timestamps.WrapAroundBefore1970 | core/client.go:228-230 | millisecond values from 9223372036855 up to 2^64/10^6 are read as instants before 1970 |
| Timestamps.DocxTimes | core/client.go:205-240 | the request error is passed on; no meta (an empty list or a nil first entry) is the no-meta error; otherwise each of the two times is present iff its stamp of the first meta parses to a time, and then is that instant; stamps are read as intended (see Timestamps.DocxTimesAsWritten) |
| Timestamps.AsWrittenAgreesBelow | core/client.go:224-233 | for any string whose integer, if any, is below 9223372036855, the code as written and the intended reading give the same stamp |
| Timestamps.DocxTimesAsWritten | core/client.go:205-240 | when neither stamp is a millisecond count that wraps, GetDocxTimes as written returns exactly the instants DocxTimes gives |
| Timestamps.UnixNano | core/client.go:230 | time.Unix(0, ns) normalises the nanoseconds into [0, 10^9) and keeps the instant |
| Sanitize.TableValuesAreNotKeys | utils/common.go:35-50 | no replacement rune is itself replaced, so the order of the replacements does not matter |
| Sanitize.Mapped | utils/common.go:35-50 | every rune is mapped on its own, the length is kept, and no table rune is left |
| Sanitize.Sanitized | utils/common.go:33-61 | the result is a safe path element (not "", "." or ".." and without '/'), holds no table rune, and has no white space at either end |
| Sanitize.SanitizeFileName | utils/common.go:33-61 | one ReplaceAll per table entry in any map iteration order, then the trim and the "untitled" fallback, computes Sanitized |
| Sanitize.SanitizedIdempotent | utils/common.go:33-61 | sanitizing a sanitized name changes nothing |
| Sanitize.SanitizedKeepsCleanNames | utils/common.go:33-61 | a title that is already clean is kept as it is |
| Sanitize.UntitledIsClean | utils/common.go:56-58 | the fallback name is itself a clean name |
| PathMap.IndexOf | cmd/download.go:774-775 | the first index of a node with the token, or -1 exactly when no node has it |
| PathMap.ParentIndex | cmd/download.go:774-783 | in a walk result, a node's parent (other than the root) is an earlier node that has children |
| PathMap.PathBuilder.constructor | cmd/download.go:766-769 | the map starts with the root at "." |
| PathMap.PathBuilder.BuildPaths | cmd/download.go:772-786 | keeps every entry at its expected path (the parent's path joined with the sanitized name), never removes a key, and maps every node below the parent |
| PathMap.ChildStep | cmd/download.go:774-783 | a child comes after its parent, and buildPaths gives it the parent's path joined with its sanitized name |
| PathMap.BuildPathMap | cmd/download.go:766-788 | the keys are exactly the root and the walked nodes; the root maps to "." and every node to its parent's path joined with its sanitized name |
| PathMap.OutputDirFor | cmd/download.go:811-815 | the parent's entry, or "." when the parent is missing or its entry is empty; never "" |
| PathMap.PathOfShaped | cmd/download.go:777 | every node's path is relative, and its elements are the sanitized names from the root down |
| PathMap.OutputDirOfNode | cmd/download.go:811-817 | each document's output directory is its parent's expected path, a relative path of safe elements |
| PathMap.DocJobs | cmd/download.go:799-838 | exactly the docx nodes are downloaded, each with its wiki URL, its output directory under the output root and its relative directory |
| Metadata.KeepParts | cmd/download.go:160-168 | the parts kept are exactly the ones that are neither empty nor "." |
| Metadata.KeepSafe | cmd/download.go:160-168 | parts that are safe path elements are all kept, in order |
| Metadata.DeriveLabels | cmd/download.go:151-204 | "." or "" gives no labels; mode "all" gives KeepParts of the cleaned path's elements, which holds exactly the elements other than "" and ".", in path order with repeats (Metadata.KeepPartsAppend); any other mode gives at most the last element; tags and categories use this one definition |
| Metadata.KeepPartsAppend | cmd/download.go:190-194 | the filter works element by element: kept parts stay in order, and repeats are kept |
| Metadata.DeriveLabelsShaped | cmd/download.go:151-204 | on a path the mirror builds, mode "all" gives all its elements and any other mode its last one |
| Metadata.NodeLabels | cmd/download.go:837-838 | a wiki document's labels are the sanitized titles of its ancestors (mode "all") or of its parent |
| Metadata.EscapeChars | cmd/download.go:452-453 | a backslash before each backslash and each double quote |
| Metadata.UnescapeEscape | cmd/download.go:447-457 | reading the escaped text as a double-quoted YAML scalar gives back the original |
| Metadata.EscapeByReplace | cmd/download.go:452-453 | the two ReplaceAll calls, backslashes first, escape rune by rune |
| Metadata.EscapeYAML | cmd/download.go:447-457 | a string without special runes is returned as it is; otherwise it is quoted, and its inside is the escaped string |
| Metadata.EscapeYAMLOneLine | cmd/download.go:447-457 | escaping never adds a newline |
| Metadata.ChooseCategories | cmd/download.go:464-471 | the given categories, else the tags, else the single default category; never empty |
| Metadata.ItemLinesMembers | cmd/download.go:472-489 | every non-blank entry gets its "  - " line and every line comes from a non-blank entry |
| Metadata.AddItem | cmd/download.go:473-478 | a blank entry writes nothing; any other writes its "  - " line |
| Metadata.SplitUnlines | cmd/download.go:458-492 | splitting the written block at newlines gives back its lines |
| Metadata.BuildFrontmatter | cmd/download.go:458-492 | the builder writes exactly the frontmatter lines, each followed by a newline |
| Metadata.FrontmatterLinesRecovered | cmd/download.go:458-492 | when no field holds a newline, the block starts with "---", the title and the two dates, holds the tags block iff there are tags, and ends with the id line, "---" and an empty line |
| Metadata.DateFields | cmd/download.go:425-445 | each date is the formatted time from the meta when it was fetched, else the current time |
| Stats.DownloadStats.constructor | cmd/download.go:762 | every counter starts at zero |
| Stats.DownloadStats.SetTotalDocs | cmd/download.go:90-94 | sets the document total and nothing else |
| Stats.DownloadStats.AddDocNew | cmd/download.go:95-99 | adds one new document and nothing else |
| Stats.DownloadStats.AddImages | cmd/download.go:100-105 | adds the images met and the new ones, and nothing else; new images never outnumber the images met |
| Stats.DownloadStats.Snapshot | cmd/download.go:106-110 | returns the four counters as they are |
| Stats.Changes | cmd/download.go:886-892 | the summary reports no changes iff there are no new documents and no new images |
| Stats.LogPath | cmd/download.go:406-409 | the logged path is the file name below the document's directory |
| Stats.LogPathShaped | cmd/download.go:542-545 | below a directory of the mirror, the logged path is that directory's elements followed by the file name |
| Stats.ImageLog | cmd/download.go:400-411 | an image entry logs the image-bed hits as cached and the downloads as new, under the document's path |
| Stats.NewDocLog | cmd/download.go:539-547 | a written document is logged as new under its path |
| Stats.StatusLabel | cmd/download.go:868-877 | the word is new before skipped before cached; with no reason the label is that word alone, with a reason it is the word, a space and the reason in parentheses |
| Stats.StatusDistinguishes | cmd/download.go:868-877 | the label tells new, skipped and cached entries apart |
| Stats.LogCollector.constructor | cmd/download.go:146 | the log starts empty |
| Stats.LogCollector.Add | cmd/download.go:130-134 | appends the entry |
| Stats.LogCollector.SortedByPath | cmd/download.go:136-144 | a copy of the entries, sorted by path, as a permutation; the entries themselves are not changed |
| Stats.InsertByPath | cmd/download.go:136-144 | inserting into a sorted log keeps it sorted and adds exactly the entry |
| Picgo.RunEnd | picgo/picgo.go:23 | the end of the longest run of URL runes from a position |
| Picgo.MatchAt | picgo/picgo.go:23 | a match found at a position is a whole URL that cannot be extended |
| Picgo.Matches | picgo/picgo.go:83 | a leftmost scan: the first match at or after the position, nothing unmatched skipped before it, then the scan from its end; no match after the last pair |
| Picgo.MatchListUnique | picgo/picgo.go:83 | the scan's list is determined: two lists that both satisfy it are equal |
| Picgo.MatchListLast | picgo/picgo.go:83-88 | the last pair of a scan is a match at its start, and no match starts at or after its end |
| Picgo.ExtractURL | picgo/picgo.go:82-89 | "" iff the pattern does not match; otherwise the last match, a URL starting with "http://" or "https://" with at least one rune after it and none of the excluded runes |
| Picgo.ExtractURLIsLast | picgo/picgo.go:82-89 | for any list satisfying the scan, the result is "" when the list is empty and otherwise exactly the text of its last pair |
| Picgo.ExtractTokenFromPath | picgo/picgo.go:156-169 | the token holds no '/' |
| Picgo.TokenOfImageFile | picgo/picgo.go:156-169 | the token of <dir>/<token><ext> is the token |
| Picgo.DotFileIsWhole | picgo/picgo.go:162-166 | a dot file keeps its whole name, since the cut happens only at an index > 0 |
| Picgo.UploadWithContext | picgo/picgo.go:49-78 | a URL is returned iff picgo ran and its trimmed output holds one, and it is the last one; a timeout, a failure, empty output and output without a URL are the four errors |
| Picgo.BatchOf | picgo/picgo.go:100-153 | result keys and uploaded paths are among the input paths; empty input gives an empty map |
| Picgo.StepRemembers | picgo/picgo.go:123-147 | one path keeps every remembered token in the cache, and a loaded cache stays loaded |
| Picgo.BatchRemembers | picgo/picgo.go:100-153 | after the batch, the token of every path with a result (and a non-empty token) is cached |
| Picgo.StepResults | picgo/picgo.go:123-142 | one path: no other path's result changes; a cached token gives the cached URL; otherwise a successful upload gives its URL and a failed one leaves the results unchanged |
| Picgo.BatchOutcome | picgo/picgo.go:123-142 | a path listed once gets the URL cached for its token by its turn, if any; otherwise it has a result iff its upload succeeds, and then the upload's URL |
| Picgo.RerunUploadsNothing | picgo/picgo.go:123-131 | when every path got a result, a second batch with the resulting cache uploads nothing, and every path gets exactly the URL cached for its token |
| Picgo.AllCachedResults | picgo/picgo.go:123-131 | with every token cached, every path gets a result, no other key appears and the cache is unchanged |
| Picgo.AllCached | picgo/picgo.go:123-131 | with every token cached, a batch uploads nothing, leaves the cache as it is and returns the cached URLs |
| Picgo.BatchUpload | picgo/picgo.go:100-153 | the loop computes BatchOf: its results and the cache's new state |
| Picgo.UploadOne | picgo/picgo.go:116-148 | one path: the cached URL when its token is cached, else an upload whose success is recorded and, for a non-empty token, cached; the new results and cache are those of BatchStep |
| CoreConfig.Override | core/config.go:66-82 | a value replaces the current one only when it is not empty |
| CoreConfig.CredentialPrecedence | core/config.go:63-82 | each credential is the argument if given, else the environment variable if set and non-empty, else "" |
| CoreConfig.OutputPrecedence | core/config.go:93-102 | the directories change only for a non-empty variable, and then take its value; the flags never change |
| CoreConfig.ImageBedFromZero | core/config.go:105-136 | enabled iff IMGBED_ENABLED is "true" or "1"; every other field is its variable's value, "" when unset |
| CoreConfig.LoadTwice | core/config.go:93-136 | loading the same environment twice changes nothing |
| CoreConfig.Config.constructor | core/config.go:45-59 | the given credentials, "./dist", "img", titles as file names, no HTML tags, image download on, image bed off |
| CoreConfig.Config.LoadOutputConfig | core/config.go:93-102 | the output settings become OutputFromEnv of the old ones; the rest is unchanged |
| CoreConfig.Config.LoadImageBedConfig | core/config.go:105-136 | the image-bed settings become ImageBedFromEnv of the old ones; the rest is unchanged |
| CoreConfig.LoadConfig | core/config.go:63-90 | a fresh configuration with the credentials by precedence, the output defaults under the environment, the image bed from the environment, and never an error |
| ImgBed.NewUploader | imgbed/uploader.go:21-58 | checks in order: not enabled, no platform, missing secret, missing bucket or region; only "oss" and "cos" are accepted; a client failure is an error; each error holds exactly when its check is the first to fail |
| ImgBed.IsEnabled | imgbed/uploader.go:143-145 | a configuration is given and switched on |
| ImgBed.UploaderIffEnabled | imgbed/uploader.go:21-24 | an uploader exists only for an enabled configuration, and a disabled one gives the not-enabled error |
| ImgBed.ObjectKey | imgbed/oss.go:68-73 | the file name when PrefixKey is empty; for a safe file name, a key that ends in "/" + name (or is the name) |
| ImgBed.Endpoint | imgbed/oss.go:76-87 | the bucket URL always uses https |
| ImgBed.ObjectURL | imgbed/oss.go:76-87 | the endpoint, then "/" and the key |
| ImgBed.HostURL | imgbed/oss.go:77-80 | with a custom host, both platforms give the same URL, and a leading "https://" or "http://" on the host is ignored |
| ImgBed.BuildURL | imgbed/oss.go:90-93 | the URL of the object key of the file: https, ending in "/" + key, and in "/" + name for a safe name |
| ImgBed.OssCheckExists | imgbed/oss.go:96-107 | always the BuildURL value; found only when the store answers yes, never on an error |
| ImgBed.CosCheckExists | imgbed/cos.go:97-109 | always the BuildURL value; found exactly when the HEAD request succeeds |
| ImgBed.FindIn | imgbed/oss.go:118-135 | found iff some key's name starts with the prefix; then the first such key in listing order, its URL and its name; otherwise (false, "", "") |
| ImgBed.FindInConcat | imgbed/oss.go:115-142 | searching two listings in turn is searching their concatenation |
| ImgBed.KeyNameOfObjectKey | imgbed/oss.go:125-128 | with an empty or clean PrefixKey, the name derived from a stored key is the file name it was stored under |
| ImgBed.FindsStoredFile | imgbed/oss.go:110-145 | with an empty or clean PrefixKey, a stored file whose name starts with the prefix is found |
| ImgBed.UncleanPrefixHidesUploads | imgbed/oss.go:68-128 | with PrefixKey "./i", the file "a.b" is stored as "i/a.b", and the lookup as written does not find it under prefix "a" |
| ImgBed.FindsStoredFileByBase | imgbed/oss.go:125-128 | naming keys by their last element, every stored safe file is found, whatever PrefixKey is |
| ImgBed.CosFindByPrefix | imgbed/cos.go:112-143 | one listing only; a listing error gives (false, "", ""); otherwise the first match of that listing |
| ImgBed.OssFind | imgbed/oss.go:110-145 | a found name starts with the prefix; a listing error or no match gives (false, "", "") |
| ImgBed.OssFindWholeListing | imgbed/oss.go:115-142 | when every page arrives, the paged search gives the first match of the whole listing |
| ImgBed.OssFindByPrefix | imgbed/oss.go:110-145 | the marker loop computes OssFind |
| ImgBed.UploadFromLocal | imgbed/uploader.go:68-85 | a read failure is an error before any upload; the object is stored under the key of the file's base name, and a success returns BuildURL of that base name |
| ImgBed.BatchResults | imgbed/uploader.go:90-140 | a path is a key iff it is an input path whose upload succeeds, and it maps to the URL of its base name; failures are left out |
| ImgBed.BatchUploadFromLocal | imgbed/uploader.go:90-140 | the loop computes BatchResults |

## Left out

- The rate limiter of core/ratelimiter.go is not part of this model. Its limiter waits are boolean parameters. Its `Wait` takes a per-second token before the per-minute one, and `Allow` short-circuits, so its two buckets are not consumed atomically; the model does not capture that.
- Goroutines, channels, semaphores, the WaitGroup and mutexes are replaced by sequential loops. Concurrency caps (16, 20, 10) and which error is read first from a channel are not modelled.
- File-system calls, `filepath.Glob`, the Lark SDK, the OSS and COS SDKs, running the picgo process and JSON (un)marshalling are parameters. Their results are inputs: `Existing`, `CacheFile`, `Run`, listing functions, `read` and `put`.
- Glob metacharacters in an image token are not modelled. The glob `token.*` is taken as "starts with token + '.'".
- MD5 is the `hash` parameter of Assets.ShouldSkipFile.
- lute formatting of the body and PNG re-encoding are left out.
- Time-zone conversion and time formatting are the `format` parameter of Metadata.DateFields. The current time is its `now` parameter.
- Writing the upload cache back to its file (`persistCache`) is left out; only the in-memory cache is modelled.
- Command-line parsing and dispatch, the `.env` template of cmd/init.go, the panicking `utils.CheckErr`, `utils.PrettyPrint`, the URL validators and the document parser are not part of this model.
- `GetWikiName`, `DownloadImageRaw`, the platforms' `Upload` request bodies and `GetPlatform` are not modelled beyond their results.
- Error messages are English renderings of the program's Chinese messages. Their text is not modelled, only which error occurs.
- Tree.GetAllChildNodes assumes the remote is a finite tree (`Finite`), because the code has no cycle guard.
- PathMap.BuildPathMap assumes the node list is what that walk yields on a consistent remote (`WellFormed`). On other lists the recursion of `buildPaths` need not end.
- Paging.Collect and the listing methods assume the server's page chain ends (`Ends`).
- ImgBed.CosFindByPrefix takes the listing it is given. The ten-key limit of the COS request is a property of that parameter.
- Stats.ImageLog takes the downloads to be the images marked for upload, as the code does (`len(needUploadImages)`). Without an image bed this counts no new images.
- Picgo.ExtractTokenFromPath states only that the token holds no '/'. Its full behaviour is given by Picgo.TokenOfImageFile and Picgo.DotFileIsWhole.
- Picgo.BatchOf states only the key and upload bounds. The result of each path (cached, uploaded or failed) is stated by Picgo.BatchOutcome; what is cached by Picgo.BatchRemembers, Picgo.AllCached and Picgo.RerunUploadsNothing.
- Assets.ReplaceEachRewrite holds for tokens that are runs of ASCII letters and digits, none inside a longer word of the body, and links that hold no other token (`TokenLinks`). Feishu tokens and the links built from them are of that form. For other bodies only Assets.ReplaceEachAbsent is stated.
- A cache file holding the JSON value `null` leaves the Go map nil (picgo/cache.go:59), and the next SaveCache then panics on assignment (picgo/cache.go:102). This is not modelled: a cache file is missing, invalid or a decoded map, and saving never fails.
- Images.LeastIsLeast uses a model of Go's byte-wise string order on runes. For non-ASCII names, the rune order and UTF-8 byte order agree.

## Findings

| source | as written | input that shows it | evidently intended | confidence | as-written member | corrected member |
|---|---|---|---|---|---|---|
| core/client.go:310-327 | `resp, err :=` inside the loop declares a new `resp`, so the loop condition keeps reading the first page: at most one follow-up request is made | a wiki node list of three pages a, b, c gives only a and b | follow HasMore until the last page | high, not executed | Client.WikiNodeListDropsThirdPage | Client.GetWikiNodeListAllPages |
| core/client.go:228-230 | `v*1_000_000` is computed in int64 and wraps around | the millisecond stamp 9223372036855 (in the year 2262) is read as an instant before 1970 | v milliseconds is the instant v·10^6 ns after the epoch (`time.UnixMilli`) | medium, not executed | Timestamps.WrapAroundBefore1970 | Timestamps.ParseUnix |
| imgbed/oss.go:125-128 | the name of a listed key is the key with PrefixKey trimmed as written (imgbed/cos.go:130-133 does the same), while keys are made with `path.Join`, which cleans PrefixKey | PrefixKey "./i": the file "a.b" is stored as "i/a.b", and FindByPrefix("a") never finds it | derive the name from the key the same way the key was made (its last element) | medium, not executed | ImgBed.UncleanPrefixHidesUploads | ImgBed.FindsStoredFileByBase |
