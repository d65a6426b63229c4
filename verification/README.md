# dexloader in Dafny

A model of the core of dexloader, a MangaDex downloader written in Rust.
Given the URL of a manga's title page, dexloader reads the manga id out of it.
It then:

- asks the MangaDex API for the manga's chapter list;
- asks the at-home image server where each chapter's page images live;
- downloads the pages in waves of concurrent requests, numbering every page by its position;
- packs the pages into an epub.

Each page of the epub is an XHTML page built from a fixed template.

The model covers these pieces.

- **Batch download.** `async_get_image_batch` (module `Connection`) is modelled as a closed-form schedule of spawned tasks, together with the loop that follows it wave by wave.
- **Chapter.** Its file-name template and its download (module `Chapters`). The page addresses are built, reversed, and handed to the batch download. Page k of a chapter holds the bytes of the k-th file name the server listed.
- **Manga record.** The first author and first cover art are found among the relationships (module `MangaInfo`).
- **Manga workflow** (module `Mangas`):
  - the id taken from the URL;
  - the chapter-list request, read back as query parameters;
  - `get_chapters` and `get_total`;
  - the author and cover lookups;
  - `download_chapters`;
  - `generate_epub`.
- **Book** (module `Epub`):
  - the ordered resource list;
  - page names `Text/<chapter>_<order>.xhtml`;
  - the page template with its image placeholder;
  - the sequence of builder calls that `generate` makes.
- **Older revision** of the manga module (module `LegacyManga`). Its request always carries an offset, and its chapter download saves pages to numbered files.

Supporting modules:

- `Common`: `Option`, bytes, `Vec::reverse`.
- `Strings`: `split`, `replace`, and integer `to_string` with its inverse.
- `Query`: reads a request's query string back into parameters. This is the partner against which the request URLs are checked.
- `Images`: the two image records.

How the outside world is modelled:

- Every network or JSON request is an oracle function `Url -> Option<T>`, held as a parameter or in the `Service` record. `None` stands for the `unwrap`/`expect` that would abort the program. A method that meets one returns `None` itself.
- How Rust prints an `f32` is the oracle `formatNumber: real -> string`.
- `tokio` spawning and `join_all` are modelled sequentially in spawn order. `join_all` returns results in that order, so timing does not matter.

Behaviour of the program that the model keeps:

- A failed download aborts the whole program.
- A non-positive concurrency makes each pass pop nothing.
- Pages come back numbered 0..n-1 in order at concurrency 5, the value every caller passes, and whenever the concurrency is at least the number of URLs. At other values URLs are left unfetched or page numbers skip or repeat. See Findings.

## Model

| member | source | states |
|---|---|---|
| Connection.Schedule | src/connection.rs:32-42 | the tasks the loop spawns: the k-th pop takes the k-th URL from the back of the stack and is numbered 5·(k / cp) + k mod cp; there are min(n, ⌈n/5⌉·cp) pops, none for cp ≤ 0 |
| Connection.PopWave | src/connection.rs:34-42 | one pass pops min(len, cp) URLs from the back, slot j numbered start + j, and leaves the front of the stack untouched |
| Connection.JoinWave | src/connection.rs:45-50 | a wave yields images exactly when every download in it succeeds, in spawn order |
| Connection.FetchedAppend | src/connection.rs:52 | appending a wave's results after the earlier results gives the results of all tasks spawned so far |
| Connection.FailedWave | src/connection.rs:45-50 | a failed download in a wave is a failed task of the whole schedule, so the run aborts |
| Connection.PassesWhenDone | src/connection.rs:32 | the outer loop runs ⌈n/5⌉ times |
| Connection.PassExtendsSchedule | src/connection.rs:32-42 | each pass appends exactly the next entries of the schedule |
| Connection.FetchInWaves | src/connection.rs:27-57 | the loop spawns a prefix of the schedule and pops only from the back; it returns images iff every scheduled download succeeds, and then they are the scheduled tasks' images in order |
| Connection.AsyncGetImageBatch | src/connection.rs:27-57 | as FetchInWaves with the step 5 of the source: it spawns a prefix of the schedule, and the whole schedule when it returns images; an empty batch spawns nothing; at concurrency 5, or at any concurrency of at least the number of URLs, the stack is drained and image k is page k holding the bytes of the k-th URL from the back |
| Connection.ScheduleInOrder | src/connection.rs:32-42 | when the step equals the concurrency, every URL is popped once and page numbers equal pop positions |
| Connection.ScheduleWideInOrder | src/connection.rs:32-42 | when the concurrency is at least the number of URLs, the first pass pops every URL as pages 0..n-1, whatever the step, and later passes pop nothing |
| Connection.FetchedInOrder | src/connection.rs:45-56 | downloading the in-order schedule succeeds iff every URL fetches, and then gives the pages in order |
| Connection.ConcurrencyTwoSkipsUrls | src/connection.rs:32-38 | concurrency 2 on six URLs fetches only four of them, numbered 0, 1, 5, 6 |
| Connection.ConcurrencySixRepeatsPage | src/connection.rs:32-38 | concurrency 6 on seven URLs numbers two different pages 5 |
| Connection.CorrectedImageBatch | src/connection.rs:22-57 | with step = concurrency, for every concurrency ≥ 1, all URLs are fetched once and page k holds the k-th URL from the back; at 5 it spawns the same tasks as the code as written |
| Chapters.GetChapterNumber | src/manga/chapter/chapter.rs:37-39 | the chapter number, or 0 when the chapter has none |
| Chapters.GenerateFileName | src/manga/chapter/chapter.rs:42-44 | the name `Images/<no>_ORDER.jpg` has one placeholder: filling `ORDER` with a tag gives `Images/<no>_<tag>.jpg`, nothing else touched, when the printed number has no capital O |
| Chapters.ImageUrlFileName | src/manga/chapter/chapter.rs:84-96 | the last `/` segment of a page address is its file name |
| Chapters.ReversedUrlAt | src/manga/chapter/chapter.rs:89-97 | counted from the back, the reversed address list gives file k's address at position k |
| Chapters.ReversedBatchFetched | src/manga/chapter/chapter.rs:89-100 | the reversed batch downloads completely iff every listed file does |
| Chapters.ReversedBatchPages | src/manga/chapter/chapter.rs:89-102 | pages that come back in order from the reversed batch are the listed files, page k from file k |
| Chapters.FetchChapterPages | src/manga/chapter/chapter.rs:82-103 | downloading a chapter through the batch download as written, at concurrency 5, gives, when the server answers and every file downloads, page k numbered k with the bytes of the k-th listed file, and otherwise aborts |
| Chapters.Download | src/manga/chapter/chapter.rs:82-103 | `download` is that same function of the chapter id |
| MangaInfo.GetTitle | src/manga/manga_data.rs:32-34 | the English title of the record |
| MangaInfo.RelationId | src/manga/manga_data.rs:36-47 | the id of the first relationship of the given kind, empty when there is none, and never an id of another kind |
| MangaInfo.RelationIdFirstWins | src/manga/manga_data.rs:39-44 | relationships after the first match do not change the result |
| MangaInfo.GetAuthorId | src/manga/manga_data.rs:36-47 | the first author's id, or empty |
| MangaInfo.GetCoverId | src/manga/manga_data.rs:49-60 | the first cover art's id, or empty |
| Epub.NewBook | src/epub.rs:52-56 | a new book has no resources and no cover |
| Epub.AddImage | src/epub.rs:74-84 | appends one image resource with the given order, chapter order, path and bytes, keeps earlier resources and the cover, and leaves the page without bytes |
| Epub.AddImageGenerates | src/epub.rs:107-122 | the builder then emits exactly that image's file and its page, after the earlier resources' entries |
| Epub.AddChapterPartition | src/epub.rs:86-95 | appends a section marker with order and chapter order -1, which the builder emits as one titled section |
| Epub.AddCoverImage | src/epub.rs:97-101 | moves the image bytes into the cover, resources unchanged |
| Epub.PageName | src/epub.rs:117 | a page name `Text/<chapter order>_<order>.xhtml` has one underscore, between the chapter order and the order |
| Epub.PageNameInjective | src/epub.rs:116-119 | two resources get the same page name only if both chapter order and order agree |
| Epub.TailUnchanged | src/epub.rs:27 | the `Img` of `bkgImg` after the placeholder is not replaced |
| Epub.PageHtml | src/epub.rs:112-115 | a page's XHTML is the template with `../<path>` written once where `IMAGE_SOURCE` stood and nothing else changed |
| Epub.Generate | src/epub.rs:103-131 | every resource gives one builder call (a section) or two (an image file and its page) |
| Epub.GenerateAppend | src/epub.rs:107-131 | the builder calls for two batches of resources are those of each batch in order |
| Mangas.MangaIdFromUrl | src/manga/manga.rs:30-33 | the id is the fifth `/` segment; it exists iff the URL has at least four slashes, and it contains no slash |
| Mangas.MangaIdOfSegments | src/manga/manga.rs:30-33 | a URL glued from slash-free segments gives back its fifth segment |
| Mangas.MangaIdOfTitleUrl | src/manga/manga.rs:30-33 | `https://mangadex.org/title/<id>/<slug>` yields `<id>` |
| Mangas.FromUrl | src/manga/manga.rs:181-193 | a new manga holds the id and URL as given, no data, no chapter list, empty title, author and chapters |
| Mangas.RequestParamsRead | src/manga/manga.rs:41-56 | the request parameters give the manga id, `en`, the limit when given and the offset when given under their own names, the offset last |
| Mangas.ChapterRequestUrl | src/manga/manga.rs:40-59 | the request URL is the chapter endpoint, `?`, and exactly those parameters encoded as a query, the offset only when it is not 0 |
| Mangas.ChapterRequestQuery | src/manga/manga.rs:40-59 | read back, the request URL has manga = id, language `en`, `limit` iff a limit is given, and `offset` iff the offset is not 0, as the last parameter |
| Mangas.GetChapters | src/manga/manga.rs:79-82 | stores the list the server returns for that request and changes nothing else |
| Mangas.GetTotal | src/manga/manga.rs:144-151 | the stored list's total iff a list is stored |
| Mangas.FetchAuthor | src/manga/manga.rs:91-97 | appends the name of the first author and changes nothing else; aborts without manga data or an author answer |
| Mangas.FetchCover | src/manga/manga.rs:99-112 | the cover is page 0 with the bytes of `covers/<manga id>/<file name>` for the first cover art's file name, and it aborts when one of the requests fails |
| Mangas.DownloadedChapters | src/manga/manga.rs:129-139 | one record per chapter in list order iff every chapter downloads |
| Mangas.DownloadAll | src/manga/manga.rs:129-139 | the loop yields exactly those records, or aborts |
| Mangas.DownloadChapters | src/manga/manga.rs:114-142 | title and author are fetched and appended iff either is empty; previous chapters are kept as a prefix unless cleared; one record per listed chapter follows in order; id, URL and list are unchanged |
| Mangas.TargetPath | src/manga/manga.rs:166-170 | for a file name made by `generate_file_name`, image i of chapter j is stored as `Images/<no>_<j>_<i>.jpg` |
| Mangas.BookResourceAt | src/manga/manga.rs:163-174 | image i of chapter j becomes the resource right after the pages of earlier chapters, with order i, chapter order j, its path and its bytes |
| Mangas.BookResourcesLength | src/manga/manga.rs:163-174 | every page of every chapter becomes exactly one resource |
| Mangas.AddChapterPages | src/manga/manga.rs:165-173 | the inner loop appends one resource per page of the chapter and leaves the pages without bytes |
| Mangas.GenerateEpub | src/manga/manga.rs:153-178 | the book gets the fetched cover and all pages in chapter and page order, and emits their entries; the manga keeps its pages without bytes; aborts iff the cover cannot be had |
| LegacyManga.FromUrl | src/manga.rs:172-177 | the id is read as in the current revision, with the URL as given |
| LegacyManga.ChapterRequestUrl | src/manga.rs:128-145 | the old request URL is the chapter endpoint, `?`, and the parameters encoded as a query, the offset always included |
| LegacyManga.SameRequestAsCurrent | src/manga.rs:128-145 | the old request equals the current one except that offset 0 is also sent |
| LegacyManga.ChapterRequestQuery | src/manga.rs:128-145 | read back, the old request always carries the offset, last, and the limit iff given |
| LegacyManga.SavedFileNamesDistinct | src/manga.rs:252-256 | no two pages are saved under the same file name |
| LegacyManga.Download | src/manga.rs:230-257 | the pages are the current revision's pages, page i saved as `test_img/<i>.jpg` |
| Strings.Split | src/manga/manga.rs:31 | `split` with k separators gives k + 1 pieces, none containing the separator |
| Strings.JoinSplit | src/manga/manga.rs:31 | joining the pieces of `split` restores the text |
| Strings.SplitJoin | src/manga/manga.rs:31-32 | splitting separator-free pieces joined by the separator gives the pieces |
| Strings.ReplaceOnce | src/epub.rs:112-115 | `replace` writes the replacement once where the single placeholder stands |
| Strings.ParseIntToString | src/manga/manga.rs:48 | `to_string` of an integer reads back as that integer |
| Strings.IntToStringInjective | src/epub.rs:117 | distinct integers print differently |
| Query.DecodeEncode | src/manga/manga.rs:40-59 | parameters without `&` or `=` encoded as `&key=value` decode back to themselves |
| Common.Reverse | src/manga/chapter/chapter.rs:97 | `reverse` moves element k to position len - 1 - k |
| Common.ReverseReverse | src/manga/chapter/chapter.rs:97 | reversing twice restores the list |

## Left out

- HTTP (`reqwest`), JSON decoding (`serde`), the `AsyncGet` trait, and the author and cover response types, which are reduced to the author's name and the cover's file name. Each request is an oracle returning the decoded value, or `None` for the panic. The at-home response is kept field for field as `Chapters.AtHomeServerResponse`.
- The `image` crate: decoding bytes into an image and saving an image. The legacy `MangaImage::save` is left out because it writes to the file system; its failure (the `expect` at src/manga.rs:254-255) is not modelled.
- `tokio` task scheduling: tasks of a wave are joined in spawn order, which is what `join_all` returns.
- `epub_builder`, the zip library and the output file. `Generate` returns the sequence of builder calls, and a failure of the builder or of file creation is not modelled.
- `add_author`, `add_title` and `add_css` (src/epub.rs:58-72, src/manga/manga.rs:156-158): metadata and a file read, no logic.
- f32 chapter numbers are `real`, and their printing is the oracle `formatNumber`. `GenerateFileName` and `TargetPath` state the filled-in name only when the printed number contains no capital `O`, which holds for Rust's float formatting.
- i32 and usize arithmetic is unbounded here: page numbers `i + j`, the `i as i32` casts and the page counts do not wrap.
- `get_manga_info` is folded into `DownloadChapters`. When only the author name is missing, the code appends the title a second time; the model does the same.
- src/manga/manga.rs:110 calls a three-argument `async_get_image` that src/connection.rs does not define. `FetchCover` models it as a plain download of the cover address numbered page 0.
- `util::deserialize_to_option_f32` and `util::deserialize_title` are not part of this model; a chapter's number and title arrive already decoded.
- The getters `get_pages`, `get_name`, `get_hash`, `get_data`, `get_data_save`, `get_url`, `MangaImage::new` / `MangaImage::from` and `get_page_no`: they are record fields and constructors of the datatypes here.
- Epub.Generate: its own contract bounds the number of builder calls; their order is stated by `Epub.GenerateAppend` and `Epub.AddImageGenerates`, because an order clause on the recursive function itself makes every proof about it too costly for the solver.
- `Chapters.ImageUrls`: its contract only gives the length; the addresses themselves are stated through `ReversedUrlAt`.

## Findings

| source | as written | input that shows it | evidently intended | confidence | as-written member | corrected member |
|---|---|---|---|---|---|---|
| src/connection.rs:32-37 | the outer loop steps by a fixed 5 while each pass pops `concurrent_process` URLs and numbers them `i + j` | concurrency 2 with six URLs fetches only four, numbered 0, 1, 5, 6; concurrency 6 with seven URLs numbers two pages 5 | step by `concurrent_process`, so every URL is fetched once and page k is the k-th popped | not executed; every caller passes 5, where both agree, as they also do whenever the concurrency is at least the number of URLs | Connection.ConcurrencyTwoSkipsUrls | Connection.CorrectedImageBatch |
