/** A manga and its workflow (src/manga/manga.rs): the id taken from the
    URL, the chapter-list request, downloading every listed chapter, and
    packing the downloaded pages into an epub.

    Every request goes through one of the oracles of `Service`; `None` from
    an oracle stands for the `expect`/`unwrap` that would abort the
    program, and a method that meets one returns `None` itself. */
module Mangas {
  import opened Common
  import opened Strings
  import opened Query
  import opened Images
  import opened Chapters
  import opened MangaInfo
  import opened Epub

  /** `limit`, `offset` and `total` of a chapter-list page. */
  datatype Pagination = Pagination(limit: int, offset: int, total: int)

  /** One page of the chapter list. */
  datatype ChapterList = ChapterList(data: seq<Chapter>, pagination: Pagination)

  datatype Manga = Manga(
    id: string,
    url: Url,
    data: Option<MangaData>,
    title: string,
    chapterList: Option<ChapterList>,
    chapterImages: seq<ChapterImage>,
    authorName: string)

  /** The outside world: one oracle per kind of JSON request (the author
      and cover requests reduced to the name and file name the program
      reads from them), the image download, and how an `f32` is printed. */
  datatype Service = Service(
    mangaInfo: Url -> Option<MangaData>,
    authorName: Url -> Option<string>,
    coverFileName: Url -> Option<string>,
    chapterList: Url -> Option<ChapterList>,
    atHome: Url -> Option<AtHomeServerResponse>,
    image: Url -> Option<Bytes>,
    formatNumber: real -> string)

  // ---------------------------------------------------------------------
  // The id and the request addresses
  // ---------------------------------------------------------------------

  /** `get_manga_id_from_url`: the fifth `/`-separated segment; a URL with
      fewer than four slashes makes the `unwrap` abort. */
  function MangaIdFromUrl(url: Url): (id: Option<string>)
    ensures id.Some? <==> CountChar(url, '/') >= 4
    ensures id.Some? ==> '/' !in id.value
  {
    var parts := Split(url, '/');
    if |parts| >= 5 then Some(parts[4]) else None
  }

  /** A URL glued from slash-free segments gives back its fifth segment. */
  lemma MangaIdOfSegments(parts: seq<string>)
    requires |parts| >= 5
    requires forall i :: 0 <= i < |parts| ==> '/' !in parts[i]
    ensures MangaIdFromUrl(Join(parts, '/')) == Some(parts[4])
  {
    SplitJoin(parts, '/');
  }

  /** Six segments joined with slashes. */
  lemma JoinSix(a: string, b: string, c: string, d: string, e: string, f: string)
    ensures Join([a, b, c, d, e, f], '/') == a + "/" + b + "/" + c + "/" + d + "/" + e + "/" + f
  {
    var parts := [a, b, c, d, e, f];
    assert parts[1..][1..][1..][1..][1..] == [f];
    assert Join(parts[4..], '/') == e + "/" + f;
    assert Join(parts[3..], '/') == d + "/" + (e + "/" + f);
    assert Join(parts[2..], '/') == c + "/" + (d + "/" + (e + "/" + f));
    assert Join(parts[1..], '/') == b + "/" + (c + "/" + (d + "/" + (e + "/" + f)));
  }

  /** The id of a title page `https://mangadex.org/title/<id>/<slug>`. */
  lemma MangaIdOfTitleUrl(id: string, slug: string)
    requires '/' !in id && '/' !in slug
    ensures MangaIdFromUrl("https://mangadex.org/title/" + id + "/" + slug) == Some(id)
  {
    assert "https:" + "/" + "" + "/" + "mangadex.org" + "/" + "title" + "/" == "https://mangadex.org/title/";
    assert '/' !in "https:" && '/' !in "mangadex.org" && '/' !in "title";
    var parts := ["https:", "", "mangadex.org", "title", id, slug];
    JoinSix("https:", "", "mangadex.org", "title", id, slug);
    MangaIdOfSegments(parts);
  }

  /** `From<&str>`: the id and the URL as given, nothing fetched yet. */
  function FromUrl(url: Url): (m: Option<Manga>)
    ensures m.Some? <==> CountChar(url, '/') >= 4
    ensures m.Some? ==>
              && m.value.id == Split(url, '/')[4] && m.value.url == url
              && m.value.data == None && m.value.chapterList == None
              && m.value.title == "" && m.value.authorName == "" && m.value.chapterImages == []
  {
    match MangaIdFromUrl(url)
    case None => None
    case Some(id) => Some(Manga(id, url, None, "", None, [], ""))
  }

  const ChapterEndpoint: string := "https://api.mangadex.org/chapter"

  /** `construct_manga_chapter_request_url`: the manga id and the language,
      then `&limit=<n>` when a limit is given, then `&offset=<n>` only when
      the offset is not 0. The address is the endpoint and exactly these
      parameters encoded as a query. */
  function ChapterRequestUrl(id: string, offset: int, chapterLimit: Option<int>): (url: Url)
    ensures url == ChapterEndpoint + "?"
                   + EncodeParams(RequestParams(id, chapterLimit, if offset != 0 then Some(offset) else None))[1..]
  {
    QueryText(id, chapterLimit, if offset != 0 then Some(offset) else None);
    ChapterEndpoint + "?"
    + ("manga=" + id + "&translatedLanguage[]=en"
       + OptText("limit", chapterLimit)
       + OptText("offset", if offset != 0 then Some(offset) else None))
  }

  /** The query part of a request URL, read back as parameters. */
  function QueryOf(url: Url, endpoint: string): Option<seq<Param>>
  {
    if |url| > |endpoint| && url[..|endpoint| + 1] == endpoint + "?"
    then DecodeParams("&" + url[|endpoint| + 1..])
    else None
  }

  /** One optional integer parameter: present exactly when it has a value. */
  function OptParam(key: string, v: Option<int>): seq<Param>
  {
    match v
    case Some(n) => [Param(key, IntToString(n))]
    case None => []
  }

  /** The text the program appends for an optional integer parameter:
      `&<key>=<n>` when there is a value, nothing otherwise. */
  function OptText(key: string, v: Option<int>): string
  {
    match v
    case Some(n) => "&" + key + "=" + IntToString(n)
    case None => ""
  }

  /** The parameters a chapter-list request carries, in the order they are
      pushed: the manga, the language, then the limit and the offset when
      present. */
  function RequestParams(id: string, chapterLimit: Option<int>, offset: Option<int>): seq<Param>
  {
    [Param("manga", id), Param("translatedLanguage[]", "en")]
    + OptParam("limit", chapterLimit) + OptParam("offset", offset)
  }

  lemma EncodeOptParam(key: string, v: Option<int>)
    ensures EncodeParams(OptParam(key, v)) == OptText(key, v)
  {
    if v.Some? {
      assert OptParam(key, v)[1..] == [];
    }
  }

  /** An optional parameter reads back as the value it was given. */
  lemma OptParamRead(key: string, v: Option<int>)
    requires Plain(key)
    ensures PlainParams(OptParam(key, v))
    ensures LookupInt(OptParam(key, v), key) == v
  {
    if v.Some? {
      IntToStringPlain(v.value);
      ParseIntToString(v.value);
    }
  }

  /** Parameters that do not carry the key can be skipped over. */
  lemma {:induction false} LookupSkip(a: seq<Param>, b: seq<Param>, key: string)
    requires forall i :: 0 <= i < |a| ==> a[i].key != key
    ensures Lookup(a + b, key) == Lookup(b, key)
    decreases |a|
  {
    if |a| > 0 {
      assert (a + b)[1..] == a[1..] + b;
      LookupSkip(a[1..], b, key);
    } else {
      assert a + b == b;
    }
  }

  /** A key no parameter carries is not found. */
  lemma {:induction false} LookupMissing(ps: seq<Param>, key: string)
    requires forall i :: 0 <= i < |ps| ==> ps[i].key != key
    ensures Lookup(ps, key) == None
    decreases |ps|
  {
    if |ps| > 0 {
      LookupMissing(ps[1..], key);
    }
  }

  // The request's keys are plain and pairwise different. These facts about
  // string constants are proved once here, apart from the lemmas that use
  // them, so that those larger proofs do not unfold the constants.

  /** Every key and fixed value of the request needs no encoding. */
  lemma KeysPlain()
    ensures Plain("manga") && Plain("translatedLanguage[]") && Plain("en")
    ensures Plain("limit") && Plain("offset")
  { }

  /** No two keys of the request are the same, so each reads back alone. */
  lemma KeysDistinct()
    ensures "limit" != "manga" && "limit" != "translatedLanguage[]"
    ensures "offset" != "manga" && "offset" != "translatedLanguage[]" && "offset" != "limit"
    ensures "translatedLanguage[]" != "manga"
  { }

  /** Read back, the parameters give each value under its own name. */
  lemma RequestParamsRead(id: string, chapterLimit: Option<int>, offset: Option<int>)
    requires Plain(id)
    ensures var ps := RequestParams(id, chapterLimit, offset);
      && PlainParams(ps)
      && Lookup(ps, "manga") == Some(id)
      && Lookup(ps, "translatedLanguage[]") == Some("en")
      && LookupInt(ps, "limit") == chapterLimit
      && LookupInt(ps, "offset") == offset
      && (offset.Some? ==> ps[|ps| - 1] == Param("offset", IntToString(offset.value)))
  {
    RequestParamsPlain(id, chapterLimit, offset);
    RequestHeadRead(id, chapterLimit, offset);
    RequestLimitRead(id, chapterLimit, offset);
    RequestOffsetRead(id, chapterLimit, offset);
  }

  lemma RequestParamsPlain(id: string, chapterLimit: Option<int>, offset: Option<int>)
    requires Plain(id)
    ensures PlainParams(RequestParams(id, chapterLimit, offset))
  {
    KeysPlain();
    OptParamRead("limit", chapterLimit);
    OptParamRead("offset", offset);
    var head := [Param("manga", id), Param("translatedLanguage[]", "en")];
    assert PlainParams(head);
    PlainParamsAppend(head, OptParam("limit", chapterLimit));
    PlainParamsAppend(head + OptParam("limit", chapterLimit), OptParam("offset", offset));
  }

  lemma PlainParamsAppend(a: seq<Param>, b: seq<Param>)
    requires PlainParams(a) && PlainParams(b)
    ensures PlainParams(a + b)
  {
    assert forall i :: 0 <= i < |a + b| ==> (a + b)[i] == (if i < |a| then a[i] else b[i - |a|]);
  }

  lemma RequestHeadRead(id: string, chapterLimit: Option<int>, offset: Option<int>)
    ensures var ps := RequestParams(id, chapterLimit, offset);
      && Lookup(ps, "manga") == Some(id)
      && Lookup(ps, "translatedLanguage[]") == Some("en")
  {
    var ps := RequestParams(id, chapterLimit, offset);
    KeysDistinct();
    assert ps[0] == Param("manga", id);
    assert ps[1..][0] == Param("translatedLanguage[]", "en");
  }

  lemma RequestLimitRead(id: string, chapterLimit: Option<int>, offset: Option<int>)
    ensures LookupInt(RequestParams(id, chapterLimit, offset), "limit") == chapterLimit
  {
    KeysPlain();
    KeysDistinct();
    var head := [Param("manga", id), Param("translatedLanguage[]", "en")];
    var lim := OptParam("limit", chapterLimit);
    var off := OptParam("offset", offset);
    OptParamRead("limit", chapterLimit);
    assert head + lim + off == head + (lim + off);
    LookupSkip(head, lim + off, "limit");
    if chapterLimit.None? {
      assert lim + off == off;
      LookupMissing(off, "limit");
    } else {
      assert (lim + off)[0] == lim[0];
    }
  }

  lemma RequestOffsetRead(id: string, chapterLimit: Option<int>, offset: Option<int>)
    ensures LookupInt(RequestParams(id, chapterLimit, offset), "offset") == offset
    ensures offset.Some? ==>
              var ps := RequestParams(id, chapterLimit, offset);
              ps[|ps| - 1] == Param("offset", IntToString(offset.value))
  {
    KeysPlain();
    KeysDistinct();
    var head := [Param("manga", id), Param("translatedLanguage[]", "en")];
    var lim := OptParam("limit", chapterLimit);
    OptParamRead("offset", offset);
    LookupSkip(head + lim, OptParam("offset", offset), "offset");
  }

  /** A request address is the endpoint, `?`, and the parameter text
      without its leading `&`; `QueryOf` reads such an address back. */
  lemma QueryOfEncoded(endpoint: string, ps: seq<Param>)
    requires |ps| >= 1 && PlainParams(ps)
    ensures QueryOf(endpoint + "?" + EncodeParams(ps)[1..], endpoint) == Some(ps)
  {
    var url := endpoint + "?" + EncodeParams(ps)[1..];
    var n := |endpoint| + 1;
    assert url[..n] == endpoint + "?";
    assert "&" + url[n..] == EncodeParams(ps);
    DecodeEncode(ps);
  }

  lemma RequestHeadText(id: string)
    ensures EncodeParams([Param("manga", id), Param("translatedLanguage[]", "en")])
         == "&" + ("manga=" + id + "&translatedLanguage[]=en")
  {
    var head := [Param("manga", id), Param("translatedLanguage[]", "en")];
    assert head[1..][1..] == [];
    assert EncodeParams(head[1..]) == "&" + "translatedLanguage[]" + "=" + "en";
    assert "&" + "translatedLanguage[]" + "=" + "en" == "&translatedLanguage[]=en";
    assert "&" + "manga" + "=" == "&manga=";
  }

  /** The parameter text of a request, leading `&` included. */
  lemma RequestEncoded(id: string, chapterLimit: Option<int>, offset: Option<int>)
    ensures EncodeParams(RequestParams(id, chapterLimit, offset))
         == "&" + ("manga=" + id + "&translatedLanguage[]=en") + OptText("limit", chapterLimit) + OptText("offset", offset)
  {
    var head := [Param("manga", id), Param("translatedLanguage[]", "en")];
    var lim := OptParam("limit", chapterLimit);
    var offs := OptParam("offset", offset);
    EncodeOptParam("limit", chapterLimit);
    EncodeOptParam("offset", offset);
    RequestHeadText(id);
    EncodeParamsAppend(head, lim);
    EncodeParamsAppend(head + lim, offs);
  }

  /** The query text both revisions of the program build, the manga and
      language and then the optional limit and offset texts, is the
      request parameters encoded, without the leading `&`. */
  lemma QueryText(id: string, chapterLimit: Option<int>, offset: Option<int>)
    ensures EncodeParams(RequestParams(id, chapterLimit, offset))[1..]
         == "manga=" + id + "&translatedLanguage[]=en" + OptText("limit", chapterLimit) + OptText("offset", offset)
  {
    var h := "manga=" + id + "&translatedLanguage[]=en";
    var l, o := OptText("limit", chapterLimit), OptText("offset", offset);
    var t := h + l + o;
    RequestEncoded(id, chapterLimit, offset);
    Regroup("&", h, l, o);
    assert ("&" + t)[1..] == t;
  }

  /** The parameters such a request asks for: the manga, the language, the
      limit when one is given and the offset only when it is not 0, as the
      last parameter. */
  lemma ChapterRequestQuery(id: string, offset: int, chapterLimit: Option<int>)
    requires Plain(id)
    ensures var ps := QueryOf(ChapterRequestUrl(id, offset, chapterLimit), ChapterEndpoint);
      && ps.Some?
      && Lookup(ps.value, "manga") == Some(id)
      && Lookup(ps.value, "translatedLanguage[]") == Some("en")
      && LookupInt(ps.value, "limit") == chapterLimit
      && LookupInt(ps.value, "offset") == (if offset != 0 then Some(offset) else None)
      && (offset != 0 ==> ps.value[|ps.value| - 1] == Param("offset", IntToString(offset)))
  {
    var off := if offset != 0 then Some(offset) else None;
    RequestParamsRead(id, chapterLimit, off);
    QueryOfEncoded(ChapterEndpoint, RequestParams(id, chapterLimit, off));
  }

  /** `get_chapters`: request the chapter list and store it; nothing else
      about the manga changes. */
  function GetChapters(m: Manga, chapterLimit: Option<int>, offset: int, svc: Service): (r: Option<Manga>)
    ensures r.Some? <==> svc.chapterList(ChapterRequestUrl(m.id, offset, chapterLimit)).Some?
    ensures r.Some? ==>
              && r.value.chapterList == svc.chapterList(ChapterRequestUrl(m.id, offset, chapterLimit))
              && r.value.(chapterList := m.chapterList) == m
  {
    match svc.chapterList(ChapterRequestUrl(m.id, offset, chapterLimit))
    case None => None
    case Some(list) => Some(m.(chapterList := Some(list)))
  }

  /** `get_total`: the total of the stored chapter list, if one is stored. */
  function GetTotal(m: Manga): (total: Option<int>)
    ensures total.Some? <==> m.chapterList.Some?
    ensures total.Some? ==> total.value == m.chapterList.value.pagination.total
  {
    match m.chapterList
    case Some(c) => Some(c.pagination.total)
    case None => None
  }

  function MangaInfoUrl(id: string): Url { "https://api.mangadex.org/manga/" + id }
  function AuthorUrl(id: string): Url { "https://api.mangadex.org/author/" + id }
  function CoverUrl(id: string): Url { "https://api.mangadex.org/cover/" + id }
  function CoverImageUrl(mangaId: string, fileName: string): Url
  {
    "https://uploads.mangadex.org/covers/" + mangaId + "/" + fileName
  }

  /** `fetch_author`: look the first author up and append the name. */
  function FetchAuthor(m: Manga, svc: Service): (r: Option<Manga>)
    ensures r.Some? <==> m.data.Some? && svc.authorName(AuthorUrl(GetAuthorId(m.data.value))).Some?
    ensures r.Some? ==>
              && r.value.authorName == m.authorName + svc.authorName(AuthorUrl(GetAuthorId(m.data.value))).value
              && r.value.(authorName := m.authorName) == m
  {
    if m.data.None? then None
    else
      match svc.authorName(AuthorUrl(GetAuthorId(m.data.value)))
      case None => None
      case Some(name) => Some(m.(authorName := m.authorName + name))
  }

  /** `fetch_cover`: look the first cover art up, then download its file as
      page 0. */
  function FetchCover(m: Manga, svc: Service): (r: Option<MangaImage>)
    ensures r.Some? ==> m.data.Some? && r.value.pageNo == 0
    ensures r.Some? ==>
              var file := svc.coverFileName(CoverUrl(GetCoverId(m.data.value)));
              file.Some? && svc.image(CoverImageUrl(m.id, file.value)) == Some(r.value.image)
    ensures r.None? ==>
              || m.data.None?
              || svc.coverFileName(CoverUrl(GetCoverId(m.data.value))).None?
              || svc.image(CoverImageUrl(m.id, svc.coverFileName(CoverUrl(GetCoverId(m.data.value))).value)).None?
  {
    if m.data.None? then None
    else
      match svc.coverFileName(CoverUrl(GetCoverId(m.data.value)))
      case None => None
      case Some(file) =>
        match svc.image(CoverImageUrl(m.id, file))
        case None => None
        case Some(bytes) => Some(MangaImage(0, bytes))
  }

  // ---------------------------------------------------------------------
  // download_chapters
  // ---------------------------------------------------------------------

  /** The record kept for one downloaded chapter. */
  function DownloadedChapter(c: Chapter, svc: Service): Option<ChapterImage>
  {
    match ChapterPages(c.id, svc.atHome, svc.image)
    case None => None
    case Some(pages) =>
      Some(ChapterImage(GetChapterNumber(c), c.attributes.title, GenerateFileName(c, svc.formatNumber), pages))
  }

  /** All chapters downloaded in list order, or nothing if one fails. */
  function DownloadedChapters(cs: seq<Chapter>, svc: Service): (r: Option<seq<ChapterImage>>)
    ensures r.Some? <==> forall k :: 0 <= k < |cs| ==> DownloadedChapter(cs[k], svc).Some?
    ensures r.Some? ==>
              && |r.value| == |cs|
              && forall k :: 0 <= k < |cs| ==> DownloadedChapter(cs[k], svc) == Some(r.value[k])
    decreases |cs|
  {
    if |cs| == 0 then Some([])
    else
      var front := DownloadedChapters(cs[..|cs| - 1], svc);
      var last := DownloadedChapter(cs[|cs| - 1], svc);
      if front.None? || last.None? then None else Some(front.value + [last.value])
  }

  /** Title and author are fetched unless both are already known. */
  predicate NeedsInfo(m: Manga)
  {
    m.title == "" || m.authorName == ""
  }

  /** The manga record and the author name can be had when needed. */
  predicate InfoAvailable(m: Manga, svc: Service)
  {
    var info := svc.mangaInfo(MangaInfoUrl(m.id));
    !NeedsInfo(m) || (info.Some? && svc.authorName(AuthorUrl(GetAuthorId(info.value))).Some?)
  }

  /** The chapter loop of `download_chapters`: each chapter of the list in
      turn is downloaded and its record appended; the first chapter that
      cannot be downloaded aborts the run. */
  method DownloadAll(chapters: seq<Chapter>, svc: Service) returns (records: Option<seq<ChapterImage>>)
    ensures records == DownloadedChapters(chapters, svc)
  {
    var done: seq<ChapterImage> := [];
    var k := 0;
    while k < |chapters|
      invariant 0 <= k <= |chapters|
      invariant DownloadedChapters(chapters[..k], svc) == Some(done)
    {
      var c := chapters[k];
      var pages := Download(c, svc.atHome, svc.image);
      assert chapters[..k + 1][..k] == chapters[..k];
      if pages.None? {
        assert DownloadedChapter(chapters[k], svc).None?;
        return None;
      }
      var record := ChapterImage(GetChapterNumber(c), c.attributes.title, GenerateFileName(c, svc.formatNumber), pages.value);
      done := done + [record];
      k := k + 1;
    }
    assert chapters[..k] == chapters;
    records := Some(done);
  }

  /** `download_chapters`: fetch title and author if either is missing
      (appending both), optionally drop the chapters downloaded before, then
      download every chapter of the stored list and append one record per
      chapter, in list order. */
  method DownloadChapters(m: Manga, clearPrevious: bool, svc: Service) returns (r: Option<Manga>)
    ensures r.Some? <==>
              && InfoAvailable(m, svc)
              && m.chapterList.Some?
              && DownloadedChapters(m.chapterList.value.data, svc).Some?
    ensures r.Some? ==>
              r.value.chapterImages
                == (if clearPrevious then [] else m.chapterImages)
                   + DownloadedChapters(m.chapterList.value.data, svc).value
    ensures r.Some? ==>
              r.value.id == m.id && r.value.url == m.url && r.value.chapterList == m.chapterList
    ensures r.Some? && !NeedsInfo(m) ==>
              r.value.data == m.data && r.value.title == m.title && r.value.authorName == m.authorName
    ensures r.Some? && NeedsInfo(m) ==>
              var info := svc.mangaInfo(MangaInfoUrl(m.id));
              && r.value.data == info
              && r.value.title == m.title + GetTitle(info.value)
              && r.value.authorName == m.authorName + svc.authorName(AuthorUrl(GetAuthorId(info.value))).value
  {
    var cur := m;
    if NeedsInfo(m) {
      var info := svc.mangaInfo(MangaInfoUrl(m.id));
      if info.None? {
        return None;
      }
      cur := cur.(data := info, title := cur.title + GetTitle(info.value));
      var withAuthor := FetchAuthor(cur, svc);
      if withAuthor.None? {
        return None;
      }
      cur := withAuthor.value;
    }
    if clearPrevious {
      cur := cur.(chapterImages := []);
    }
    if cur.chapterList.None? {
      return None;
    }
    var records := DownloadAll(cur.chapterList.value.data, svc);
    if records.None? {
      return None;
    }
    cur := cur.(chapterImages := cur.chapterImages + records.value);
    r := Some(cur);
  }

  // ---------------------------------------------------------------------
  // generate_epub
  // ---------------------------------------------------------------------

  /** Where image i of chapter j is stored: the chapter's file name with
      every `ORDER` replaced by `j_i`. For a name made by `generate_file_name`
      this is `Images/<number>_<j>_<i>.jpg`. */
  function TargetPath(targetName: string, j: int, i: int): (path: string)
    ensures forall c: Chapter, fmt: real -> string ::
              targetName == GenerateFileName(c, fmt) && 'O' !in fmt(GetChapterNumber(c)) ==>
                path == "Images/" + fmt(GetChapterNumber(c)) + "_" + IntToString(j) + "_" + IntToString(i) + ".jpg"
  {
    Replace(targetName, "ORDER", IntToString(j) + "_" + IntToString(i))
  }

  /** The resources added for chapter j, one image resource per page. */
  function ChapterResources(ci: ChapterImage, j: int): (rs: seq<BookContent>)
    ensures |rs| == |ci.images|
  {
    seq(|ci.images|, i requires 0 <= i < |ci.images| =>
      BookContent(i, j, TargetPath(ci.targetName, j, i), Image(ci.images[i].image), "image/jpeg"))
  }

  /** The resources of all chapters, chapter by chapter. */
  function BookResources(cis: seq<ChapterImage>): seq<BookContent>
    decreases |cis|
  {
    if |cis| == 0 then []
    else BookResources(cis[..|cis| - 1]) + ChapterResources(cis[|cis| - 1], |cis| - 1)
  }

  /** Number of pages in the first j chapters. */
  function PagesBefore(cis: seq<ChapterImage>, j: nat): nat
    requires j <= |cis|
    decreases j
  {
    if j == 0 then 0 else PagesBefore(cis, j - 1) + |cis[j - 1].images|
  }

  /** Image i of chapter j is the resource right after the pages of the
      chapters before it, with order i, chapter order j, its filled-in
      target path and the page's bytes. */
  lemma {:induction false} BookResourceAt(cis: seq<ChapterImage>, j: nat, i: nat)
    requires j < |cis| && i < |cis[j].images|
    ensures PagesBefore(cis, j) + i < |BookResources(cis)|
    ensures BookResources(cis)[PagesBefore(cis, j) + i]
         == BookContent(i, j, TargetPath(cis[j].targetName, j, i), Image(cis[j].images[i].image), "image/jpeg")
    decreases |cis|
  {
    var n := |cis|;
    var front := cis[..n - 1];
    var last := ChapterResources(cis[n - 1], n - 1);
    assert BookResources(cis) == BookResources(front) + last;
    BookResourcesLength(front);
    if j == n - 1 {
      PagesBeforeSame(front, cis, n - 1);
      assert last[i] == BookContent(i, j, TargetPath(cis[j].targetName, j, i), Image(cis[j].images[i].image), "image/jpeg");
    } else {
      BookResourceAt(front, j, i);
      assert front[j] == cis[j];
      PagesBeforeSame(front, cis, j);
    }
  }

  /** The page count of the first j chapters depends on those alone. */
  lemma {:induction false} PagesBeforeSame(a: seq<ChapterImage>, b: seq<ChapterImage>, j: nat)
    requires j <= |a| && j <= |b| && a[..j] == b[..j]
    ensures PagesBefore(a, j) == PagesBefore(b, j)
    decreases j
  {
    if j > 0 {
      assert a[j - 1] == a[..j][j - 1] == b[..j][j - 1] == b[j - 1];
      assert a[..j - 1] == a[..j][..j - 1];
      PagesBeforeSame(a, b, j - 1);
    }
  }

  /** Every page of every chapter becomes exactly one resource. */
  lemma {:induction false} BookResourcesLength(cis: seq<ChapterImage>)
    ensures |BookResources(cis)| == PagesBefore(cis, |cis|)
    decreases |cis|
  {
    if |cis| > 0 {
      var front := cis[..|cis| - 1];
      BookResourcesLength(front);
      PagesBeforeSame(front, cis, |cis| - 1);
    }
  }

  /** A chapter after `add_image` took its bytes: same pages, no bytes. */
  function Cleared(ci: ChapterImage): ChapterImage
  {
    ci.(images := seq(|ci.images|, i requires 0 <= i < |ci.images| => ci.images[i].(image := [])))
  }

  /** The inner loop of `generate_epub` for chapter j: each page, in
      order, is moved into the book as image i of chapter j. */
  method AddChapterPages(book: Book, ci: ChapterImage, j: int) returns (book': Book, ci': ChapterImage)
    ensures book'.resources == book.resources + ChapterResources(ci, j)
    ensures book'.cover == book.cover
    ensures ci' == Cleared(ci)
  {
    book' := book;
    ghost var rs := ChapterResources(ci, j);
    ghost var cleared := Cleared(ci).images;
    var done: seq<MangaImage> := [];
    var i := 0;
    while i < |ci.images|
      invariant 0 <= i <= |ci.images|
      invariant done == cleared[..i]
      invariant book'.cover == book.cover
      invariant book'.resources == book.resources + rs[..i]
    {
      var added := AddImage(book', ci.images[i], i, TargetPath(ci.targetName, j, i), j);
      assert added.0.resources == book'.resources + [rs[i]];
      assert rs[..i + 1] == rs[..i] + [rs[i]];
      assert added.1 == cleared[i];
      assert cleared[..i + 1] == cleared[..i] + [added.1];
      book' := added.0;
      done := done + [added.1];
      i := i + 1;
    }
    assert rs[..i] == rs && cleared[..i] == cleared;
    ci' := ci.(images := done);
  }

  /** `generate_epub`: fetch the cover and move it into a new book, then
      move every page of every stored chapter into it, in chapter order and
      page order, and let the book emit its entries. The manga keeps its
      chapters and page numbers but no page bytes. Author, title and style
      sheet metadata are not part of this model. */
  method GenerateEpub(m: Manga, svc: Service) returns (r: Option<(Manga, Book, seq<EpubEntry>)>)
    ensures r.Some? <==> FetchCover(m, svc).Some?
    ensures r.Some? ==>
              var (m', book, entries) := r.value;
              && book.cover == Some(FetchCover(m, svc).value.image)
              && book.resources == BookResources(m.chapterImages)
              && entries == Generate(book.resources)
              && m' == m.(chapterImages := seq(|m.chapterImages|, j requires 0 <= j < |m.chapterImages| =>
                                                Cleared(m.chapterImages[j])))
  {
    var cover := FetchCover(m, svc);
    if cover.None? {
      return None;
    }
    var withCover := AddCoverImage(NewBook(), cover.value);
    var book := withCover.0;
    var cis := m.chapterImages;
    var j := 0;
    while j < |cis|
      invariant 0 <= j <= |cis| == |m.chapterImages|
      invariant forall t :: 0 <= t < j ==> cis[t] == Cleared(m.chapterImages[t])
      invariant forall t :: j <= t < |cis| ==> cis[t] == m.chapterImages[t]
      invariant book.cover == Some(cover.value.image)
      invariant book.resources == BookResources(m.chapterImages[..j])
    {
      var ci';
      book, ci' := AddChapterPages(book, cis[j], j);
      assert m.chapterImages[..j + 1][..j] == m.chapterImages[..j];
      cis := cis[j := ci'];
      j := j + 1;
    }
    assert m.chapterImages[..j] == m.chapterImages;
    assert cis == seq(|m.chapterImages|, t requires 0 <= t < |m.chapterImages| => Cleared(m.chapterImages[t]));
    var m' := m.(chapterImages := cis);
    r := Some((m', book, Generate(book.resources)));
  }
}
