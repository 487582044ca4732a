/**
 * The backfill crawler of `scraptt/spiders/ptt_article.py`: it requests
 * the numbered listing pages `index1.html` … `index{pages}.html` of one
 * board, every topic on them, and archives each post page's HTML under
 * `data/`, named by the post's date and id.
 *
 * Pages come in already selected, as for the board crawler; the decoded
 * page body, `dateutil.parser.parse` and whether a path can be opened for
 * writing are inputs.
 */
module ArticleSpider {
  import opened Wrappers
  import opened Text
  import opened Items
  import PttSpider

  // ---------------------------------------------------------------------
  // Arguments and start requests

  /** The spider after `__init__`: the board and the number of pages. */
  datatype Spider = Spider(board: string, pages: int)

  /** `__init__`: `board` and `pages` are popped from the keyword
      arguments; a missing one raises `KeyError`, and there is no spider. */
  function NewSpider(board: Option<string>, pages: Option<int>): (r: Option<Spider>)
    ensures r.Some? <==> board.Some? && pages.Some?
    ensures r.Some? ==> r.value.board == board.value && r.value.pages == pages.value
  {
    if board.None? || pages.None? then None else Some(Spider(board.value, pages.value))
  }

  /** The URL of listing page `i` of a board. */
  function PageUrl(board: string, i: nat): string {
    "https://www.ptt.cc/bbs/" + board + "/index" + NatToString(i) + ".html"
  }

  /** A numbered page ends in a digit and `.html`, never in `index.html`. */
  lemma PageUrlIsNotNewest(board: string, i: nat)
    ensures !EndsWith(PageUrl(board, i), "index.html")
  {
    var url, digits := PageUrl(board, i), NatToString(i);
    assert url[|url| - 6] == digits[|digits| - 1];
    assert IsDigit(url[|url| - 6]);
    assert "index.html"[4] == 'x';
  }

  /** Different page numbers give different URLs. */
  lemma PageUrlsDiffer(board: string, i: nat, j: nat)
    requires i != j
    ensures PageUrl(board, i) != PageUrl(board, j)
  {
    var head := "https://www.ptt.cc/bbs/" + board + "/index";
    var a, b := PageUrl(board, i), PageUrl(board, j);
    var di, dj := NatToString(i), NatToString(j);
    if |di| == |dj| {
      assert a[|head|..|head| + |di|] == di;
      assert b[|head|..|head| + |dj|] == dj;
      if di == dj {
        NatToStringInjective(i, j);
      }
    }
  }

  /** `start_requests`: one request per page number from 1 to `pages`, in
      ascending order, none when `pages` is below 1. */
  method StartRequests(spider: Spider) returns (reqs: seq<PttSpider.Request>)
    ensures |reqs| == if spider.pages < 1 then 0 else spider.pages
    ensures forall k :: 0 <= k < |reqs| ==>
              reqs[k] == PttSpider.Request(PageUrl(spider.board, k + 1), PttSpider.ParseIndexCb)
  {
    reqs := [];
    var i := 1;
    while i <= spider.pages
      invariant 1 <= i && |reqs| == i - 1
      invariant spider.pages >= 1 ==> i <= spider.pages + 1
      invariant spider.pages < 1 ==> i == 1
      invariant forall k :: 0 <= k < |reqs| ==>
                  reqs[k] == PttSpider.Request(PageUrl(spider.board, k + 1), PttSpider.ParseIndexCb)
      decreases spider.pages - i
    {
      reqs := reqs + [PttSpider.Request(PageUrl(spider.board, i), PttSpider.ParseIndexCb)];
      i := i + 1;
    }
  }

  /** Every page the spider starts from is a numbered one, so the whole
      topic list of it is taken, in page order. */
  lemma StartedPagesKeepEveryTopic(spider: Spider, page: PttSpider.IndexPage, k: nat)
    requires page.url == PageUrl(spider.board, k + 1)
    ensures PttSpider.Considered(page) == page.links
  {
    PageUrlIsNotNewest(spider.board, k + 1);
    PttSpider.ConsideredMeans(page);
  }

  // ---------------------------------------------------------------------
  // parse_index

  /** `parse_index`: a post request for every topic taken, in the order
      the selection returns them (not reversed). */
  method ParseIndex(page: PttSpider.IndexPage) returns (reqs: seq<PttSpider.Request>)
    ensures var ts := PttSpider.Considered(page);
      |reqs| == |ts| &&
      forall k :: 0 <= k < |ts| ==> reqs[k] == PttSpider.Request(ts[k].href, PttSpider.ParsePostCb)
  {
    var ts := PttSpider.Considered(page);
    reqs := [];
    var i := 0;
    while i < |ts|
      invariant 0 <= i <= |ts| && |reqs| == i
      invariant forall k :: 0 <= k < i ==> reqs[k] == PttSpider.Request(ts[k].href, PttSpider.ParsePostCb)
    {
      reqs := reqs + [PttSpider.Request(ts[i].href, PttSpider.ParsePostCb)];
      i := i + 1;
    }
  }

  // ---------------------------------------------------------------------
  // parse_post: the time label

  /** A post page: its URL, its body decoded with the response's encoding,
      and its `.article-meta-tag` elements with their next siblings' text. */
  datatype ArticlePage = ArticlePage(url: string, body: string, meta: seq<PttSpider.MetaTag>)

  /** A label is the time label when its text, stripped, is `時間`. */
  predicate IsTimeLabel(t: PttSpider.MetaTag) {
    Strip(t.name, PySpace) == "時間"
  }

  /** Where the scan of the labels stands: no time label yet, the date of
      the latest one, or a `parse` that raised (the callback fails). */
  datatype TimeScan = Unset | Parsed(dt: DateTime) | ParseRaised

  /** The scan over the labels, `isTime` telling the time label (the
      spider's is `IsTimeLabel`): each time label's sibling text is parsed
      in turn, the later overwriting the earlier, and the first parse that
      raises ends it. */
  function ScanTime(tags: seq<PttSpider.MetaTag>, isTime: PttSpider.MetaTag -> bool,
                    parseDate: string -> Option<DateTime>): TimeScan
    decreases |tags|
  {
    if tags == [] then Unset
    else
      var prev := ScanTime(tags[..|tags| - 1], isTime, parseDate);
      var t := tags[|tags| - 1];
      if prev.ParseRaised? || !isTime(t) then prev
      else if parseDate(t.value).None? then ParseRaised
      else Parsed(parseDate(t.value).value)
  }

  /** `Unset` exactly when the page has no time label. */
  lemma {:induction false} ScanTimeUnset(tags: seq<PttSpider.MetaTag>, isTime: PttSpider.MetaTag -> bool,
                                         parseDate: string -> Option<DateTime>)
    ensures ScanTime(tags, isTime, parseDate).Unset? <==> forall k :: 0 <= k < |tags| ==> !isTime(tags[k])
    decreases |tags|
  {
    if tags != [] {
      var init := tags[..|tags| - 1];
      ScanTimeUnset(init, isTime, parseDate);
      assert forall k :: 0 <= k < |init| ==> init[k] == tags[k];
    }
  }

  /** `ParseRaised` exactly when some time label's text does not parse. */
  lemma {:induction false} ScanTimeRaised(tags: seq<PttSpider.MetaTag>, isTime: PttSpider.MetaTag -> bool,
                                         parseDate: string -> Option<DateTime>)
    ensures ScanTime(tags, isTime, parseDate).ParseRaised? <==>
              exists k :: 0 <= k < |tags| && isTime(tags[k]) && parseDate(tags[k].value).None?
    decreases |tags|
  {
    if tags != [] {
      var init, t := tags[..|tags| - 1], tags[|tags| - 1];
      ScanTimeRaised(init, isTime, parseDate);
      if ScanTime(init, isTime, parseDate).ParseRaised? {
        var k :| 0 <= k < |init| && isTime(init[k]) && parseDate(init[k].value).None?;
        assert tags[k] == init[k];
      } else if exists k :: 0 <= k < |tags| && isTime(tags[k]) && parseDate(tags[k].value).None? {
        var k :| 0 <= k < |tags| && isTime(tags[k]) && parseDate(tags[k].value).None?;
        if k < |init| {
          assert init[k] == tags[k];
        }
      }
    }
  }

  /** Otherwise the date is the one of the last time label. */
  lemma {:induction false} ScanTimeLast(tags: seq<PttSpider.MetaTag>, isTime: PttSpider.MetaTag -> bool,
                                         parseDate: string -> Option<DateTime>)
    requires ScanTime(tags, isTime, parseDate).Parsed?
    ensures exists k :: 0 <= k < |tags| && isTime(tags[k]) &&
                        parseDate(tags[k].value) == Some(ScanTime(tags, isTime, parseDate).dt) &&
                        forall j :: k < j < |tags| ==> !isTime(tags[j])
    decreases |tags|
  {
    var init, t := tags[..|tags| - 1], tags[|tags| - 1];
    var prev := ScanTime(init, isTime, parseDate);
    if prev.Parsed? && !isTime(t) {
      ScanTimeLast(init, isTime, parseDate);
      var k :| 0 <= k < |init| && isTime(init[k]) &&
               parseDate(init[k].value) == Some(prev.dt) &&
               forall j :: k < j < |init| ==> !isTime(init[j]);
      assert tags[k] == init[k];
      assert forall j :: k < j < |tags| ==> !isTime(tags[j]);
    } else {
      assert isTime(tags[|tags| - 1]);
    }
  }

  /** Labels other than the time label do not change the scan. */
  lemma ScanTimeIgnoresOtherLabels(tags: seq<PttSpider.MetaTag>, t: PttSpider.MetaTag,
                                   isTime: PttSpider.MetaTag -> bool, parseDate: string -> Option<DateTime>)
    requires !isTime(t)
    ensures ScanTime(tags + [t], isTime, parseDate) == ScanTime(tags, isTime, parseDate)
  {
    assert (tags + [t])[..|tags|] == tags;
  }

  /** The loop of `parse_post` over the labels. */
  method ReadTime(tags: seq<PttSpider.MetaTag>, parseDate: string -> Option<DateTime>) returns (r: TimeScan)
    ensures r == ScanTime(tags, IsTimeLabel, parseDate)
  {
    r := Unset;
    var i := 0;
    while i < |tags|
      invariant 0 <= i <= |tags| && r == ScanTime(tags[..i], IsTimeLabel, parseDate) && !r.ParseRaised?
    {
      var t := tags[i];
      ScanTimeStep(tags, i, IsTimeLabel, parseDate);
      if IsTimeLabel(t) {
        var dt := parseDate(t.value);
        if dt.None? {
          RaisedStays(tags, i + 1, IsTimeLabel, parseDate);
          return ParseRaised;
        }
        r := Parsed(dt.value);
      }
      i := i + 1;
    }
    assert tags[..i] == tags;
  }

  /** One label of the scan, the `i`-th. */
  lemma ScanTimeStep(tags: seq<PttSpider.MetaTag>, i: nat, isTime: PttSpider.MetaTag -> bool,
                     parseDate: string -> Option<DateTime>)
    requires i < |tags|
    ensures var prev := ScanTime(tags[..i], isTime, parseDate);
      ScanTime(tags[..i + 1], isTime, parseDate) ==
      if prev.ParseRaised? || !isTime(tags[i]) then prev
      else if parseDate(tags[i].value).None? then ParseRaised
      else Parsed(parseDate(tags[i].value).value)
  {
    assert tags[..i + 1][..i] == tags[..i];
  }

  /** Once a parse has raised, later labels change nothing. */
  lemma {:induction false} RaisedStays(tags: seq<PttSpider.MetaTag>, i: nat, isTime: PttSpider.MetaTag -> bool,
                                       parseDate: string -> Option<DateTime>)
    requires i <= |tags| && ScanTime(tags[..i], isTime, parseDate).ParseRaised?
    ensures ScanTime(tags, isTime, parseDate).ParseRaised?
    decreases |tags| - i
  {
    if i < |tags| {
      assert tags[..i + 1][..i] == tags[..i];
      RaisedStays(tags, i + 1, isTime, parseDate);
    } else {
      assert tags[..i] == tags;
    }
  }

  // ---------------------------------------------------------------------
  // parse_post: the archive file and the item

  /** `f"data/{time.year}-{time.month}-{time.day}_{article_id}.html"`:
      the numbers in plain decimal, without zero padding. */
  function ArchivePath(id: string, dt: DateTime): string {
    "data/" + IntToString(dt.year) + "-" + IntToString(dt.month) + "-" + IntToString(dt.day) + "_" + id + ".html"
  }

  /** Every archive file lies under `data/` and ends in `_{id}.html`. */
  lemma ArchivePathShape(id: string, dt: DateTime)
    ensures StartsWith(ArchivePath(id, dt), "data/") && EndsWith(ArchivePath(id, dt), "_" + id + ".html")
  {
    var p := ArchivePath(id, dt);
    var head := "data/" + IntToString(dt.year) + "-" + IntToString(dt.month) + "-" + IntToString(dt.day);
    assert p == head + ("_" + id + ".html");
    assert p[..5] == "data/";
    assert p[|p| - |"_" + id + ".html"|..] == "_" + id + ".html";
  }

  /** For instance a post of 5 March 2021 is archived under
      `data/2021-3-5_{id}.html`. */
  lemma ArchivePathUnpadded(id: string)
    ensures ArchivePath(id, DateTime(2021, 3, 5, 0, 0, 0)) == "data/2021-3-5_" + id + ".html"
  {
    assert NatToString(2021) == "2021";
    assert NatToString(3) == "3" && NatToString(5) == "5";
  }

  /** Posts of one day with different ids get different files. */
  lemma ArchivePathsDiffer(a: string, b: string, dt: DateTime)
    requires a != b
    ensures ArchivePath(a, dt) != ArchivePath(b, dt)
  {
    var head := "data/" + IntToString(dt.year) + "-" + IntToString(dt.month) + "-" + IntToString(dt.day) + "_";
    var pa, pb := ArchivePath(a, dt), ArchivePath(b, dt);
    assert pa == head + a + ".html" && pb == head + b + ".html";
    if |a| == |b| {
      assert pa[|head|..|head| + |a|] == a;
      assert pb[|head|..|head| + |b|] == b;
    }
  }

  /** The declared fields of `_ArticleItem`. */
  const ArticleFields: set<string> := {"board", "html_content", "timestamp", "article_id"}

  /** A `scrapy.Item` built from keyword arguments: `KeyError` (`None`) when
      one of them is not a declared field. */
  function NewItem(fields: set<string>, args: map<string, string>): (r: Option<map<string, string>>)
    ensures r.Some? <==> args.Keys <= fields
    ensures r.Some? ==> r.value == args
  {
    if args.Keys <= fields then Some(args) else None
  }

  /** How the item is built: as written, with the undeclared `article`;
      as evidently meant, with the page into `html_content`. */
  datatype ItemRule = AsWritten | Intended

  function ItemArgs(rule: ItemRule, body: string): map<string, string> {
    if rule.AsWritten? then map["article" := body] else map["html_content" := body]
  }

  /** As written, building the item raises, so no post page yields one. */
  lemma AsWrittenItemRaises(body: string)
    ensures NewItem(ArticleFields, ItemArgs(AsWritten, body)).None?
  {
    assert "article" in ItemArgs(AsWritten, body).Keys;
    assert "article" !in ArticleFields;
  }

  /** Built as meant, the item holds the page body. */
  lemma IntendedItemHoldsBody(body: string)
    ensures NewItem(ArticleFields, ItemArgs(Intended, body)) == Some(map["html_content" := body])
  {
  }

  /** A file written to the archive. */
  datatype Archived = Archived(path: string, content: string)

  /** What `parse_post` does with a page: a `parse` of a time label raised
      (nothing happens after it), or it went on: the file it wrote, if it
      could, and the item, `None` when building it raised. */
  datatype PostOutcome =
    | TimeRaised
    | Went(written: Option<Archived>, item: Option<map<string, string>>)

  /** `parse_post`. Without a time label (`time.year` on `None`) or when
      the path cannot be opened, the failure is only logged and nothing is
      written; the item is built either way. */
  method ParsePost(page: ArticlePage, parseDate: string -> Option<DateTime>,
                   canOpen: string -> bool, rule: ItemRule) returns (r: PostOutcome)
    ensures var scan := ScanTime(page.meta, IsTimeLabel, parseDate);
      && (r.TimeRaised? <==> scan.ParseRaised?)
      && (r.Went? ==>
            && (r.written.Some? <==> scan.Parsed? && canOpen(ArchivePath(PttSpider.PostId(page.url), scan.dt)))
            && (r.written.Some? ==>
                  r.written.value == Archived(ArchivePath(PttSpider.PostId(page.url), scan.dt), page.body))
            && r.item == NewItem(ArticleFields, ItemArgs(rule, page.body)))
  {
    var id := PttSpider.PostId(page.url);
    var time := ReadTime(page.meta, parseDate);
    if time.ParseRaised? {
      return TimeRaised;
    }
    var written := None;
    if time.Parsed? {
      var path := ArchivePath(id, time.dt);
      if canOpen(path) {
        written := Some(Archived(path, page.body));
      }
    }
    r := Went(written, NewItem(ArticleFields, ItemArgs(rule, page.body)));
  }

  /** The archive file of `{prefix}/{id}.html` is named by its id. */
  lemma ArchiveNamedById(prefix: string, id: string, dt: DateTime)
    requires '/' !in id
    requires forall j: nat :: j < |id| ==> !OccursAt(id + ".html", ".html", j)
    ensures EndsWith(ArchivePath(PttSpider.PostId(prefix + "/" + id + ".html"), dt), "_" + id + ".html")
  {
    PttSpider.PostIdOfPostUrl(prefix, id);
    ArchivePathShape(id, dt);
  }
}
