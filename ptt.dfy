/**
 * The board crawler (`scraptt/spiders/ptt.py`): argument handling, the
 * listing-page walk with its since-date stop, and the assembly of a post
 * and its comments from a post page.
 *
 * The page markup comes in already selected: a listing page is its URL,
 * the topics the CSS selection returns, and its prev link; a post page is
 * its status, URL, main-content HTML, meta tags, board name and pushes.
 * The foreign calls (`strip_tags`, `extract_author`, `extract_ip`,
 * `dateutil.parser.parse`, `datetime.fromtimestamp`, `strptime`) and the
 * clock come in as parameters.
 */
module PttSpider {
  import opened Wrappers
  import opened Text
  import opened Patterns
  import opened Items
  import opened CommentParsers
  import opened Helper
  import opened Sums

  // ---------------------------------------------------------------------
  // Requests and the spider's arguments

  datatype Callback = ParseIndexCb | ParsePostCb

  /** A `scrapy.Request` (every one carries the cookie `over18=1`). */
  datatype Request = Request(url: string, callback: Callback)

  /** The spider after `__init__`: the boards to crawl and the since date. */
  datatype Spider = Spider(boards: seq<string>, since: Date)

  /** `list.remove(x)`: the first `x` goes, the rest keep their order;
      without an `x` the list is unchanged. */
  function RemoveFirst(s: seq<string>, x: string): (r: seq<string>)
    ensures x !in s ==> r == s
  {
    if s == [] then []
    else if s[0] == x then
      assert s == [s[0]] + s[1..];
      s[1..]
    else
      assert s == [s[0]] + s[1..];
      [s[0]] + RemoveFirst(s[1..], x)
  }

  /** `remove` takes away one `x`, if there is one, and nothing else. */
  lemma {:induction false} RemoveFirstCounts(s: seq<string>, x: string)
    ensures multiset(RemoveFirst(s, x)) == multiset(s) - multiset{x}
  {
    if s != [] {
      assert s == [s[0]] + s[1..];
      if s[0] != x {
        RemoveFirstCounts(s[1..], x);
      }
    }
  }

  /** The count of `x` drops by one when there is an `x`; every other
      value keeps its count. */
  lemma RemoveFirstDropsOne(s: seq<string>, x: string)
    ensures multiset(RemoveFirst(s, x))[x] == if x in s then multiset(s)[x] - 1 else 0
    ensures forall b :: b != x ==> multiset(RemoveFirst(s, x))[b] == multiset(s)[b]
  {
    RemoveFirstCounts(s, x);
    assert x in s <==> x in multiset(s);
  }

  /** Index of the first `x` in `s`. */
  function FirstIndex(s: seq<string>, x: string): (i: nat)
    requires x in s
    ensures i < |s| && s[i] == x && x !in s[..i]
  {
    if s[0] == x then 0
    else
      var i := FirstIndex(s[1..], x);
      assert s[..i + 1] == [s[0]] + s[1..][..i];
      i + 1
  }

  /** The removed entry is the first `x`; the others keep their order. */
  lemma {:induction false} RemoveFirstIsFirst(s: seq<string>, x: string)
    requires x in s
    ensures RemoveFirst(s, x) == s[..FirstIndex(s, x)] + s[FirstIndex(s, x) + 1..]
  {
    if s[0] != x {
      var t := s[1..];
      assert x in t;
      RemoveFirstIsFirst(t, x);
      var i := FirstIndex(t, x);
      assert FirstIndex(s, x) == i + 1;
      assert RemoveFirst(s, x) == [s[0]] + RemoveFirst(t, x);
      assert s[..i + 1] == [s[0]] + t[..i];
      assert s[i + 2..] == t[i + 1..];
    }
  }

  /** The board list `__init__` starts from: every board of the database
      (given here as `allBoards`) for `_all`, otherwise the argument
      stripped and split at commas. */
  function Listed(boards: string, allBoards: seq<string>): seq<string> {
    if boards == "_all" then allBoards else Split(Strip(boards, PySpace), ',')
  }

  /** `__init__`: `boards` is required (`kwargs.pop('boards')` raises
      without it); one `ALLPOST` entry is dropped from the listed boards;
      a non-empty `since` is read as `%Y%m%d` by `parseYmd` (`None`:
      `strptime` raises), otherwise it is today. */
  function NewSpider(boards: Option<string>, allBoards: seq<string>, since: Option<string>,
                     parseYmd: string -> Option<Date>, today: Date): (r: Option<Spider>)
    ensures r.None? <==> boards.None? || (since.Some? && since.value != "" && parseYmd(since.value).None?)
    ensures r.Some? && (since.None? || since.value == "") ==> r.value.since == today
    ensures r.Some? && since.Some? && since.value != "" ==> Some(r.value.since) == parseYmd(since.value)
    ensures r.Some? ==> r.value.boards == RemoveFirst(Listed(boards.value, allBoards), "ALLPOST")
  {
    if boards.None? then None
    else
      var kept := RemoveFirst(Listed(boards.value, allBoards), "ALLPOST");
      if since.Some? && since.value != "" then
        var d := parseYmd(since.value);
        if d.None? then None else Some(Spider(kept, d.value))
      else Some(Spider(kept, today))
  }

  /** A listed board list loses exactly one `ALLPOST`, and nothing else. */
  lemma NewSpiderDropsOneAllpost(boards: Option<string>, allBoards: seq<string>, since: Option<string>,
                                 parseYmd: string -> Option<Date>, today: Date)
    requires NewSpider(boards, allBoards, since, parseYmd, today).Some?
    ensures var listed := Listed(boards.value, allBoards);
      var kept := NewSpider(boards, allBoards, since, parseYmd, today).value.boards;
      && multiset(kept)["ALLPOST"] == (if "ALLPOST" in listed then multiset(listed)["ALLPOST"] - 1 else 0)
      && forall b :: b != "ALLPOST" ==> multiset(kept)[b] == multiset(listed)[b]
  {
    var listed := Listed(boards.value, allBoards);
    var kept := NewSpider(boards, allBoards, since, parseYmd, today).value.boards;
    assert kept == RemoveFirst(listed, "ALLPOST");
    RemoveFirstDropsOne(listed, "ALLPOST");
  }

  /** The listing URL of a board. */
  function IndexUrl(board: string): string {
    "https://www.ptt.cc/bbs/" + board + "/index.html"
  }

  /** `start_requests`: one listing request per board, in board order. */
  method StartRequests(spider: Spider) returns (reqs: seq<Request>)
    ensures |reqs| == |spider.boards|
    ensures forall i :: 0 <= i < |reqs| ==>
              reqs[i] == Request(IndexUrl(spider.boards[i]), ParseIndexCb) &&
              EndsWith(reqs[i].url, "index.html")
  {
    reqs := [];
    var i := 0;
    while i < |spider.boards|
      invariant 0 <= i <= |spider.boards| && |reqs| == i
      invariant forall k :: 0 <= k < i ==>
                  reqs[k] == Request(IndexUrl(spider.boards[k]), ParseIndexCb) &&
                  EndsWith(reqs[k].url, "index.html")
    {
      var url := IndexUrl(spider.boards[i]);
      assert url[|url| - |"index.html"|..] == "index.html";
      reqs := reqs + [Request(url, ParseIndexCb)];
      i := i + 1;
    }
  }

  // ---------------------------------------------------------------------
  // parse_index

  /** A `.r-ent .title a` link: its text and its `href`. */
  datatype Topic = Topic(title: string, href: string)

  /** A listing page: its URL; the topic links in document order; on the
      newest page, how many of them precede the `.r-list-sep` separator
      (`None` without a separator); the `上頁` link. */
  datatype IndexPage = IndexPage(url: string, links: seq<Topic>, separator: Option<nat>,
                                 prev: Option<string>)

  /** `reversed(s)`. */
  function Reverse<T>(s: seq<T>): (r: seq<T>)
    ensures |r| == |s| && forall k :: 0 <= k < |s| ==> r[k] == s[|s| - 1 - k]
  {
    seq(|s|, k requires 0 <= k < |s| => s[|s| - 1 - k])
  }

  /** The topics `parse_index` looks at. On an `index.html` URL they are the
      links before the separator, as `prev_all` returns them (nearest the
      separator first), and none at all without a separator; on any other
      page they are all the links. */
  function Considered(page: IndexPage): seq<Topic> {
    if EndsWith(page.url, "index.html") then
      if page.separator.None? then []
      else
        var n := if page.separator.value <= |page.links| then page.separator.value else |page.links|;
        Reverse(page.links[..n])
    else page.links
  }

  lemma ConsideredMeans(page: IndexPage)
    ensures !EndsWith(page.url, "index.html") ==> Considered(page) == page.links
    ensures EndsWith(page.url, "index.html") && page.separator.None? ==> Considered(page) == []
    ensures EndsWith(page.url, "index.html") && page.separator.Some? ==>
              var n := if page.separator.value <= |page.links| then page.separator.value else |page.links|;
              |Considered(page)| == n && forall k :: 0 <= k < n ==> Considered(page)[k] == page.links[n - 1 - k]
  {
  }

  /** The order `parse_index` walks in, `reversed` of the considered
      topics: on the newest page (`index.html`) the nearest-first `prev_all`
      list turned back into page order, top topic first; on a numbered page
      the links from the bottom up. */
  lemma IndexWalkOrder(page: IndexPage)
    ensures EndsWith(page.url, "index.html") && page.separator.Some? ==>
              var n := if page.separator.value <= |page.links| then page.separator.value else |page.links|;
              Reverse(Considered(page)) == page.links[..n]
    ensures !EndsWith(page.url, "index.html") ==> Reverse(Considered(page)) == Reverse(page.links)
  {
    if EndsWith(page.url, "index.html") && page.separator.Some? {
      var n := if page.separator.value <= |page.links| then page.separator.value else |page.links|;
      var ts := Reverse(Considered(page));
      assert |ts| == n;
      forall k | 0 <= k < n
        ensures ts[k] == page.links[..n][k]
      {
        assert ts[k] == Considered(page)[n - 1 - k];
      }
    }
  }

  /** On the newest page the walk starts at the top topic, so one topic
      there dated before `since` ends the page at once: no post is
      requested, and the walk is not finished, so neither is the
      previous page. */
  lemma NewestPageTopTooOld(page: IndexPage, since: Date, localDate: int -> Date)
    requires EndsWith(page.url, "index.html") && page.separator.Some?
    requires 0 < page.separator.value && 0 < |page.links|
    requires TopicDate(page.links[0], localDate).Some?
    requires DateBefore(TopicDate(page.links[0], localDate).value, since)
    ensures 0 < |Reverse(Considered(page))|
    ensures WalkLength(Reverse(Considered(page)), since, TopicDates(localDate)) == 0
  {
    IndexWalkOrder(page);
    var ts := Reverse(Considered(page));
    assert ts[0] == page.links[0];
    TooOldStopsEverything(ts, since, TopicDates(localDate), 0);
  }

  /** The first position from `i` where a ten-digit run starts, `|s|` when
      there is none: where `\d{10}` is first found. */
  function TimestampFrom(s: string, i: nat): (r: nat)
    requires i <= |s|
    ensures i <= r <= |s|
    ensures r < |s| ==> DigitRun(s, r, 10) == 10
    decreases |s| - i
  {
    if i == |s| || DigitRun(s, i, 10) == 10 then i else TimestampFrom(s, i + 1)
  }

  lemma {:induction false} TimestampFromMeans(s: string, i: nat)
    requires i <= |s|
    ensures forall j: nat :: i <= j < TimestampFrom(s, i) ==> DigitRun(s, j, 10) < 10
    decreases |s| - i
  {
    if i < |s| && DigitRun(s, i, 10) < 10 {
      TimestampFromMeans(s, i + 1);
    }
  }

  /** The date of a topic: the first ten-digit run of its `href` read as a
      Unix time and converted by `localDate` (`fromtimestamp(...).date()`);
      `None` when the `href` has no ten-digit run (the `.group` raises). */
  function TopicDate(t: Topic, localDate: int -> Date): Option<Date> {
    var i := TimestampFrom(t.href, 0);
    if i == |t.href| then None
    else Some(localDate(DigitsValue(t.href[i..i + 10])))
  }

  /** `TopicDate` for a fixed clock conversion, as one function value. */
  function TopicDates(localDate: int -> Date): Topic -> Option<Date> {
    t => TopicDate(t, localDate)
  }

  /** The regular-expression search the source runs finds exactly the ten
      digits `TopicDate` reads, and finds nothing exactly when it is `None`. */
  lemma TopicDateIsFirstTimestamp(t: Topic, localDate: int -> Date)
    ensures Search(Regex(Timestamp), t.href) ==
      if TopicDate(t, localDate).None? then None else Some(Span(TimestampFrom(t.href, 0), 10))
  {
    var s := t.href;
    var i := TimestampFrom(s, 0);
    TimestampFromMeans(s, 0);
    forall j: nat | j < i || (i == |s| && j == |s|)
      ensures Hit(Regex(Timestamp), s, j).None?
    {
      HitRegex(Timestamp, s, j);
    }
    if i < |s| {
      HitRegex(Timestamp, s, i);
      SearchFindsFirst(Regex(Timestamp), s, i);
    }
  }

  /** How many topics of the walk are requested: the index of the first
      topic without a timestamp or dated before `since`, or all of them. */
  function WalkLength(ts: seq<Topic>, since: Date, dateOf: Topic -> Option<Date>): (n: nat)
    ensures n <= |ts|
    decreases |ts|
  {
    if ts == [] then 0
    else
      var d := dateOf(ts[0]);
      if d.None? || DateBefore(d.value, since) then 0
      else 1 + WalkLength(ts[1..], since, dateOf)
  }

  /** Every topic the walk requests has a date not before `since`; the one
      it stops at, if any, has no date or one before `since`. */
  lemma {:induction false} WalkLengthMeans(ts: seq<Topic>, since: Date, dateOf: Topic -> Option<Date>)
    ensures var n := WalkLength(ts, since, dateOf);
      && (forall k :: 0 <= k < n ==>
            dateOf(ts[k]).Some? && !DateBefore(dateOf(ts[k]).value, since))
      && (n < |ts| ==>
            dateOf(ts[n]).None? || DateBefore(dateOf(ts[n]).value, since))
    decreases |ts|
  {
    if ts != [] {
      var d := dateOf(ts[0]);
      if !(d.None? || DateBefore(d.value, since)) {
        WalkLengthMeans(ts[1..], since, dateOf);
        assert forall k :: 1 <= k < |ts| ==> ts[1..][k - 1] == ts[k];
      }
    }
  }

  /** One step of the walk, from topic `i` on. */
  lemma WalkLengthAt(ts: seq<Topic>, i: nat, since: Date, dateOf: Topic -> Option<Date>)
    requires i < |ts|
    ensures var d := dateOf(ts[i]);
      WalkLength(ts[i..], since, dateOf) ==
      if d.None? || DateBefore(d.value, since) then 0 else 1 + WalkLength(ts[i + 1..], since, dateOf)
  {
    assert ts[i..][1..] == ts[i + 1..];
  }

  /** How the walk over a listing page ended. */
  datatype WalkEnd =
    | Finished          // every topic was requested
    | TooOld            // a topic before `since`: `return`
    | NoTimestamp       // a topic without a ten-digit run: the generator raises

  /** `parse_index`: walk the considered topics in reverse (`reversed`),
      requesting each post, and stop at the first topic older
      than `since`; the previous page is requested only after a full walk
      and when the page has a non-empty prev link. */
  method ParseIndex(spider: Spider, page: IndexPage, localDate: int -> Date)
      returns (reqs: seq<Request>, end: WalkEnd)
    ensures var ts := Reverse(Considered(page));
      var n := WalkLength(ts, spider.since, TopicDates(localDate));
      && (end == Finished <==> n == |ts|)
      && (end == NoTimestamp <==> n < |ts| && TopicDate(ts[n], localDate).None?)
      && |reqs| == n + (if n == |ts| && page.prev.Some? && page.prev.value != "" then 1 else 0)
      && (forall k :: 0 <= k < n ==> reqs[k] == Request(ts[k].href, ParsePostCb))
      && (|reqs| > n ==> reqs[n] == Request(page.prev.value, ParseIndexCb))
  {
    var ts := Reverse(Considered(page));
    reqs, end := WalkTopics(ts, spider.since, page.prev, TopicDates(localDate));
  }

  /** The loop of `parse_index` over the topics `ts`, in the order given. */
  method WalkTopics(ts: seq<Topic>, since: Date, prev: Option<string>, dateOf: Topic -> Option<Date>)
      returns (reqs: seq<Request>, end: WalkEnd)
    ensures var n := WalkLength(ts, since, dateOf);
      && (end == Finished <==> n == |ts|)
      && (end == NoTimestamp <==> n < |ts| && dateOf(ts[n]).None?)
      && |reqs| == n + (if n == |ts| && prev.Some? && prev.value != "" then 1 else 0)
      && (forall k :: 0 <= k < n ==> reqs[k] == Request(ts[k].href, ParsePostCb))
      && (|reqs| > n ==> reqs[n] == Request(prev.value, ParseIndexCb))
  {
    ghost var n := WalkLength(ts, since, dateOf);
    reqs := [];
    var i := 0;
    while i < |ts|
      invariant 0 <= i <= |ts| && i <= n && |reqs| == i
      invariant WalkLength(ts[i..], since, dateOf) == n - i
      invariant forall k :: 0 <= k < i ==> reqs[k] == Request(ts[k].href, ParsePostCb)
    {
      WalkLengthAt(ts, i, since, dateOf);
      var time := dateOf(ts[i]);
      if time.None? {
        end := NoTimestamp;
        return;
      }
      if DateBefore(time.value, since) {
        end := TooOld;
        return;
      }
      reqs := reqs + [Request(ts[i].href, ParsePostCb)];
      i := i + 1;
    }
    if prev.Some? && prev.value != "" {
      reqs := reqs + [Request(prev.value, ParseIndexCb)];
    }
    end := Finished;
  }

  /** The since-date stop: once a topic is too old, neither a later topic
      nor the previous page is requested. */
  lemma TooOldStopsEverything(ts: seq<Topic>, since: Date, dateOf: Topic -> Option<Date>, k: nat)
    requires k < |ts| && dateOf(ts[k]).Some? && DateBefore(dateOf(ts[k]).value, since)
    ensures WalkLength(ts, since, dateOf) <= k
  {
    WalkLengthMeans(ts, since, dateOf);
  }

  // ---------------------------------------------------------------------
  // parse_post: the page and its meta lines

  /** A `.article-meta-tag` and the text of its next sibling. */
  datatype MetaTag = MetaTag(name: string, value: string)

  /** A `.push`: the texts of its `.push-tag`, `.push-userid`,
      `.push-content` and `.push-ipdatetime`. */
  datatype Push = Push(tag: string, userid: string, content: string, ipdatetime: string)

  /** A post page: status, URL, the `#main-content` HTML without the meta
      lines and pushes, the meta tags in page order, the text of
      `#topbar a.board`, and the pushes in page order. */
  datatype PostPage = PostPage(status: int, url: string, main: string, meta: seq<MetaTag>,
                               board: string, pushes: seq<Push>)

  /** The foreign calls of `parse_post` and the clock (read once). */
  datatype Env = Env(
    stripTags: string -> string,
    extractAuthor: string -> string,
    extractIp: string -> Option<string>,
    parseDate: string -> Option<DateTime>,
    now: DateTime)

  /** `dict((name, value) ...)[name]`: the last value given for `name`. */
  function LastValue(tags: seq<MetaTag>, name: string): (r: Option<string>)
    ensures r.None? <==> forall k :: 0 <= k < |tags| ==> tags[k].name != name
    ensures r.Some? ==> exists k :: 0 <= k < |tags| && tags[k] == MetaTag(name, r.value) &&
                                    forall j :: k < j < |tags| ==> tags[j].name != name
    decreases |tags|
  {
    if tags == [] then None
    else if tags[|tags| - 1].name == name then Some(tags[|tags| - 1].value)
    else LastValue(tags[..|tags| - 1], name)
  }

  /** The three mapped meta fields, each value stripped. */
  datatype MetaFields = MetaFields(author: Option<string>, published: Option<string>, title: Option<string>)

  function StripValue(v: Option<string>): Option<string> {
    if v.None? then None else Some(Strip(v.value, PySpace))
  }

  /** `meta_mod`: `作者`, `時間` and `標題` become author, published and
      title; no other label is read. */
  function ReadMeta(tags: seq<MetaTag>): MetaFields {
    MetaFields(StripValue(LastValue(tags, "作者")), StripValue(LastValue(tags, "時間")),
               StripValue(LastValue(tags, "標題")))
  }

  /** Any other label leaves the mapped fields as they were. */
  lemma ReadMetaIgnoresOtherLabels(tags: seq<MetaTag>, t: MetaTag)
    requires t.name != "作者" && t.name != "時間" && t.name != "標題"
    ensures ReadMeta(tags + [t]) == ReadMeta(tags)
  {
    assert (tags + [t])[..|tags|] == tags;
  }

  /** A later tag with the same label wins. */
  lemma ReadMetaLastWins(tags: seq<MetaTag>, v: string)
    ensures ReadMeta(tags + [MetaTag("作者", v)]).author == Some(Strip(v, PySpace))
    ensures ReadMeta(tags + [MetaTag("標題", v)]).title == Some(Strip(v, PySpace))
    ensures ReadMeta(tags + [MetaTag("時間", v)]).published == Some(Strip(v, PySpace))
  {
    LastAdded(tags, MetaTag("作者", v));
    LastAdded(tags, MetaTag("標題", v));
    LastAdded(tags, MetaTag("時間", v));
  }

  lemma LastAdded(tags: seq<MetaTag>, t: MetaTag)
    ensures LastValue(tags + [t], t.name) == Some(t.value)
  {
    assert (tags + [t])[|tags|] == t;
  }

  /** `url.split('/')[-1]`. */
  function LastSegment(url: string): (r: string)
    ensures '/' !in r
  {
    var parts := Split(url, '/');
    parts[|parts| - 1]
  }

  /** `url.split('/')[-1].split('.html')[0]`. */
  function PostId(url: string): (r: string)
    ensures '/' !in r
    ensures StartsWith(LastSegment(url), r)
    ensures forall j: nat :: j < |r| ==> !OccursAt(LastSegment(url), ".html", j)
    ensures r == LastSegment(url) || OccursAt(LastSegment(url), ".html", |r|)
  {
    var r := BeforeFirst(LastSegment(url), ".html");
    assert forall c :: c in r ==> c in LastSegment(url);
    r
  }

  /** The last piece of a split is what follows the last separator. */
  lemma {:induction false} SplitAfterLast(a: string, b: string, sep: char)
    requires sep !in b
    ensures var parts := Split(a + [sep] + b, sep); parts[|parts| - 1] == b
    decreases |a|
  {
    var s := a + [sep] + b;
    var i := IndexOf(s, sep);
    if i < |a| {
      assert a[i] == sep;
      assert s[i + 1..] == a[i + 1..] + [sep] + b;
      SplitAfterLast(a[i + 1..], b, sep);
    } else {
      assert s[|a|] == sep;
      assert i == |a|;
      assert s[i + 1..] == b;
      assert IndexOf(b, sep) == |b|;
    }
  }

  /** The id round trip: the id of `{prefix}/{id}.html` is `id`, for an id
      with no `/` and no earlier `.html`. */
  lemma PostIdOfPostUrl(prefix: string, id: string)
    requires '/' !in id
    requires forall j: nat :: j < |id| ==> !OccursAt(id + ".html", ".html", j)
    ensures PostId(prefix + "/" + id + ".html") == id
  {
    var name := id + ".html";
    assert '/' !in name;
    assert prefix + "/" + id + ".html" == prefix + ['/'] + name;
    SplitAfterLast(prefix, name, '/');
    var r := BeforeFirst(name, ".html");
    assert OccursAt(name, ".html", |id|);
    assert |r| == |id|;
    assert r == name[..|id|] == id;
  }

  // ---------------------------------------------------------------------
  // parse_post: the comments

  /** A comment before the year loop: `published` is still the `M/D H:M`
      text the time filter found. */
  datatype RawComment = RawComment(kind: string, author: string, content: string,
                                   publishedText: string, ip: Option<string>, crawled: DateTime)

  /** All `\d{1,2}/\d{1,2}\s\d{1,2}:\d{1,2}` matches of a text. */
  function TimeCandidates(s: string): seq<string> {
    FindAllText(Regex(CommentTime), s)
  }

  /** One push as a comment, or `None` when its time text has no
      `M/D H:M` candidate (it is dropped with a warning). */
  function PushComment(p: Push, env: Env): Option<RawComment> {
    var split := SplitIpAndPublishTime(p.ipdatetime);
    var cands := TimeCandidates(split.0);
    if cands == [] then None
    else Some(RawComment(p.tag, env.extractAuthor(p.userid), LStrip(p.content, PushLead),
                         cands[|cands| - 1], split.1, env.now))
  }

  /** A push is kept exactly when its time text, with the ip taken out, has
      a `M/D H:M` match somewhere; its published text is then the last
      match. */
  lemma PushCommentKeptIff(p: Push, env: Env)
    ensures var pub := SplitIpAndPublishTime(p.ipdatetime).0;
      && (PushComment(p, env).Some? <==> exists j: nat :: j <= |pub| && CommentTimeAt(pub, j).Some?)
      && (PushComment(p, env).Some? ==>
            var spans := FindAll(Regex(CommentTime), pub, 0);
            PushComment(p, env).value.publishedText == Matched(pub, spans[|spans| - 1]))
  {
    var pub := SplitIpAndPublishTime(p.ipdatetime).0;
    FindAllEmpty(Regex(CommentTime), pub, 0);
    forall j: nat | j <= |pub| ensures Hit(Regex(CommentTime), pub, j) == CommentTimeAt(pub, j) {
      HitRegex(CommentTime, pub, j);
    }
  }

  /** The kept comments, in page order. */
  function KeptComments(ps: seq<Push>, env: Env): (r: seq<RawComment>)
    ensures |r| <= |ps|
    decreases |ps|
  {
    if ps == [] then []
    else
      var c := PushComment(ps[|ps| - 1], env);
      KeptComments(ps[..|ps| - 1], env) + (if c.Some? then [c.value] else [])
  }

  lemma KeptCommentsStep(ps: seq<Push>, i: nat, env: Env)
    requires i < |ps|
    ensures var c := PushComment(ps[i], env);
      KeptComments(ps[..i + 1], env) == KeptComments(ps[..i], env) + (if c.Some? then [c.value] else [])
  {
    assert ps[..i + 1][..i] == ps[..i];
  }

  /** The push loop of `parse_post`. */
  method CollectComments(ps: seq<Push>, env: Env) returns (comments: seq<RawComment>)
    ensures comments == KeptComments(ps, env)
  {
    comments := [];
    var i := 0;
    while i < |ps|
      invariant 0 <= i <= |ps|
      invariant comments == KeptComments(ps[..i], env)
    {
      KeptCommentsStep(ps, i, env);
      var c := PushComment(ps[i], env);
      if c.Some? {
        comments := comments + [c.value];
      }
      i := i + 1;
    }
    assert ps[..|ps|] == ps;
  }

  // ---------------------------------------------------------------------
  // parse_post: the same-author merge

  /** Where the run of same-author comments that contains `i` ends. */
  function RunEnd(cs: seq<RawComment>, i: nat): (e: nat)
    requires i < |cs|
    ensures i < e <= |cs|
    ensures forall k :: i <= k < e ==> cs[k].author == cs[i].author
    ensures e < |cs| ==> cs[e].author != cs[i].author
    decreases |cs| - i
  {
    if i + 1 < |cs| && cs[i + 1].author == cs[i].author then RunEnd(cs, i + 1) else i + 1
  }

  /** `groupby` starts a group at `i`. */
  predicate RunStart(cs: seq<RawComment>, i: nat)
    requires i < |cs|
  {
    i == 0 || cs[i - 1].author != cs[i].author
  }

  /** The contents of `cs[i..j]`, concatenated in order. */
  function Contents(cs: seq<RawComment>, i: nat, j: nat): string
    requires i <= j <= |cs|
    decreases j - i
  {
    if i == j then "" else Contents(cs, i, j - 1) + cs[j - 1].content
  }

  /** The comments after the merge: the first of each maximal run of one
      author carries the contents of the whole run, in order; every other
      comment, and every other field, is as it was. */
  function Merged(cs: seq<RawComment>): (r: seq<RawComment>)
    ensures |r| == |cs|
    ensures forall k :: 0 <= k < |cs| && !RunStart(cs, k) ==> r[k] == cs[k]
    ensures forall k :: 0 <= k < |cs| && RunStart(cs, k) ==>
              r[k] == cs[k].(content := Contents(cs, k, RunEnd(cs, k)))
  {
    seq(|cs|, k requires 0 <= k < |cs| =>
      if RunStart(cs, k) then cs[k].(content := Contents(cs, k, RunEnd(cs, k))) else cs[k])
  }

  /** A run's merged content begins with its first comment's own content. */
  lemma {:induction false} ContentsStartWithFirst(cs: seq<RawComment>, i: nat, j: nat)
    requires i < j <= |cs|
    ensures StartsWith(Contents(cs, i, j), cs[i].content)
    decreases j - i
  {
    if j > i + 1 {
      ContentsStartWithFirst(cs, i, j - 1);
      var a := Contents(cs, i, j - 1);
      assert (a + cs[j - 1].content)[..|cs[i].content|] == a[..|cs[i].content|];
    }
  }

  /** The run found by the scan is the maximal run. */
  lemma RunEndAt(cs: seq<RawComment>, s: nat, i: nat)
    requires s < i <= |cs|
    requires forall k :: s <= k < i ==> cs[k].author == cs[s].author
    requires i == |cs| || cs[i].author != cs[s].author
    ensures RunEnd(cs, s) == i
    decreases i - s
  {
    if s + 1 < i {
      RunEndAt(cs, s + 1, i);
    }
  }

  /** The `groupby` loop: `d = comment` aliases the first comment of each
      run, so `d['content'] += ...` lengthens that comment in place. */
  method MergeRuns(a: array<RawComment>)
    modifies a
    ensures a[..] == Merged(old(a[..]))
  {
    ghost var cs := a[..];
    var i := 0;
    while i < a.Length
      invariant 0 <= i <= a.Length && |cs| == a.Length
      invariant forall k :: i <= k < a.Length ==> a[k] == cs[k]
      invariant i < a.Length ==> RunStart(cs, i)
      invariant forall k :: 0 <= k < i ==> a[k] == Merged(cs)[k]
    {
      var s := i;
      ghost var before := a[..];
      i := ExtendRun(a, s);
      ContentsAgree(before, cs, s, i);
      MergedRun(cs, s, i);
    }
  }

  /** One group of the `groupby` loop, from its first comment `a[s]`: the
      later comments of the run are appended to `a[s]`'s content; the index
      after the run is returned. */
  method ExtendRun(a: array<RawComment>, s: nat) returns (i: nat)
    requires s < a.Length
    modifies a
    ensures s < i <= a.Length
    ensures forall k :: s <= k < i ==> old(a[k]).author == old(a[s]).author
    ensures i == a.Length || old(a[i]).author != old(a[s]).author
    ensures a[s] == old(a[s]).(content := Contents(old(a[..]), s, i))
    ensures forall k :: 0 <= k < a.Length && k != s ==> a[k] == old(a[k])
  {
    ghost var cs := a[..];
    i := s + 1;
    while i < a.Length && a[i].author == a[s].author
      invariant s < i <= a.Length
      invariant a[s] == cs[s].(content := Contents(cs, s, i))
      invariant forall k :: s <= k < i ==> cs[k].author == cs[s].author
      invariant forall k :: 0 <= k < a.Length && k != s ==> a[k] == cs[k]
    {
      a[s] := a[s].(content := a[s].content + a[i].content);
      i := i + 1;
    }
  }

  /** `Contents` only reads the comments in its range. */
  lemma {:induction false} ContentsAgree(x: seq<RawComment>, y: seq<RawComment>, i: nat, j: nat)
    requires i <= j <= |x| && j <= |y|
    requires forall k :: i <= k < j ==> x[k] == y[k]
    ensures Contents(x, i, j) == Contents(y, i, j)
    decreases j - i
  {
    if i < j {
      ContentsAgree(x, y, i, j - 1);
    }
  }

  /** What the scan of one run has built is the merged run. */
  lemma MergedRun(cs: seq<RawComment>, s: nat, i: nat)
    requires s < i <= |cs| && RunStart(cs, s)
    requires forall k :: s <= k < i ==> cs[k].author == cs[s].author
    requires i == |cs| || cs[i].author != cs[s].author
    ensures Merged(cs)[s] == cs[s].(content := Contents(cs, s, i))
    ensures forall k :: s < k < i ==> Merged(cs)[k] == cs[k]
    ensures i < |cs| ==> RunStart(cs, i)
  {
    RunEndAt(cs, s, i);
    assert forall k :: s < k < i ==> !RunStart(cs, k);
  }

  // ---------------------------------------------------------------------
  // parse_post: the year loop

  /** `year`, `latest_month` and `_comments` of the year loop. */
  datatype YearState = YearState(year: int, latestMonth: int, out: seq<Comment>)

  /** When the loop moves to the next year. `SourceRule` is the test as
      written, on the year of the parsed comment time; `IntendedRule` tests
      the running year instead (see the findings in the README). */
  datatype YearRule = SourceRule | IntendedRule

  predicate NextYear(rule: YearRule, st: YearState, p: DateTime, currentYear: int)
  {
    p.month < st.latestMonth &&
    (if rule.SourceRule? then p.year < currentYear else st.year < currentYear)
  }

  /** One turn of the year loop. A comment `parseDate` rejects is dropped and
      changes nothing. Otherwise the year moves up by one when `NextYear`
      holds and the comment gets that year (`None`: `replace` raises, which
      ends `parse_post`). */
  function YearStep(rule: YearRule, st: Option<YearState>, c: RawComment, currentYear: int,
                    parseDate: string -> Option<DateTime>): Option<YearState>
  {
    if st.None? then None
    else
      var p := parseDate(c.publishedText);
      if p.None? then st
      else
        var y := if NextYear(rule, st.value, p.value, currentYear) then st.value.year + 1 else st.value.year;
        var dt := ReplaceYear(p.value, y);
        if dt.None? then None
        else Some(YearState(y, p.value.month,
                            st.value.out + [Comment(c.kind, c.author, c.content, dt.value, c.crawled, c.ip)]))
  }

  /** The year loop over `cs`, from `init`. */
  function YearWalk(rule: YearRule, init: YearState, cs: seq<RawComment>, currentYear: int,
                    parseDate: string -> Option<DateTime>): Option<YearState>
    decreases |cs|
  {
    if cs == [] then Some(init)
    else YearStep(rule, YearWalk(rule, init, cs[..|cs| - 1], currentYear, parseDate), cs[|cs| - 1],
                  currentYear, parseDate)
  }

  /** The loop of `parse_post` that adds the year to each comment. */
  method InferYears(rule: YearRule, cs: seq<RawComment>, published: DateTime, currentYear: int,
                    parseDate: string -> Option<DateTime>) returns (r: Option<seq<Comment>>)
    ensures var w := YearWalk(rule, YearState(published.year, published.month, []), cs, currentYear, parseDate);
      r == if w.None? then None else Some(w.value.out)
  {
    ghost var init := YearState(published.year, published.month, []);
    var year := published.year;
    var latestMonth := published.month;
    var out: seq<Comment> := [];
    var i := 0;
    while i < |cs|
      invariant 0 <= i <= |cs|
      invariant YearWalk(rule, init, cs[..i], currentYear, parseDate) == Some(YearState(year, latestMonth, out))
    {
      assert cs[..i + 1][..i] == cs[..i];
      var c := cs[i];
      var p := parseDate(c.publishedText);
      if p.Some? {
        var turn := p.value.month < latestMonth &&
                    (if rule.SourceRule? then p.value.year < currentYear else year < currentYear);
        if turn {
          year := year + 1;
        }
        var dt := ReplaceYear(p.value, year);
        if dt.None? {
          YearWalkFailed(rule, init, cs, i + 1, currentYear, parseDate);
          assert cs[..|cs|] == cs;
          return None;
        }
        out := out + [Comment(c.kind, c.author, c.content, dt.value, c.crawled, c.ip)];
        latestMonth := p.value.month;
      }
      i := i + 1;
    }
    assert cs[..|cs|] == cs;
    r := Some(out);
  }

  /** Once `replace` has raised, the loop's outcome stays a failure. */
  lemma {:induction false} YearWalkFailed(rule: YearRule, init: YearState, cs: seq<RawComment>, i: nat,
                                          currentYear: int, parseDate: string -> Option<DateTime>)
    requires i <= |cs| && YearWalk(rule, init, cs[..i], currentYear, parseDate).None?
    ensures YearWalk(rule, init, cs, currentYear, parseDate).None?
    decreases |cs| - i
  {
    if i < |cs| {
      assert cs[..i + 1][..i] == cs[..i];
      YearWalkFailed(rule, init, cs, i + 1, currentYear, parseDate);
    } else {
      assert cs[..i] == cs;
    }
  }

  /** The years the loop assigns: they start at the post's year, never go
      down, and rise by at most one per kept comment; the last comment
      carries the running year of the loop. */
  lemma {:induction false} YearWalkMonotone(rule: YearRule, init: YearState, cs: seq<RawComment>,
                                            currentYear: int, parseDate: string -> Option<DateTime>)
    requires YearWalk(rule, init, cs, currentYear, parseDate).Some?
    ensures var st := YearWalk(rule, init, cs, currentYear, parseDate).value;
      && |init.out| <= |st.out| && st.out[..|init.out|] == init.out
      && init.year <= st.year <= init.year + (|st.out| - |init.out|)
      && (forall k :: |init.out| <= k < |st.out| ==> init.year <= st.out[k].published.year <= st.year)
      && (forall k :: |init.out| <= k < |st.out| - 1 ==>
            st.out[k].published.year <= st.out[k + 1].published.year)
      && (|st.out| > |init.out| ==> st.out[|st.out| - 1].published.year == st.year)
    decreases |cs|
  {
    if cs != [] {
      var prev := YearWalk(rule, init, cs[..|cs| - 1], currentYear, parseDate);
      if prev.None? {
        assert false;
      }
      YearWalkMonotone(rule, init, cs[..|cs| - 1], currentYear, parseDate);
      var st := YearWalk(rule, init, cs, currentYear, parseDate).value;
      if |st.out| > |prev.value.out| {
        assert st.out[..|prev.value.out|] == prev.value.out;
        assert st.out[..|init.out|] == prev.value.out[..|init.out|];
      }
    }
  }

  /** Under the intended rule the running year passes neither the post's
      year nor the current year, whichever is later. */
  lemma {:induction false} IntendedYearIsBounded(init: YearState, cs: seq<RawComment>,
                                                  currentYear: int, parseDate: string -> Option<DateTime>)
    requires YearWalk(IntendedRule, init, cs, currentYear, parseDate).Some?
    ensures YearWalk(IntendedRule, init, cs, currentYear, parseDate).value.year
              <= if init.year < currentYear then currentYear else init.year
    decreases |cs|
  {
    if cs != [] {
      var prev := YearWalk(IntendedRule, init, cs[..|cs| - 1], currentYear, parseDate);
      if prev.None? {
        assert false;
      }
      IntendedYearIsBounded(init, cs[..|cs| - 1], currentYear, parseDate);
    }
  }

  /** The year rises by exactly one when `NextYear` holds and stays put
      otherwise; a comment without a readable time leaves the state as it
      was. */
  lemma YearStepRule(rule: YearRule, st: YearState, c: RawComment, currentYear: int,
                     parseDate: string -> Option<DateTime>)
    requires YearStep(rule, Some(st), c, currentYear, parseDate).Some?
    ensures var next := YearStep(rule, Some(st), c, currentYear, parseDate).value;
      var p := parseDate(c.publishedText);
      && (p.None? ==> next == st)
      && (p.Some? ==> next.latestMonth == p.value.month && |next.out| == |st.out| + 1)
      && (p.Some? ==> (next.year == st.year + 1 <==> NextYear(rule, st, p.value, currentYear)))
      && (p.Some? ==> (next.year == st.year <==> !NextYear(rule, st, p.value, currentYear)))
  {
  }

  /** As written, with the comment times read in the current year (which is
      what a date parser filling in a missing year from today's date gives
      for `MM/DD HH:MM`), the loop never moves the year: a comment posted on
      1 January under a post of 31 December gets the post's year and so
      dates from before the post. */
  lemma SourceRuleDatesCommentBeforePost()
    ensures var post := DateTime(2020, 12, 31, 23, 0, 0);
      var c := RawComment("推", "a", "x", "01/01 10:00", None, DateTime(2021, 1, 1, 10, 5, 0));
      var parse := (t: string) => Some(DateTime(2021, 1, 1, 10, 0, 0));
      var w := YearWalk(SourceRule, YearState(2020, 12, []), [c], 2021, parse);
      && w.Some? && |w.value.out| == 1
      && w.value.out[0].published == DateTime(2020, 1, 1, 10, 0, 0)
      && w.value.out[0].published.year == post.year && w.value.out[0].published.month < post.month
  {
    var c := RawComment("推", "a", "x", "01/01 10:00", None, DateTime(2021, 1, 1, 10, 5, 0));
    var parse := (t: string) => Some(DateTime(2021, 1, 1, 10, 0, 0));
    assert [c][..0] == [];
    assert !NextYear(SourceRule, YearState(2020, 12, []), DateTime(2021, 1, 1, 10, 0, 0), 2021);
  }

  /** The same comment under the intended rule moves into the next year. */
  lemma IntendedRuleDatesCommentAfterPost()
    ensures var c := RawComment("推", "a", "x", "01/01 10:00", None, DateTime(2021, 1, 1, 10, 5, 0));
      var parse := (t: string) => Some(DateTime(2021, 1, 1, 10, 0, 0));
      var w := YearWalk(IntendedRule, YearState(2020, 12, []), [c], 2021, parse);
      && w.Some? && |w.value.out| == 1
      && w.value.out[0].published == DateTime(2021, 1, 1, 10, 0, 0)
  {
    var c := RawComment("推", "a", "x", "01/01 10:00", None, DateTime(2021, 1, 1, 10, 5, 0));
    assert [c][..0] == [];
  }

  /** As written the year never moves while every parsed comment time falls
      in the current year: every kept comment gets the post's year. */
  lemma {:induction false} SourceRuleKeepsPostYear(init: YearState, cs: seq<RawComment>,
                                                   currentYear: int, parseDate: string -> Option<DateTime>)
    requires forall k :: 0 <= k < |cs| && parseDate(cs[k].publishedText).Some? ==>
               parseDate(cs[k].publishedText).value.year == currentYear
    requires YearWalk(SourceRule, init, cs, currentYear, parseDate).Some?
    ensures YearWalk(SourceRule, init, cs, currentYear, parseDate).value.year == init.year
    decreases |cs|
  {
    if cs != [] {
      var prev := YearWalk(SourceRule, init, cs[..|cs| - 1], currentYear, parseDate);
      if prev.None? {
        assert false;
      }
      SourceRuleKeepsPostYear(init, cs[..|cs| - 1], currentYear, parseDate);
    }
  }

  // ---------------------------------------------------------------------
  // parse_post

  /** Why `parse_post` yields nothing, or the post. */
  datatype PostOutcome =
    | NotFound              // status 404
    | NoAuthor              // no `作者` meta line: logged, nothing yielded
    | NoTime                // no `時間` meta line: `post.pop('published')` raises
    | BadTime               // `dp.parse` rejects the post time
    | BadYear               // a comment year `replace` cannot take
    | Emitted(post: Post)

  /** The comments of `parse_post`: kept, merged by author run, given years
      by the year rule `rule` (`SourceRule` is the test as written). */
  method PostComments(rule: YearRule, page: PostPage, env: Env, published: DateTime) returns (r: Option<seq<Comment>>)
    ensures var years := YearWalk(rule, YearState(published.year, published.month, []),
                                  Merged(KeptComments(page.pushes, env)), env.now.year, env.parseDate);
      r == if years.None? then None else Some(years.value.out)
  {
    var raw := CollectComments(page.pushes, env);
    var a := new RawComment[|raw|](k requires 0 <= k < |raw| => raw[k]);
    assert a[..] == raw;
    MergeRuns(a);
    r := InferYears(rule, a[..], published, env.now.year, env.parseDate);
  }

  /** The body and the quote `parse_post` takes from the cleaned content;
      the quote is present exactly when some quote line matched. */
  method Quoted(content: string) returns (body: string, quote: Option<string>)
    ensures body == Strip(RemoveEach(content, QuoteMatches(content)), BodyEdge)
    ensures quote.Some? <==> QuoteMatches(content) != []
    ensures quote.Some? ==> quote.value == Join("\n", StripEach(QuoteMatches(content), {'\n'}))
  {
    var quoted;
    body, quoted := SplitQuote(content);
    QuoteEmptyIffNoMatch(content);
    quote := if quoted != "" then Some(quoted) else None;
  }

  /** `parse_post`, from the response to the `PostItem`; `rule` is the
      comment-year test, `SourceRule` for the code as written. */
  method ParsePost(rule: YearRule, page: PostPage, env: Env) returns (r: PostOutcome)
    ensures page.status == 404 <==> r == NotFound
    ensures var meta := ReadMeta(page.meta);
      && (r == NoAuthor <==> page.status != 404 && meta.author.None?)
      && (r == NoTime <==> page.status != 404 && meta.author.Some? && meta.published.None?)
      && (r == BadTime <==> page.status != 404 && meta.author.Some? && meta.published.Some? &&
                             env.parseDate(meta.published.value).None?)
    ensures r.Emitted? ==>
      var meta := ReadMeta(page.meta);
      var post := r.post;
      var content := ModContent(page.main, env.stripTags);
      var published := env.parseDate(meta.published.value).value;
      var years := YearWalk(rule, YearState(published.year, published.month, []),
                            Merged(KeptComments(page.pushes, env)), env.now.year, env.parseDate);
      && meta.author.Some? && meta.published.Some?
      && post.id == PostId(page.url)
      && post.board == Strip(page.board, PySpace)
      && post.author == env.extractAuthor(meta.author.value)
      && post.title == meta.title
      && post.ip == env.extractIp(page.main)
      && post.published == published
      && post.crawled == env.now
      && years.Some? && post.comments == years.value.out
      && post.content == Strip(RemoveEach(content, QuoteMatches(content)), BodyEdge)
      && (post.quote.Some? <==> QuoteMatches(content) != [])
      && (post.quote.Some? ==> post.quote.value == Join("\n", StripEach(QuoteMatches(content), {'\n'})))
      && post.count == Tally(Kinds(post.comments))
      && SumValues(post.count) == |post.comments|
    ensures r == BadYear ==>
      var meta := ReadMeta(page.meta);
      var published := env.parseDate(meta.published.value).value;
      && meta.author.Some? && meta.published.Some? && env.parseDate(meta.published.value).Some?
      && YearWalk(rule, YearState(published.year, published.month, []),
                  Merged(KeptComments(page.pushes, env)), env.now.year, env.parseDate).None?
  {
    if page.status == 404 {
      return NotFound;
    }
    var ip := env.extractIp(page.main);
    var content := ModContent(page.main, env.stripTags);
    var board := Strip(page.board, PySpace);
    var id := PostId(page.url);
    var meta := ReadMeta(page.meta);
    if meta.author.None? {
      return NoAuthor;
    }
    var author := env.extractAuthor(meta.author.value);
    if meta.published.None? {
      return NoTime;
    }
    var parsed := env.parseDate(meta.published.value);
    if parsed.None? {
      return BadTime;
    }
    var published := parsed.value;
    var comments := PostComments(rule, page, env, published);
    if comments.None? {
      return BadYear;
    }
    var body, quote := Quoted(content);
    var count := CommentCounter(comments.value);
    r := Emitted(Post(id, board, author, meta.title, body, ip, quote, published, env.now,
                      comments.value, count));
  }
}
