# scraptt in Dafny

A model of the PTT crawler `scraptt`, with proofs about it. PTT is a Taiwanese bulletin-board system. The crawler has three spiders:

- **`ptt`** walks a board's listing pages, newest first, down to a "since" date. It turns every post page into a `PostItem` that holds the post and its comments.
- **`meta`** walks the board-class hierarchy.
- **`ptt_article`** archives raw post pages.

Two scrapy item pipelines store the posts:

- **`PTTPipeline`** upserts documents into a collection keyed by `id`.
- **`JsonPipeline`** writes one JSON-lines file per board.

A stand-alone tool, `helper.py`, tallies Chinese word/part-of-speech tokens per year over archived pages.

## Modules

One module per source file, plus shared helpers:

| module | file | models |
|---|---|---|
| `PttSpider` | `ptt.dfy` | `scraptt/spiders/ptt.py` |
| `ArticleSpider` | `article.dfy` | `scraptt/spiders/ptt_article.py` |
| `MetaSpider` | `meta.dfy` | `scraptt/spiders/meta.py` |
| `Pipelines` | `pipelines.dfy` | `scraptt/pipelines.py` |
| `CommentParsers` | `comment.dfy` | `scraptt/spiders/parsers/comment.py` |
| `Helper` | `helper.dfy` | `helper.py` |
| `Items` | `items.dfy` | the item fields and the `datetime` behaviour the code relies on |
| `Patterns` | `patterns.dfy` | the regular expressions the code uses, scanned left to right |
| `Text` | `text.dfy` | Python string operations (`strip`, `split`, `replace`, `join`, `str(n)`) |
| `Sums` | `sums.dfy` | order-free sums over maps |
| `Wrappers` | `wrappers.dfy` | `Option` |

## How the source is represented

**In-place code.** State that the source changes in place is modelled in place:

- The same-author merge of `parse_post` rewrites the first comment of each run in place, so it is an array algorithm.
- `meta.py`'s `parent_nodes` list is one shared, mutable object, so it is a class. Which list each output refers to is part of `Parse`'s contract.
- The two pipelines are classes over their collection and their exporter map.

Every method is proved against a specification function. That function's properties are proved as lemmas.

**Page input.** Pages come in already selected: the topics, the meta tags and the push texts that the CSS queries return.

**Foreign calls.** These become function parameters:

- HTML tag stripping;
- `extract_author` and `extract_ip`;
- `dateutil.parser.parse`, `datetime.strptime` and `datetime.fromtimestamp`;
- Jieba segmentation;
- the SHA-256 hex digest.

A parser that raises gives `None`. The clock is a value.

**Failures.** A scrapy callback that raises, or one that only logs and returns, ends with a named outcome. That outcome is either a `None` result or a constructor of the outcome datatype.

**Points where the code does something easy to misread:**

- **The ip split.** `split_ip_and_publish_time` returns `("", None)` for an empty text, not two nulls. It does not trim the remainder either. Such a push is then dropped by the time filter of `parse_post`.
- **`parent_nodes`.** The list is appended to in place rather than copied. On a page reached with a list, the items and the first sub-class request therefore share that one list object. On the start page, the items carry `None`.
- **The newest listing page.** `prev_all` lists the topics above the separator nearest first, so `reversed` walks them from the top of the page down. One top topic dated before `since` ends the walk at once: no post of that page is requested and the previous page is not followed (`NewestPageTopTooOld`).
- **The same-author merge.** `d = comment` aliases the first comment of each run, so extending `d` rewrites that comment in `comments`. The merged contents are then what the year loop walks and what reaches the item.
- **`remove_ip`.** `comment.py` defines `comment_counter` and `split_ip_and_publish_time`, but no `remove_ip`. As written, the import at `ptt.py:11` fails, so the `ptt` spider does not load. The model takes the call at `ptt.py:166` to be `split_ip_and_publish_time`.
- **No reversal in `ptt_article`.** Its `parse_index` walks the topics in selection order, despite its comment about reversing.

## Model

| member | source | states |
|---|---|---|
| PttSpider.NewSpider | scraptt/spiders/ptt.py:34-50 | The boards are the list of every board for `_all` and otherwise the stripped argument split at commas, with the first `ALLPOST` removed. `since` is the parsed `%Y%m%d` date when given non-empty, and today otherwise. There is no spider exactly when `boards` is missing (`kwargs.pop` raises) or a non-empty `since` does not parse. |
| PttSpider.NewSpiderDropsOneAllpost | scraptt/spiders/ptt.py:42-43 | The board list has exactly one `ALLPOST` fewer than the listed boards (none if none was listed). Every other board keeps its count. |
| PttSpider.RemoveFirstIsFirst | scraptt/spiders/ptt.py:42-43 | `list.remove` deletes the first occurrence, and the other boards keep their order. |
| PttSpider.RemoveFirstCounts | scraptt/spiders/ptt.py:43 | `remove` takes away one copy of the value, as a multiset difference. |
| PttSpider.StartRequests | scraptt/spiders/ptt.py:53-59 | One listing request per board, in board order. Each is the board's `index.html` URL with the `parse_index` callback. |
| PttSpider.ConsideredMeans | scraptt/spiders/ptt.py:65-69 | On an `index.html` URL, the topics are the links before the separator, nearest the separator first, and none without a separator. Elsewhere they are all the links. |
| PttSpider.TimestampFromMeans | scraptt/spiders/ptt.py:75 | The scan stops at the first position where ten digits start. Before it there is no such run. |
| PttSpider.TopicDateIsFirstTimestamp | scraptt/spiders/ptt.py:75-76 | `re.search(r'(\d{10})', href)` finds exactly the first ten-digit run, the one the topic's date is read from. It finds nothing exactly when the topic has no date. |
| PttSpider.WalkLengthMeans | scraptt/spiders/ptt.py:72-82 | Every topic the walk requests has a date not before `since`. The topic the walk stops at has no timestamp or is older than `since`. |
| PttSpider.TooOldStopsEverything | scraptt/spiders/ptt.py:77-78 | Once a topic is older than `since`, neither it nor any later topic is requested. |
| PttSpider.WalkTopics | scraptt/spiders/ptt.py:72-87 | The loop requests the posts of the leading run of topics that are recent enough, in order. A missing timestamp ends it with a failure, and a too-old topic ends it quietly. The previous page is requested only after a full walk, and only for a non-empty `上頁` link. |
| PttSpider.ParseIndex | scraptt/spiders/ptt.py:61-87 | `parse_index`: the walk above over `reversed` of the considered topics. On the newest page that is page order, top topic first; on a numbered page it is the links from the bottom up (see `IndexWalkOrder`). |
| PttSpider.IndexWalkOrder | scraptt/spiders/ptt.py:66-72 | On `index.html`, reversing the nearest-first `prev_all` list gives the topics above the separator in page order. On a numbered page the walk runs over the links reversed. |
| PttSpider.NewestPageTopTooOld | scraptt/spiders/ptt.py:66-87 | On the newest page, a top topic dated before `since` ends the walk at once: no post is requested, and neither is the previous page. |
| PttSpider.LastValue | scraptt/spiders/ptt.py:139-143 | `dict(...)` over the meta tags: no entry exactly when no tag has the label; otherwise the value of the last tag with it. |
| PttSpider.ReadMetaLastWins | scraptt/spiders/ptt.py:139-163 | A later `作者`, `標題` or `時間` tag decides that field, stripped. |
| PttSpider.ReadMetaIgnoresOtherLabels | scraptt/spiders/ptt.py:160-163 | Tags with other labels do not change the mapped fields. |
| PttSpider.PostId | scraptt/spiders/ptt.py:155-159 | The id is the URL's last segment up to its first `.html`, or the whole segment when it has none. It holds no `/`. |
| PttSpider.PostIdOfPostUrl | scraptt/spiders/ptt.py:155-159 | Round trip: the id of `{prefix}/{id}.html` is `id`, for an id with no `/` and no `.html`. |
| PttSpider.PushCommentKeptIff | scraptt/spiders/ptt.py:164-191 | A push is kept exactly when its time text, with the ip removed, matches `M/D H:M` somewhere. The time kept is the last match. |
| PttSpider.CollectComments | scraptt/spiders/ptt.py:164-191 | The push loop yields the kept comments, in page order. |
| PttSpider.RunEnd | scraptt/spiders/ptt.py:207 | A `groupby` group is the maximal run of adjacent comments with one author. |
| PttSpider.Merged | scraptt/spiders/ptt.py:205-214 | After the merge, the list keeps its length. The first comment of each run carries the run's contents concatenated in order. Every other comment is as it was. |
| PttSpider.ContentsStartWithFirst | scraptt/spiders/ptt.py:209-213 | A run's merged content begins with its first comment's own content. |
| PttSpider.ExtendRun | scraptt/spiders/ptt.py:209-213 | One group: its extent is the maximal run, its first comment gains the run's contents, and no other element changes. |
| PttSpider.MergedRun | scraptt/spiders/ptt.py:207-214 | What the scan of one run builds is that run of `Merged`; the next run starts right after it. |
| PttSpider.MergeRuns | scraptt/spiders/ptt.py:205-214 | The in-place `groupby` loop leaves the array equal to `Merged` of its old contents. |
| PttSpider.InferYears | scraptt/spiders/ptt.py:216-240 | The year loop equals the year walk, under either rule. A comment time that does not parse is dropped. A `replace` that raises fails the whole walk. |
| PttSpider.YearStepRule | scraptt/spiders/ptt.py:233-239 | The year rises by exactly one when the month goes back and the rule's year test holds, and stays put otherwise. `latest_month` becomes the comment's month, and a comment without a readable time changes nothing. |
| PttSpider.YearWalkFailed | scraptt/spiders/ptt.py:238 | Once `replace` has raised, the walk has failed whatever follows. |
| PttSpider.YearWalkMonotone | scraptt/spiders/ptt.py:216-240 | Assigned years start at the post's year and never decrease along the comments. They rise by at most one per kept comment, and the last comment carries the running year. |
| PttSpider.IntendedYearIsBounded | scraptt/spiders/ptt.py:233-237 | Under the corrected rule, the running year exceeds neither the post's year nor the current year, whichever is later. |
| PttSpider.SourceRuleKeepsPostYear | scraptt/spiders/ptt.py:233-237 | As written, while every parsed comment time falls in the current year, the year never moves off the post's year. |
| PttSpider.SourceRuleDatesCommentBeforePost | scraptt/spiders/ptt.py:233-238 | As written, a 1 January comment under a 31 December post gets the post's year, and so is dated before the post. |
| PttSpider.IntendedRuleDatesCommentAfterPost | scraptt/spiders/ptt.py:233-238 | Under the corrected rule, the same comment is dated in the following year. |
| PttSpider.PostComments | scraptt/spiders/ptt.py:164-240 | The comments of the item are the kept pushes, merged by author run and given years by the walk under the given year rule (`SourceRule`: the test as written). |
| PttSpider.Quoted | scraptt/spiders/ptt.py:241-249 | The body is the content with every quote line deleted, then trimmed. A quote is recorded exactly when some quote line matched, as the matched lines joined by newlines. |
| PttSpider.ParsePost | scraptt/spiders/ptt.py:127-257 | A 404 gives nothing. A missing author yields nothing (it is only logged). A missing time and an unparseable time each raise, exactly in those cases, and so does a comment year that `replace` rejects. Otherwise the post carries the id, stripped board, extracted author, title, ip and parsed time, the crawl time, the comments, the quote-free body, the quote iff one matched, and a count that tallies the comments' marks and sums to their number. Comment years follow the given year rule; `SourceRule` is the code as written. |
| CommentParsers.CommentCounter | scraptt/spiders/parsers/comment.py:28-31 | The counter holds each mark's exact number of comments. Its keys are exactly the marks that occur, and the counts sum to the number of comments. |
| CommentParsers.TallySum | scraptt/spiders/parsers/comment.py:28-31 | The tally's counts add up to the number of comments. |
| CommentParsers.TallyOrderFree | scraptt/spiders/parsers/comment.py:28-31 | The tally depends only on the multiset of marks, not on their order. |
| CommentParsers.SplitWithoutIp | scraptt/spiders/parsers/comment.py:48-55 | No ip is found exactly when the IPv4 pattern matches nowhere. The text then comes back unchanged. |
| CommentParsers.SplitWithIp | scraptt/spiders/parsers/comment.py:48-52 | With a match, the ip is the last non-overlapping match and occurs in the text. The time text is the input with every copy of it deleted, shorter by a positive multiple of its length. |
| CommentParsers.LastMatchRemoved | scraptt/spiders/parsers/comment.py:51-52 | The last match of any pattern occurs in the text, so deleting it removes at least one copy. |
| CommentParsers.BareDotsAreAnIp | scraptt/spiders/parsers/comment.py:48 | The pattern's digit groups may be empty, so a bare `...` is taken for the ip and the time text is empty. |
| CommentParsers.EmptyTextHasNoIp | scraptt/spiders/parsers/comment.py:48-57 | The empty text splits into `("", None)`. |
| Helper.SignatureIsLinePattern | helper.py:42-43 | The signature pattern matches wherever one of its three markers occurs, and every match runs to the end of its line. |
| Helper.ModContentDropsSignatures | helper.py:39-45 | No signature marker survives `mod_content`, not even one the deletions could have stitched together. |
| Helper.ModContentWithoutSignature | helper.py:39-45 | Text without a signature line is only trimmed of `\r`, `\n` and `-` at both ends. |
| Helper.ChineseCharIsFirstChar | helper.py:47-49 | `is_chinese_char` is decided by the first character alone, whatever follows it. |
| Helper.QuoteMatchesNotBlank | helper.py:68-71 | No quote line strips down to nothing. |
| Helper.SplitQuote | helper.py:67-72 | The quote loop deletes every found quote line from the content in turn, then trims the rest. The quote is the lines, each stripped of `\n`, joined by `\n`. |
| Helper.QuoteEmptyIffNoMatch | scraptt/spiders/ptt.py:246-249 | The joined quote is empty exactly when no quote line was found. |
| Helper.RemoveEachShrinks | helper.py:69-70 | Deleting the quote lines never lengthens the text. |
| Helper.QuoteSplitShrinks | helper.py:68-70 | When a quote is found, the body is strictly shorter than the content. |
| Helper.TickCount | helper.py:77-78 | One token adds one to its own word/tag entry only, and only for a CJK word. The counter stays well formed. |
| Helper.TickAllCount | helper.py:76-78 | After a token list, each entry has grown by the number of CJK tokens with that word and tag. |
| Helper.CountTokens | helper.py:76-78 | The tally loop over one segmentation. |
| Helper.CountPushes | helper.py:84-93 | The push loop tallies each non-blank push's tokens, in order. |
| Helper.BlankPushAddsNothing | helper.py:85-86 | A push that is blank after `lstrip(' :')` adds no token. |
| Helper.Extract | helper.py:52-94 | `_extract` fails exactly on a page without main content. It tallies the quote-free body, then the pushes. |
| Helper.ExtractCounts | helper.py:52-94 | Each entry of a page's tally is the number of CJK tokens with that word and tag, over the body and the non-blank pushes. Non-CJK words get no entry. |
| Helper.AddEntryMeans | helper.py:116 | `d[year][word][pos] += freq` changes that one entry, by `freq`, and keeps the tally well formed. |
| Helper.MergeWord | helper.py:115-116 | The inner loop adds one word's counts into the year, and nothing else changes. |
| Helper.MergeInto | helper.py:114-116 | One file's tally is added into its year, and no other year changes. |
| Helper.MergeFiles | helper.py:105-116 | A year directory adds, to each entry of its year, the sum over its files that extract. Files that raise are skipped. |
| Helper.HtmlToJson | helper.py:97-119 | Each entry of the aggregate is the sum of that word/tag's counts over the files of that year's directories. Every stored year and word holds a non-empty map, every stored word starts with a CJK character, and every stored count is positive. |
| Helper.AddValues | helper.py:130-131 | The inner loop adds all of one word's frequencies. |
| Helper.SumWordTokenByYear | helper.py:122-134 | The total is the sum of every frequency under the year, or 0 when the year is absent. |
| Helper.YearSumNonNegative | helper.py:122-134 | Non-negative frequencies give a non-negative total. |
| Items.ReplaceYearKeepsValid | scraptt/spiders/ptt.py:238 | On a valid `datetime` (real month and day, year 1..9999), `replace(year=y)` succeeds exactly when the same fields in year `y` form a valid `datetime` again, and the result is in year `y`. |
| Items.ReplaceYearRoundTrip | scraptt/spiders/ptt.py:238 | Replacing the year back undoes a successful `replace(year=y)` on a valid `datetime`. |
| Pipelines.PostRecord | scraptt/pipelines.py:77-89 | There is a post record exactly when the item has a title (`item['title']` raises otherwise). |
| Pipelines.PostRecordFields | scraptt/pipelines.py:77-89 | The post record holds exactly the eleven listed fields, with the three mark counts (0 for an absent mark). It holds neither quote nor comments. |
| Pipelines.CountsRead | scraptt/pipelines.py:86-88 | Reading the three marks from the `defaultdict` adds 0 entries for the missing ones and changes no existing count. |
| Pipelines.CountsReadKeepsTotal | scraptt/pipelines.py:86-88 | The added zeros leave the total count unchanged. |
| Pipelines.PostRecordAfterRead | scraptt/pipelines.py:77-89 | The record built from the item the pipeline hands on equals the one built the first time. |
| Pipelines.CommentKey | scraptt/pipelines.py:103 | The key is the 16-character prefix of the digest of post id + author + `str(published)`, so it depends on those three alone. |
| Pipelines.CommentRecordFields | scraptt/pipelines.py:104-113 | The comment record holds exactly the eight listed fields, keyed by the comment key and naming its post. |
| Pipelines.ApplySets | scraptt/pipelines.py:92-96 | One upsert: the written fields overwrite, the document's other fields survive, and other documents are unchanged. |
| Pipelines.ApplyAllAt | scraptt/pipelines.py:92-119 | After a run of upserts, each document is its old fields updated by everything set under its key, later upserts winning. |
| Pipelines.ApplyAllTwice | scraptt/pipelines.py:92-119 | Running the same upserts again leaves the collection as it was (idempotence). |
| Pipelines.ItemUpserts | scraptt/pipelines.py:75-121 | An item issues the post upsert, then one upsert per comment in order. It issues none without a title. |
| Pipelines.ProcessTwiceIsOnce | scraptt/pipelines.py:75-121 | Processing the item the first call handed on changes nothing further. |
| Pipelines.ItemUpsertsStore | scraptt/pipelines.py:75-121 | Afterwards the post and every comment are stored, each comment naming its post, and documents under other keys are unchanged. |
| Pipelines.PttPipeline.UpsertComments | scraptt/pipelines.py:102-119 | The comment loop applies the comment upserts in order. |
| Pipelines.PttPipeline.ProcessItem | scraptt/pipelines.py:75-121 | Without a title, nothing is written and the call fails. Otherwise the collection is the old one after the item's upserts, and the item is handed on. |
| Pipelines.ExportPath | scraptt/pipelines.py:176 | The export file is `/data/rawdata/{board}.jsonl`, from which the board can be read back. |
| Pipelines.ExportPathInjective | scraptt/pipelines.py:176 | Different boards write different files. |
| Pipelines.ExportRecords | scraptt/pipelines.py:215-240 | An item exports its post record when it has no comments, and otherwise exactly its comment records, in order. It exports nothing without a title. |
| Pipelines.ExportedRecordsNamePost | scraptt/pipelines.py:220-240 | A post with comments is exported only through its comments, each naming it. The post record itself is not written. |
| Pipelines.ExportedTwice | scraptt/pipelines.py:173-180 | Two writes to one board's exporter append both record lists, in order, to the same exporter. |
| Pipelines.JsonPipeline.OpenSpider | scraptt/pipelines.py:164-165 | No exporter is open at the start. |
| Pipelines.JsonPipeline.ExporterFor | scraptt/pipelines.py:173-180 | A board's exporter is opened on its first item and reused afterwards. No other exporter changes. |
| Pipelines.JsonPipeline.ProcessItem | scraptt/pipelines.py:182-241 | Without a title, nothing is written. Otherwise the board's exporter gains exactly the item's export records, and the item is handed on. |
| Pipelines.JsonPipeline.CloseSpider | scraptt/pipelines.py:168-171 | Every open exporter is finished and closed. No exporter is added or lost, and nothing else changes. |
| MetaSpider.NewSpider | scraptt/spiders/meta.py:27 | The start index is the argument, or `'1'` by default. |
| MetaSpider.StartUrl | scraptt/spiders/meta.py:30-34 | The one start request is the class page `https://www.ptt.cc/cls/{index}`. |
| MetaSpider.IsBoardIsIndexPath | scraptt/spiders/meta.py:49-50 | An entry is a board exactly when its link is some path followed by `/index.html`. |
| MetaSpider.ClassIdWhenDigit | scraptt/spiders/meta.py:63 | A class id exists exactly when the link has a digit; otherwise `[0]` raises. |
| MetaSpider.ClassIdIsFirstDigits | scraptt/spiders/meta.py:63 | The class id is the first digit and those following it, up to ten or the first non-digit. |
| MetaSpider.ClassIdIsFirstMatch | scraptt/spiders/meta.py:63 | The class id is the first match of `\d{1,10}`, the one `findall` reports first. |
| MetaSpider.NoClassIdNoMatch | scraptt/spiders/meta.py:63 | A link without a digit has no `\d{1,10}` match. |
| MetaSpider.KindOfMeans | scraptt/spiders/meta.py:44-69 | Each entry is a board, `ALLPOST` (which ends the page), a sub-class carrying its name, class, title and class id, or a digit-less sub-class link (which raises). |
| MetaSpider.PlanOf | scraptt/spiders/meta.py:41-85 | One output per entry up to the first entry that ends the page, each as the plan describes. |
| MetaSpider.PlanLists | scraptt/spiders/meta.py:71-85 | Items before the first sub-class carry the page's list. That sub-class appends itself to the list and sends it on. Afterwards, items carry `None` and each request gets a new list. |
| MetaSpider.NodeList.Append | scraptt/spiders/meta.py:75 | `parent_nodes.append(parent_obj)` extends the shared list by one node. |
| MetaSpider.Emit | scraptt/spiders/meta.py:49-85 | One entry's output refers to the list its plan names. A sub-class resets `parent_nodes` to `None`. |
| MetaSpider.Parse | scraptt/spiders/meta.py:37-85 | The outputs follow the plan, each referring to the list it names; new lists are fresh and hold their one entry. The page fails exactly at a digit-less sub-class. The given list gains only the first sub-class before the end. |
| MetaSpider.TwoClassesAreFollowed | scraptt/spiders/meta.py:60-69 | The links `/cls/12` and `/cls/34` are sub-classes with class ids `12` and `34`. |
| MetaSpider.SecondSiblingLosesAncestry | scraptt/spiders/meta.py:71-85 | As written, the second of two sibling sub-classes gets a new list of its own entry alone. |
| MetaSpider.ChainedKeepsPath | scraptt/spiders/meta.py:64-83 | Under the corrected reading, items carry the page's path. A request carries that path extended by its own entry with its class id. |
| MetaSpider.ParseIntended | scraptt/spiders/meta.py:37-85 | The corrected `parse`: every entry before the end, siblings alike, gets the page's path. It fails exactly where `parse` fails. |
| MetaSpider.SecondSiblingKeepsAncestry | scraptt/spiders/meta.py:71-85 | Under the corrected reading, both sibling requests carry the page's path. |
| ArticleSpider.NewSpider | scraptt/spiders/ptt_article.py:35-36 | There is a spider exactly when both `board` and `pages` are given. |
| ArticleSpider.StartRequests | scraptt/spiders/ptt_article.py:39-45 | One request per page number 1..`pages`, ascending, each with the `parse_index` callback. There are none for `pages` below 1. |
| ArticleSpider.PageUrlsDiffer | scraptt/spiders/ptt_article.py:41-42 | Different page numbers give different URLs. |
| ArticleSpider.PageUrlIsNotNewest | scraptt/spiders/ptt_article.py:42 | A numbered page URL never ends in `index.html`. |
| ArticleSpider.StartedPagesKeepEveryTopic | scraptt/spiders/ptt_article.py:51-55 | On every page the spider starts from, `parse_index` takes all the topic links, in page order. |
| ArticleSpider.ParseIndex | scraptt/spiders/ptt_article.py:47-63 | One post request per topic taken, in selection order (not reversed). |
| ArticleSpider.ScanTimeUnset | scraptt/spiders/ptt_article.py:74-76 | The time stays `None` exactly when no label strips to `時間`. |
| ArticleSpider.ScanTimeRaised | scraptt/spiders/ptt_article.py:74-76 | The callback fails exactly when some time label's text does not parse. |
| ArticleSpider.ScanTimeLast | scraptt/spiders/ptt_article.py:74-76 | Otherwise the time is the parse of the last time label. |
| ArticleSpider.ScanTimeIgnoresOtherLabels | scraptt/spiders/ptt_article.py:74-76 | Other labels do not change the scan. |
| ArticleSpider.ReadTime | scraptt/spiders/ptt_article.py:74-76 | The label loop computes the scan. |
| ArticleSpider.ArchivePathShape | scraptt/spiders/ptt_article.py:78 | Every archive file lies under `data/` and ends in `_{id}.html`. |
| ArticleSpider.ArchivePathUnpadded | scraptt/spiders/ptt_article.py:78 | Date parts are not zero-padded: a post of 5 March 2021 goes to `data/2021-3-5_{id}.html`. |
| ArticleSpider.ArchivePathsDiffer | scraptt/spiders/ptt_article.py:78 | Posts of one day with different ids get different files. |
| ArticleSpider.ArchiveNamedById | scraptt/spiders/ptt_article.py:73-78 | The archive file of `{prefix}/{id}.html` ends in `_{id}.html`. |
| ArticleSpider.NewItem | scraptt/spiders/ptt_article.py:84 | A scrapy item is built exactly when every keyword is a declared field, and then holds those keywords. |
| ArticleSpider.AsWrittenItemRaises | scraptt/spiders/ptt_article.py:84 | As written, `_ArticleItem(article=...)` raises for every page. |
| ArticleSpider.IntendedItemHoldsBody | scraptt/spiders/ptt_article.py:84 | Built with `html_content`, the item holds the page body. |
| ArticleSpider.ParsePost | scraptt/spiders/ptt_article.py:66-84 | The callback fails before writing exactly when some time label fails to parse. Otherwise the page body is written under the archive path exactly when there is a time and the path opens. The item is then built, or raises, by the item rule. |

## Left out

- The `ImportError` at `ptt.py:11` is not modelled: `remove_ip` does not exist in `comment.py`, and the model reads the call at `ptt.py:166` as `split_ip_and_publish_time`. It then models the spider as if the import had succeeded.
- Network, scheduling and scrapy's request queue are left out. The request lists are what the callbacks yield, in order. A callback that raises has already yielded its earlier requests and items.
- The HTML DOM and CSS selection are left out; pages come in as their selected parts. `prev_all` is taken to return the nearest sibling first. A page without `#main-content` is modelled only in `helper.py`'s `_extract`, where it makes the tag stripper raise.
- `scraptt/spiders/parsers/post.py` is not part of this model. `extract_author` and `extract_ip` are parameters. `mod_content` is taken to be the one in `helper.py`.
- Tag stripping, Jieba segmentation, `dateutil.parser.parse`, `strptime`, `fromtimestamp` and SHA-256 are parameters. They are foreign code.
- A Jieba call that raises contributes no tokens. The tokens of a segmentation that raises part-way are not modelled.
- The clock is read once per callback. The source reads it for each comment and again at the end.
- Microseconds and time zones are not modelled. `datetime` values are whole seconds, and `fromtimestamp` is a given local-date function.
- `\d` and `\s` are read as ASCII digits and Python's whitespace set. Unicode digits are not modelled.
- Response decoding, file and directory I/O, `glob` order, JSON (de)serialization, `multiprocessing.Pool` and the command-line front end of `helper.py` are left out. `html_to_json` receives its directories with the pages read. `sum_word_token_by_year` receives the decoded object.
- In `ptt_article`, whether a path can be opened is a parameter. The written file is an output value.
- The MongoDB connection (`MongoPipeline.open_spider`/`close_spider`), `MetaPipeline` and `ElasticsearchPipeline` are outside the modelled core.
- The Cockroach query for `_all` is left out; its result is the parameter `allBoards`.
- A link without `href` is not modelled, on listing pages or on class pages. At `meta.py:44-50` a missing `href` makes `href.endswith` raise `AttributeError` and ends the page; the model's entries always carry a string.
- `ptt_article`'s `int(self.pages)` is taken as an already-converted integer.
- Logging is left out.

## Findings

| source | as written | input that shows it | evidently intended | confidence | as-written member | corrected member |
|---|---|---|---|---|---|---|
| scraptt/spiders/ptt.py:233-237 | The year-rollover test compares the parsed comment time's year with the current year. `dp.parse` fills a missing year with the current year, so that test never holds. | A post of 31 December 2020 with a comment `01/01 10:00`, crawled in 2021: the comment is dated 1 January 2020, before its post. | The running comment year should be below the current year. | high; not executed | PttSpider.SourceRuleDatesCommentBeforePost | PttSpider.IntendedRuleDatesCommentAfterPost |
| scraptt/spiders/meta.py:71-85 | Each sub-class appends itself to the page's list in place, then resets `parent_nodes` to `None`. | A class page reached with a list, holding `/cls/12` and `/cls/34`: the second request's list is `[B]` alone, without the page's ancestry. | Every sub-class request carries the page's path extended by its own entry. | medium; not executed | MetaSpider.SecondSiblingLosesAncestry | MetaSpider.SecondSiblingKeepsAncestry |
| scraptt/spiders/ptt_article.py:84 | The item is built with `_ArticleItem(article=con)`, but `_ArticleItem` declares no `article` field. | Any post page: the item constructor raises `KeyError`, after the file has been written. | The page goes into the declared `html_content` field. | high; not executed | ArticleSpider.AsWrittenItemRaises | ArticleSpider.IntendedItemHoldsBody |
