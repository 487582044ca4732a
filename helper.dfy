/**
 * The offline word-count tool (`helper.py`): post text normalisation
 * (`mod_content`), the CJK first-character test, the quote split, the
 * per-page token tally of `_extract`, the per-year merge of `html_to_json`
 * and the per-year total of `sum_word_token_by_year`.
 *
 * HTML tag stripping and Jieba segmentation are foreign: they come in as the
 * function parameters `stripTags` and `seg`. Reading directories and files
 * and writing JSON are left to the caller: `html_to_json` receives the year
 * directories with their pages already read, and `sum_word_token_by_year`
 * the decoded JSON object.
 */
module Helper {
  import opened Wrappers
  import opened Text
  import opened Patterns
  import opened Sums

  /** The characters `mod_content` trims from both ends (`strip('\r\n-')`). */
  const EdgeChars: set<char> := {'\r', '\n', '-'}

  /** The characters trimmed from the quote-free body (`strip('\n ')`). */
  const BodyEdge: set<char> := {'\n', ' '}

  /** What `lstrip(' :')` removes from the front of a push text. */
  const PushLead: set<char> := {' ', ':'}

  // ---------------------------------------------------------------------
  // mod_content

  /** `mod_content`: strip the tags, delete each signature line from its
      marker to the end of the line, trim `\r`, `\n` and `-` off both ends. */
  function ModContent(html: string, stripTags: string -> string): string {
    Strip(Sub(Regex(Signature), stripTags(html), 0), EdgeChars)
  }

  /** The signature pattern matches wherever one of its markers occurs, and
      every match runs to the end of its line. */
  lemma SignatureIsLinePattern(s: string)
    ensures LineMatcher(Regex(Signature), s)
    ensures forall j: nat :: OccursAt(s, SiteMarker, j) ==> Hit(Regex(Signature), s, j).Some?
    ensures forall j: nat :: OccursAt(s, UrlMarker, j) ==> Hit(Regex(Signature), s, j).Some?
    ensures forall j: nat :: OccursAt(s, EditMarker, j) ==> Hit(Regex(Signature), s, j).Some?
  {
    forall j: nat | j <= |s| ensures Hit(Regex(Signature), s, j) == SignatureAt(s, j) {
      HitRegex(Signature, s, j);
    }
  }

  /** No signature marker survives `mod_content`, not even one that the
      deletions could have stitched together from pieces. */
  lemma ModContentDropsSignatures(html: string, stripTags: string -> string)
    ensures forall j: nat :: !OccursAt(ModContent(html, stripTags), SiteMarker, j)
    ensures forall j: nat :: !OccursAt(ModContent(html, stripTags), UrlMarker, j)
    ensures forall j: nat :: !OccursAt(ModContent(html, stripTags), EditMarker, j)
  {
    var t := stripTags(html);
    var m := Regex(Signature);
    SignatureIsLinePattern(t);
    NoLiteralLeft(m, t, 0, SiteMarker);
    NoLiteralLeft(m, t, 0, UrlMarker);
    NoLiteralLeft(m, t, 0, EditMarker);
    var u := Sub(m, t, 0);
    var r := Strip(u, EdgeChars);
    StripIsSlice(u, EdgeChars);
    var a, b :| 0 <= a <= b <= |u| && r == u[a..b] &&
              (forall k :: 0 <= k < a ==> u[k] in EdgeChars) &&
              (forall k :: b <= k < |u| ==> u[k] in EdgeChars);
    forall j: nat ensures !OccursAt(r, SiteMarker, j) {
      if OccursAt(r, SiteMarker, j) {
        OccursInSlice(u, a, b, SiteMarker, j);
        assert false;
      }
    }
    forall j: nat ensures !OccursAt(r, UrlMarker, j) {
      if OccursAt(r, UrlMarker, j) {
        OccursInSlice(u, a, b, UrlMarker, j);
        assert false;
      }
    }
    forall j: nat ensures !OccursAt(r, EditMarker, j) {
      if OccursAt(r, EditMarker, j) {
        OccursInSlice(u, a, b, EditMarker, j);
        assert false;
      }
    }
  }

  /** A text without any signature line is only trimmed. */
  lemma ModContentWithoutSignature(html: string, stripTags: string -> string)
    requires forall j: nat :: j <= |stripTags(html)| ==> SignatureAt(stripTags(html), j).None?
    ensures ModContent(html, stripTags) == Strip(stripTags(html), EdgeChars)
  {
    var t := stripTags(html);
    forall j: nat | j <= |t| ensures Hit(Regex(Signature), t, j).None? {
      HitRegex(Signature, t, j);
    }
    SubNoHit(Regex(Signature), t, 0);
    assert t[0..] == t;
  }

  // ---------------------------------------------------------------------
  // is_chinese_char

  /** `is_chinese_char`: the text starts with a character of the CJK
      Unified Ideographs block U+4E00..U+9FA5 (`re.match` of one class). */
  function IsChineseChar(s: string): (r: bool)
    ensures r ==> |s| > 0
  {
    |s| > 0 && '\U{4E00}' <= s[0] <= '\U{9FA5}'
  }

  /** Only the first character decides, whatever follows it. */
  lemma ChineseCharIsFirstChar(s: string, t: string)
    requires |s| > 0
    ensures IsChineseChar(s + t) <==> IsChineseChar([s[0]])
  {
    assert (s + t)[0] == s[0];
  }

  // ---------------------------------------------------------------------
  // The quote split

  /** The quote lines found by `re.findall('※ 引述.*|\n: .*', msg)`. */
  function QuoteMatches(s: string): (r: seq<string>)
    ensures forall k :: 0 <= k < |r| ==> |r[k]| > 0
  {
    FindAllText(Regex(Quote), s)
  }

  /** `for q in qs: msg = msg.replace(q, '')`: each found string is deleted
      in turn, from the text the previous deletions left. */
  function RemoveEach(s: string, qs: seq<string>): string
    requires forall k :: 0 <= k < |qs| ==> |qs[k]| > 0
    decreases |qs|
  {
    if qs == [] then s else RemoveAll(RemoveEach(s, qs[..|qs| - 1]), qs[|qs| - 1])
  }

  /** `[i.strip('\n') for i in qs]`. */
  function StripEach(qs: seq<string>, cs: set<char>): (r: seq<string>)
    ensures |r| == |qs| && forall k :: 0 <= k < |qs| ==> r[k] == Strip(qs[k], cs)
  {
    seq(|qs|, k requires 0 <= k < |qs| => Strip(qs[k], cs))
  }

  /** Deleting strings never lengthens the text. */
  lemma {:induction false} RemoveEachShrinks(s: string, qs: seq<string>)
    requires forall k :: 0 <= k < |qs| ==> |qs[k]| > 0
    ensures |RemoveEach(s, qs)| <= |s|
    decreases |qs|
  {
    if qs != [] {
      RemoveEachShrinks(s, qs[..|qs| - 1]);
      RemoveAllNoLonger(RemoveEach(s, qs[..|qs| - 1]), qs[|qs| - 1]);
    }
  }

  /** Deleting a first string that occurs shortens the text by at least
      that string's length. */
  lemma {:induction false} RemoveEachFirstShrinks(s: string, qs: seq<string>, i: nat)
    requires forall k :: 0 <= k < |qs| ==> |qs[k]| > 0
    requires |qs| > 0 && OccursAt(s, qs[0], i)
    ensures |RemoveEach(s, qs)| <= |s| - |qs[0]|
    decreases |qs|
  {
    var init := qs[..|qs| - 1];
    var last := qs[|qs| - 1];
    assert RemoveEach(s, qs) == RemoveAll(RemoveEach(s, init), last);
    if |qs| == 1 {
      assert RemoveEach(s, init) == s;
      RemoveOccurringShrinks(s, qs[0], i);
    } else {
      assert forall k :: 0 <= k < |init| ==> init[k] == qs[k];
      RemoveEachFirstShrinks(s, init, i);
      RemoveAllNoLonger(RemoveEach(s, init), last);
    }
  }

  /** Every found quote line has a character other than `\n` (the space of
      `※ 引述` or the colon of `\n: `), so none strips to nothing. */
  lemma QuoteMatchesNotBlank(s: string)
    ensures forall k :: 0 <= k < |QuoteMatches(s)| ==> Strip(QuoteMatches(s)[k], {'\n'}) != ""
  {
    var qs := QuoteMatches(s);
    var spans := FindAll(Regex(Quote), s, 0);
    forall k | 0 <= k < |qs| ensures Strip(qs[k], {'\n'}) != "" {
      var sp := spans[k];
      HitRegex(Quote, s, sp.start);
      assert qs[k][1] == s[sp.start + 1];
      StripKeeps(qs[k], {'\n'}, 1);
    }
  }

  /** The quote split of `_extract` (and of the crawler's `parse_post`):
      every found quote line is deleted from the content, the rest is
      trimmed of `\n` and space; the quote lines, each trimmed of `\n`, are
      joined with `\n`. */
  method SplitQuote(content: string) returns (body: string, quote: string)
    ensures body == Strip(RemoveEach(content, QuoteMatches(content)), BodyEdge)
    ensures quote == Join("\n", StripEach(QuoteMatches(content), {'\n'}))
  {
    var qs := QuoteMatches(content);
    var msg := content;
    var i := 0;
    while i < |qs|
      invariant 0 <= i <= |qs|
      invariant msg == RemoveEach(content, qs[..i])
    {
      assert qs[..i + 1][..i] == qs[..i];
      msg := RemoveAll(msg, qs[i]);
      i := i + 1;
    }
    assert qs[..|qs|] == qs;
    body := Strip(msg, BodyEdge);
    quote := Join("\n", StripEach(qs, {'\n'}));
  }

  /** The joined quote is empty exactly when no quote line was found, so
      `if qs:` records a quote iff the content quotes something. */
  lemma QuoteEmptyIffNoMatch(content: string)
    ensures Join("\n", StripEach(QuoteMatches(content), {'\n'})) == "" <==> QuoteMatches(content) == []
  {
    var parts := StripEach(QuoteMatches(content), {'\n'});
    if parts != [] {
      QuoteMatchesNotBlank(content);
      JoinStartsWithFirst("\n", parts);
    }
  }

  /** With a quote found, the body is strictly shorter than the content. */
  lemma QuoteSplitShrinks(content: string)
    requires QuoteMatches(content) != []
    ensures |RemoveEach(content, QuoteMatches(content))| < |content|
  {
    var qs := QuoteMatches(content);
    var sp := FindAll(Regex(Quote), content, 0)[0];
    assert OccursAt(content, qs[0], sp.start);
    RemoveEachFirstShrinks(content, qs, sp.start);
  }

  // ---------------------------------------------------------------------
  // _extract: the token tally of one page

  /** A segmented token: the word and its part-of-speech tag. */
  datatype Token = Token(word: string, pos: string)

  /** `d[word][pos]`: the nested counter. */
  type Counts = map<string, map<string, nat>>

  /** Jieba's `seg(text, pos=True)`; `None` when it raises. */
  type Segmenter = string -> Option<seq<Token>>

  /** What `_extract` reads from a page: the `#main-content` HTML with the
      meta lines and pushes removed (`None` when the page has none, which
      makes `strip_tags` raise) and the text of each `.push-content`. */
  datatype Page = Page(main: Option<string>, pushes: seq<string>)

  /** The counter entry, 0 when absent (the `defaultdict` default). */
  function Lookup(d: Counts, w: string, p: string): nat {
    if w in d && p in d[w] then d[w][p] else 0
  }

  /** The shape `defaultdict` increments leave: every word is CJK, every
      word has a tag, every count is positive. */
  predicate WellFormed(d: Counts) {
    forall w :: w in d ==>
      IsChineseChar(w) && d[w] != map[] && (forall p :: p in d[w] ==> d[w][p] > 0)
  }

  /** `if is_chinese_char(word): d[word][pos] += 1`. */
  function Tick(d: Counts, t: Token): Counts {
    if IsChineseChar(t.word) then
      d[t.word := (if t.word in d then d[t.word] else map[])[t.pos := Lookup(d, t.word, t.pos) + 1]]
    else d
  }

  /** The counter after ticking every token in order. */
  function TickAll(d: Counts, ts: seq<Token>): Counts
    decreases |ts|
  {
    if ts == [] then d else Tick(TickAll(d, ts[..|ts| - 1]), ts[|ts| - 1])
  }

  /** How many tokens are `(w, p)` with a CJK first character. */
  function CountOf(ts: seq<Token>, w: string, p: string): nat
    decreases |ts|
  {
    if ts == [] then 0
    else CountOf(ts[..|ts| - 1], w, p) +
         (if ts[|ts| - 1] == Token(w, p) && IsChineseChar(w) then 1 else 0)
  }

  /** Ticking adds each word/tag pair's CJK token count to its entry and
      keeps the counter well formed. */
  lemma {:induction false} TickAllCount(d: Counts, ts: seq<Token>)
    requires WellFormed(d)
    ensures WellFormed(TickAll(d, ts))
    ensures forall w, p :: Lookup(TickAll(d, ts), w, p) == Lookup(d, w, p) + CountOf(ts, w, p)
    decreases |ts|
  {
    if ts != [] {
      TickAllCount(d, ts[..|ts| - 1]);
      TickCount(TickAll(d, ts[..|ts| - 1]), ts[|ts| - 1]);
    }
  }

  /** One tick adds one to its own entry only. */
  lemma TickCount(d: Counts, t: Token)
    requires WellFormed(d)
    ensures WellFormed(Tick(d, t))
    ensures forall w, p :: Lookup(Tick(d, t), w, p) ==
                           Lookup(d, w, p) + (if t == Token(w, p) && IsChineseChar(w) then 1 else 0)
  {
    if IsChineseChar(t.word) {
      var tags := if t.word in d then d[t.word] else map[];
      var e := d[t.word := tags[t.pos := Lookup(d, t.word, t.pos) + 1]];
      assert Tick(d, t) == e;
      assert t.pos in e[t.word];
    }
  }

  /** Ticking two token lists in a row is ticking their concatenation. */
  lemma {:induction false} TickAllAppend(d: Counts, a: seq<Token>, b: seq<Token>)
    ensures TickAll(TickAll(d, a), b) == TickAll(d, a + b)
    decreases |b|
  {
    if b == [] {
      assert a + b == a;
    } else {
      assert (a + b)[..|a + b| - 1] == a + b[..|b| - 1];
      TickAllAppend(d, a, b[..|b| - 1]);
    }
  }

  /** `for word, pos in s: ...`: the tally loop over one segmentation. */
  method CountTokens(d0: Counts, ts: seq<Token>) returns (d: Counts)
    ensures d == TickAll(d0, ts)
  {
    d := d0;
    var i := 0;
    while i < |ts|
      invariant 0 <= i <= |ts|
      invariant d == TickAll(d0, ts[..i])
    {
      assert ts[..i + 1][..i] == ts[..i];
      var t := ts[i];
      if IsChineseChar(t.word) {
        var tags := if t.word in d then d[t.word] else map[];
        var n := if t.pos in tags then tags[t.pos] else 0;
        d := d[t.word := tags[t.pos := n + 1]];
      }
      i := i + 1;
    }
    assert ts[..|ts|] == ts;
  }

  /** The tokens of one segmentation; a `seg` that raises gives none. */
  function Segmented(seg: Segmenter, text: string): seq<Token> {
    var r := seg(text);
    if r.Some? then r.value else []
  }

  /** The tokens of one push: its text after `lstrip(' :')`, unless that
      text is blank. */
  function PushTokens(seg: Segmenter, push: string): seq<Token> {
    var comment := LStrip(push, PushLead);
    if Strip(comment, PySpace) == "" then [] else Segmented(seg, comment)
  }

  /** The tokens of the pushes, in page order. */
  function PushesTokens(seg: Segmenter, pushes: seq<string>): seq<Token>
    decreases |pushes|
  {
    if pushes == [] then []
    else PushesTokens(seg, pushes[..|pushes| - 1]) + PushTokens(seg, pushes[|pushes| - 1])
  }

  /** Every token `_extract` tallies: the body's, then the pushes'. */
  function PageTokens(page: Page, stripTags: string -> string, seg: Segmenter): seq<Token>
    requires page.main.Some?
  {
    var content := ModContent(page.main.value, stripTags);
    var body := Strip(RemoveEach(content, QuoteMatches(content)), BodyEdge);
    Segmented(seg, body) + PushesTokens(seg, page.pushes)
  }

  /** What `_extract` returns, or `None` when it raises. */
  function ExtractResult(page: Page, stripTags: string -> string, seg: Segmenter): Option<Counts> {
    if page.main.None? then None else Some(TickAll(map[], PageTokens(page, stripTags, seg)))
  }

  /** `_extract`: tally the body, then each non-blank push. */
  method Extract(page: Page, stripTags: string -> string, seg: Segmenter) returns (r: Option<Counts>)
    ensures r == ExtractResult(page, stripTags, seg)
  {
    if page.main.None? {
      return None;
    }
    var content := ModContent(page.main.value, stripTags);
    var body, _ := SplitQuote(content);
    var d: Counts := map[];
    var s := seg(body);
    if s.Some? {
      d := CountTokens(d, s.value);
    }
    d := CountPushes(d, seg, page.pushes);
    TickAllAppend(map[], Segmented(seg, body), PushesTokens(seg, page.pushes));
    r := Some(d);
  }

  /** The push loop of `_extract`. */
  method CountPushes(d0: Counts, seg: Segmenter, pushes: seq<string>) returns (d: Counts)
    ensures d == TickAll(d0, PushesTokens(seg, pushes))
  {
    d := d0;
    var i := 0;
    while i < |pushes|
      invariant 0 <= i <= |pushes|
      invariant d == TickAll(d0, PushesTokens(seg, pushes[..i]))
    {
      assert pushes[..i + 1][..i] == pushes[..i];
      var comment := LStrip(pushes[i], PushLead);
      if Strip(comment, PySpace) != "" {
        var t := seg(comment);
        if t.Some? {
          d := CountTokens(d, t.value);
        }
      }
      TickAllAppend(d0, PushesTokens(seg, pushes[..i]), PushTokens(seg, pushes[i]));
      i := i + 1;
    }
    assert pushes[..|pushes|] == pushes;
  }

  /** Each entry of a page's tally is the number of CJK tokens with that
      word and tag, over the body and the non-blank pushes; words that are
      not CJK never get an entry. */
  lemma ExtractCounts(page: Page, stripTags: string -> string, seg: Segmenter)
    requires page.main.Some?
    ensures WellFormed(ExtractResult(page, stripTags, seg).value)
    ensures forall w, p :: Lookup(ExtractResult(page, stripTags, seg).value, w, p) ==
                           CountOf(PageTokens(page, stripTags, seg), w, p)
  {
    var ts := PageTokens(page, stripTags, seg);
    assert ExtractResult(page, stripTags, seg) == Some(TickAll(map[], ts));
    assert WellFormed(map[]);
    TickAllCount(map[], ts);
  }

  /** A blank push (after `lstrip(' :')`) adds no token. */
  lemma BlankPushAddsNothing(seg: Segmenter, pushes: seq<string>, push: string)
    requires Strip(LStrip(push, PushLead), PySpace) == ""
    ensures PushesTokens(seg, pushes + [push]) == PushesTokens(seg, pushes)
  {
    assert (pushes + [push])[..|pushes|] == pushes;
  }

  // ---------------------------------------------------------------------
  // html_to_json: the per-year merge

  /** A year directory `{data_dir}/{board}/{year}` and the pages of its
      files, in the order `glob` lists them. */
  datatype YearDir = YearDir(path: string, files: seq<Page>)

  /** `d[year][word][pos]`. */
  type YearCounts = map<string, Counts>

  /** `board_year.split('/')[-1]`. */
  function YearOf(path: string): string {
    var parts := Split(path, '/');
    parts[|parts| - 1]
  }

  /** The entry, 0 when absent. */
  function Lookup3(d: YearCounts, y: string, w: string, p: string): nat {
    if y in d then Lookup(d[y], w, p) else 0
  }

  /** Every year holds a well-formed, non-empty tally. */
  predicate WellFormedYears(d: YearCounts) {
    forall y :: y in d ==> d[y] != map[] && WellFormed(d[y])
  }

  /** `d[year][word][pos] += freq`. */
  function AddEntry(d: YearCounts, y: string, w: string, p: string, freq: nat): YearCounts {
    var yc: Counts := if y in d then d[y] else map[];
    var wc: map<string, nat> := if w in yc then yc[w] else map[];
    d[y := yc[w := wc[p := Lookup3(d, y, w, p) + freq]]]
  }

  /** Adding a positive count for a CJK word changes that one entry, by
      `freq`, and keeps the tally well formed. */
  lemma AddEntryMeans(d: YearCounts, y: string, w: string, p: string, freq: nat)
    requires WellFormedYears(d) && IsChineseChar(w) && freq > 0
    ensures WellFormedYears(AddEntry(d, y, w, p, freq))
    ensures forall y', w', p' :: Lookup3(AddEntry(d, y, w, p, freq), y', w', p') ==
              Lookup3(d, y', w', p') + (if y' == y && w' == w && p' == p then freq else 0)
  {
    AddEntryWellFormed(d, y, w, p, freq);
    AddEntryLookup(d, y, w, p, freq);
  }

  lemma AddEntryWellFormed(d: YearCounts, y: string, w: string, p: string, freq: nat)
    requires WellFormedYears(d) && IsChineseChar(w) && freq > 0
    ensures WellFormedYears(AddEntry(d, y, w, p, freq))
  {
    var r := AddEntry(d, y, w, p, freq);
    assert p in r[y][w];
    forall y' | y' in r ensures r[y'] != map[] && WellFormed(r[y']) {
      if y' != y {
        assert r[y'] == d[y'];
      }
    }
  }

  lemma AddEntryLookup(d: YearCounts, y: string, w: string, p: string, freq: nat)
    ensures forall y', w', p' :: Lookup3(AddEntry(d, y, w, p, freq), y', w', p') ==
              Lookup3(d, y', w', p') + (if y' == y && w' == w && p' == p then freq else 0)
  {
    var r := AddEntry(d, y, w, p, freq);
    forall y', w', p' ensures Lookup3(r, y', w', p') ==
                              Lookup3(d, y', w', p') + (if y' == y && w' == w && p' == p then freq else 0) {
      if y' != y {
        assert Lookup3(r, y', w', p') == Lookup3(d, y', w', p');
      } else if w' != w {
        assert Lookup3(r, y', w', p') == Lookup3(d, y', w', p');
      }
    }
  }

  /** The loops over `w.items()` and `q.items()`: one file's tally is added
      into year `y`; no other year changes. */
  method MergeInto(d0: YearCounts, y: string, c: Counts) returns (d: YearCounts)
    requires WellFormedYears(d0) && WellFormed(c)
    ensures WellFormedYears(d)
    ensures forall y', w, p :: Lookup3(d, y', w, p) ==
              Lookup3(d0, y', w, p) + (if y' == y then Lookup(c, w, p) else 0)
  {
    d := d0;
    var words := c.Keys;
    assert forall w, p :: w !in words ==> Lookup(c, w, p) == 0;
    while words != {}
      invariant words <= c.Keys && WellFormedYears(d)
      invariant forall y', w, p :: Lookup3(d, y', w, p) ==
                  Lookup3(d0, y', w, p) + (if y' == y && w !in words then Lookup(c, w, p) else 0)
      decreases |words|
    {
      var w :| w in words;
      ghost var before := d;
      d := MergeWord(d, y, c, w);
      MergeWordStep(d0, before, d, y, c, words, w);
      words := words - {w};
    }
  }

  /** One pass of the outer loop keeps its invariant. */
  lemma MergeWordStep(d0: YearCounts, before: YearCounts, d: YearCounts, y: string, c: Counts,
                      words: set<string>, w: string)
    requires forall y', v, p :: Lookup3(before, y', v, p) ==
               Lookup3(d0, y', v, p) + (if y' == y && v !in words then Lookup(c, v, p) else 0)
    requires forall y', v, p :: Lookup3(d, y', v, p) ==
               Lookup3(before, y', v, p) + (if y' == y && v == w then Lookup(c, w, p) else 0)
    requires w in words
    ensures forall y', v, p :: Lookup3(d, y', v, p) ==
              Lookup3(d0, y', v, p) + (if y' == y && v !in words - {w} then Lookup(c, v, p) else 0)
  {
  }

  /** The inner loop, over the tags of one word `w`: its counts go into
      year `y`, and nothing else changes. */
  method MergeWord(d0: YearCounts, y: string, c: Counts, w: string) returns (d: YearCounts)
    requires WellFormedYears(d0) && WellFormed(c) && w in c
    ensures WellFormedYears(d)
    ensures forall y', v, p :: Lookup3(d, y', v, p) ==
              Lookup3(d0, y', v, p) + (if y' == y && v == w then Lookup(c, w, p) else 0)
  {
    d := d0;
    var tags := c[w];
    var rest := tags.Keys;
    assert forall p :: p !in rest ==> Lookup(c, w, p) == 0;
    while rest != {}
      invariant rest <= tags.Keys && WellFormedYears(d)
      invariant forall y', v, p :: Lookup3(d, y', v, p) ==
                  Lookup3(d0, y', v, p) + (if y' == y && v == w && p !in rest then Lookup(c, w, p) else 0)
      decreases |rest|
    {
      var p :| p in rest;
      AddEntryMeans(d, y, w, p, tags[p]);
      d := AddEntry(d, y, w, p, tags[p]);
      rest := rest - {p};
    }
  }

  /** One word/tag pair's count summed over the files that extract. */
  function FilesTotal(files: seq<Page>, stripTags: string -> string, seg: Segmenter,
                      w: string, p: string): nat
    decreases |files|
  {
    if files == [] then 0
    else
      var r := ExtractResult(files[|files| - 1], stripTags, seg);
      FilesTotal(files[..|files| - 1], stripTags, seg, w, p) + (if r.Some? then Lookup(r.value, w, p) else 0)
  }

  lemma FilesTotalStep(files: seq<Page>, j: nat, stripTags: string -> string, seg: Segmenter,
                       w: string, p: string)
    requires j < |files|
    ensures var r := ExtractResult(files[j], stripTags, seg);
      FilesTotal(files[..j + 1], stripTags, seg, w, p) ==
      FilesTotal(files[..j], stripTags, seg, w, p) + (if r.Some? then Lookup(r.value, w, p) else 0)
  {
    assert files[..j + 1][..j] == files[..j];
  }

  /** One word/tag pair's count summed over the directories of year `y`. */
  function YearTotal(dirs: seq<YearDir>, stripTags: string -> string, seg: Segmenter,
                     y: string, w: string, p: string): nat
    decreases |dirs|
  {
    if dirs == [] then 0
    else
      var last := dirs[|dirs| - 1];
      YearTotal(dirs[..|dirs| - 1], stripTags, seg, y, w, p) +
      (if YearOf(last.path) == y then FilesTotal(last.files, stripTags, seg, w, p) else 0)
  }

  /** `html_to_json`, without the file system: each year's aggregate entry
      is the sum of the per-file counts over that year's files; a file
      whose extraction raises is skipped. */
  method HtmlToJson(dirs: seq<YearDir>, stripTags: string -> string, seg: Segmenter)
      returns (d: YearCounts)
    ensures WellFormedYears(d)
    ensures forall y, w, p :: Lookup3(d, y, w, p) == YearTotal(dirs, stripTags, seg, y, w, p)
  {
    d := map[];
    var i := 0;
    while i < |dirs|
      invariant 0 <= i <= |dirs| && WellFormedYears(d)
      invariant forall y, w, p :: Lookup3(d, y, w, p) == YearTotal(dirs[..i], stripTags, seg, y, w, p)
    {
      assert dirs[..i + 1][..i] == dirs[..i];
      d := MergeFiles(d, YearOf(dirs[i].path), dirs[i].files, stripTags, seg);
      i := i + 1;
    }
    assert dirs[..|dirs|] == dirs;
  }

  /** The loop over the files of one year directory. */
  method MergeFiles(d0: YearCounts, year: string, files: seq<Page>, stripTags: string -> string,
                    seg: Segmenter) returns (d: YearCounts)
    requires WellFormedYears(d0)
    ensures WellFormedYears(d)
    ensures forall y, w, p :: Lookup3(d, y, w, p) ==
              Lookup3(d0, y, w, p) + (if year == y then FilesTotal(files, stripTags, seg, w, p) else 0)
  {
    d := d0;
    var j := 0;
    forall w, p ensures FilesTotal(files[..0], stripTags, seg, w, p) == 0 {
      assert files[..0] == [];
    }
    while j < |files|
      invariant 0 <= j <= |files| && WellFormedYears(d)
      invariant forall y, w, p :: Lookup3(d, y, w, p) ==
                  Lookup3(d0, y, w, p) + (if year == y then FilesTotal(files[..j], stripTags, seg, w, p) else 0)
    {
      ghost var before := d;
      var r := Extract(files[j], stripTags, seg);
      if r.Some? {
        ExtractCounts(files[j], stripTags, seg);
        d := MergeInto(d, year, r.value);
      }
      forall y, w, p ensures Lookup3(d, y, w, p) ==
                             Lookup3(d0, y, w, p) + (if year == y then FilesTotal(files[..j + 1], stripTags, seg, w, p) else 0) {
        FilesTotalStep(files, j, stripTags, seg, w, p);
        assert Lookup3(d, y, w, p) == Lookup3(before, y, w, p) + (if year == y && r.Some? then Lookup(r.value, w, p) else 0);
      }
      j := j + 1;
    }
    assert files[..|files|] == files;
  }

  // ---------------------------------------------------------------------
  // sum_word_token_by_year

  /** The decoded JSON file: year, word, tag, frequency. */
  type WordList = map<string, map<string, map<string, int>>>

  /** The values of `m` at the keys in `keys`. */
  function Restrict(m: map<string, int>, keys: set<string>): map<string, int> {
    map p | p in keys && p in m :: m[p]
  }

  /** Each word's total, for the words in `keys`. */
  ghost function WordSums(m: map<string, map<string, int>>, keys: set<string>): map<string, int> {
    map w | w in keys && w in m :: SumValues(m[w])
  }

  /** All frequencies of one year. */
  ghost function YearSum(m: map<string, map<string, int>>): int {
    SumValues(WordSums(m, m.Keys))
  }

  /** `sum_word_token_by_year`: the sum of every frequency under `year`, or
      0 when the year is absent (the `KeyError` branch). */
  method SumWordTokenByYear(wordlist: WordList, year: string) returns (total: int)
    ensures total == if year in wordlist then YearSum(wordlist[year]) else 0
  {
    if year !in wordlist {
      return 0;
    }
    var words := wordlist[year];
    total := 0;
    var rest := words.Keys;
    assert WordSums(words, rest) == WordSums(words, words.Keys);
    while rest != {}
      invariant rest <= words.Keys
      invariant total + SumValues(WordSums(words, rest)) == YearSum(words)
      decreases |rest|
    {
      var w :| w in rest;
      total := AddValues(total, words[w]);
      SumValuesRemove(WordSums(words, rest), w);
      assert WordSums(words, rest) - {w} == WordSums(words, rest - {w});
      rest := rest - {w};
    }
    assert WordSums(words, rest) == map[];
  }

  /** The inner loop: `sum_word_token += freq` for each tag of one word. */
  method AddValues(total0: int, tags: map<string, int>) returns (total: int)
    ensures total == total0 + SumValues(tags)
  {
    total := total0;
    var left := tags.Keys;
    assert Restrict(tags, left) == tags;
    while left != {}
      invariant left <= tags.Keys
      invariant total - total0 + SumValues(Restrict(tags, left)) == SumValues(tags)
      decreases |left|
    {
      var p :| p in left;
      SumValuesRemove(Restrict(tags, left), p);
      assert Restrict(tags, left) - {p} == Restrict(tags, left - {p});
      total := total + tags[p];
      left := left - {p};
    }
    assert Restrict(tags, left) == map[];
  }

  /** A year of non-negative frequencies sums to a non-negative total. */
  lemma YearSumNonNegative(m: map<string, map<string, int>>)
    requires forall w, p :: w in m && p in m[w] ==> m[w][p] >= 0
    ensures YearSum(m) >= 0
  {
    forall w | w in m ensures SumValues(m[w]) >= 0 {
      SumValuesNonNegative(m[w]);
    }
    SumValuesNonNegative(WordSums(m, m.Keys));
  }
}
