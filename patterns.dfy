/**
 * The regular expressions of the crawler, each written out as a matcher at a
 * position, and Python's `re.findall` / `re.search` / `re.sub` (leftmost,
 * non-overlapping scanning) over them.
 *
 * Every pattern here consists of digit groups `\d{m,n}` separated by a
 * non-digit literal, or of a literal prefix followed by `.*`. For such a
 * pattern the backtracking matcher has at most one way to match at a given
 * position: a digit group followed by a non-digit literal must take the
 * longest digit run it may (a shorter one leaves a digit where the literal
 * must be, see `GreedyGroupIsForced`), and a trailing digit group or `.*` is
 * greedy. So each matcher below is a function of the position.
 */
module Patterns {
  import opened Wrappers
  import opened Text

  datatype Pattern =
    | IpAddress    // \d{,3}\.\d{,3}\.\d{,3}\.\d{,3}
    | CommentTime  // \d{1,2}/\d{1,2}\s\d{1,2}:\d{1,2}
    | Quote        // ※ 引述.*|\n: .*
    | Signature    // ※ 發信站.*|※ 文章網址.*|※ 編輯.*
    | Timestamp    // \d{10}
    | ClassId      // \d{1,10}

  /** A match: its start index and its length. */
  datatype Span = Span(start: nat, len: nat)

  const QuoteMarker := "※ 引述"
  const ReplyPrefix := "\n: "
  const SiteMarker := "※ 發信站"
  const UrlMarker := "※ 文章網址"
  const EditMarker := "※ 編輯"

  /** Number of consecutive digits at `i`, at most `max` (a greedy `\d{,max}`). */
  function DigitRun(s: string, i: nat, max: nat): (n: nat)
    requires i <= |s|
    ensures n <= max && i + n <= |s|
    ensures forall k :: i <= k < i + n ==> IsDigit(s[k])
    ensures n < max && i + n < |s| ==> !IsDigit(s[i + n])
    decreases max
  {
    if max == 0 || i == |s| || !IsDigit(s[i]) then 0 else 1 + DigitRun(s, i + 1, max - 1)
  }

  /** `\d{min,max}` followed by one character of `sep` (no digit in `sep`):
      the index just after the separator, if the group and separator match. */
  function GroupThen(s: string, i: nat, min: nat, max: nat, sep: set<char>): (e: Option<nat>)
    requires i <= |s|
    ensures e.Some? ==> i < e.value <= |s| && s[e.value - 1] in sep
  {
    var n := DigitRun(s, i, max);
    if min <= n && i + n < |s| && s[i + n] in sep then Some(i + n + 1) else None
  }

  /** The backtracking matcher has no other choice for a digit group that is
      followed by a non-digit literal: any digit count `m` that lets the
      literal match is the greedy one. */
  lemma GreedyGroupIsForced(s: string, i: nat, max: nat, m: nat, sep: set<char>)
    requires i + m < |s| && m <= max
    requires forall k :: i <= k < i + m ==> IsDigit(s[k])
    requires s[i + m] in sep && forall c :: c in sep ==> !IsDigit(c)
    ensures m == DigitRun(s, i, max)
  {
  }

  /** Number of characters before the next `\n` (what `.*` consumes). */
  function RestOfLine(s: string, i: nat): (n: nat)
    requires i <= |s|
    ensures i + n <= |s|
    ensures forall k :: i <= k < i + n ==> s[k] != '\n'
    ensures i + n < |s| ==> s[i + n] == '\n'
    decreases |s| - i
  {
    if i == |s| || s[i] == '\n' then 0 else 1 + RestOfLine(s, i + 1)
  }

  /** A literal followed by `.*`, at position `i`. */
  function LineFrom(s: string, i: nat, lit: string): (r: Option<nat>)
    requires i <= |s|
    ensures r.Some? <==> OccursAt(s, lit, i)
    ensures r.Some? ==> r.value >= |lit| && i + r.value <= |s|
    ensures r.Some? ==> i + r.value == |s| || s[i + r.value] == '\n'
  {
    if OccursAt(s, lit, i) then Some(|lit| + RestOfLine(s, i + |lit|)) else None
  }

  /** `\d{,3}\.\d{,3}\.\d{,3}\.\d{,3}` at `i`. */
  function IpAt(s: string, i: nat): (r: Option<nat>)
    requires i <= |s|
    ensures r.Some? ==> 3 <= r.value && i + r.value <= |s|
  {
    var e1 := GroupThen(s, i, 0, 3, {'.'});
    if e1.None? then None else
    var e2 := GroupThen(s, e1.value, 0, 3, {'.'});
    if e2.None? then None else
    var e3 := GroupThen(s, e2.value, 0, 3, {'.'});
    if e3.None? then None else
    Some(e3.value + DigitRun(s, e3.value, 3) - i)
  }

  /** `\d{1,2}/\d{1,2}\s\d{1,2}:\d{1,2}` at `i`. */
  function CommentTimeAt(s: string, i: nat): (r: Option<nat>)
    requires i <= |s|
    ensures r.Some? ==> 7 <= r.value && i + r.value <= |s|
  {
    var e1 := GroupThen(s, i, 1, 2, {'/'});
    if e1.None? then None else
    var e2 := GroupThen(s, e1.value, 1, 2, PySpace);
    if e2.None? then None else
    var e3 := GroupThen(s, e2.value, 1, 2, {':'});
    if e3.None? then None else
    var n := DigitRun(s, e3.value, 2);
    if n == 0 then None else Some(e3.value + n - i)
  }

  /** `※ 引述.*|\n: .*` at `i`. */
  function QuoteAt(s: string, i: nat): (r: Option<nat>)
    requires i <= |s|
    ensures r.Some? <==> OccursAt(s, QuoteMarker, i) || OccursAt(s, ReplyPrefix, i)
    ensures r.Some? ==> 3 <= r.value && i + r.value <= |s| && s[i + 1] != '\n'
  {
    var q := LineFrom(s, i, QuoteMarker);
    if q.Some? then q else LineFrom(s, i, ReplyPrefix)
  }

  /** `※ 發信站.*|※ 文章網址.*|※ 編輯.*` at `i`. */
  function SignatureAt(s: string, i: nat): (r: Option<nat>)
    requires i <= |s|
    ensures r.Some? <==>
              OccursAt(s, SiteMarker, i) || OccursAt(s, UrlMarker, i) || OccursAt(s, EditMarker, i)
    ensures r.Some? ==> 4 <= r.value && i + r.value <= |s| && s[i] == '※'
    ensures r.Some? ==> i + r.value == |s| || s[i + r.value] == '\n'
  {
    var a := LineFrom(s, i, SiteMarker);
    if a.Some? then a else
    var b := LineFrom(s, i, UrlMarker);
    if b.Some? then b else LineFrom(s, i, EditMarker)
  }

  /** Length of the match of `p` that starts at index `i`, if any. Every
      pattern here matches at least one character. */
  function MatchAt(p: Pattern, s: string, i: nat): (r: Option<nat>)
    requires i <= |s|
    ensures r.Some? ==> 0 < r.value && i + r.value <= |s|
  {
    match p
    case IpAddress => IpAt(s, i)
    case CommentTime => CommentTimeAt(s, i)
    case Quote => QuoteAt(s, i)
    case Signature => SignatureAt(s, i)
    case Timestamp => if DigitRun(s, i, 10) == 10 then Some(10) else None
    case ClassId =>
      var n := DigitRun(s, i, 10);
      if n == 0 then None else Some(n)
  }

  /** A matcher: the length of the match at a position, if any. */
  type Matcher = (string, nat) -> Option<nat>

  /** The compiled form of a pattern. */
  function Regex(p: Pattern): Matcher {
    (s: string, i: nat) => if i <= |s| then MatchAt(p, s, i) else None
  }

  /** A non-empty match of `m` at `i` that lies inside `s`. */
  function Hit(m: Matcher, s: string, i: nat): (r: Option<nat>)
    ensures r.Some? ==> 0 < r.value && i + r.value <= |s|
  {
    var r := m(s, i);
    if r.Some? && 0 < r.value && i + r.value <= |s| then r else None
  }

  lemma HitRegex(p: Pattern, s: string, i: nat)
    requires i <= |s|
    ensures Hit(Regex(p), s, i) == MatchAt(p, s, i)
  {
  }

  predicate InBounds(s: string, sp: Span) {
    sp.start + sp.len <= |s|
  }

  /** The text of a match. */
  function Matched(s: string, sp: Span): string
    requires InBounds(s, sp)
  {
    s[sp.start..sp.start + sp.len]
  }

  /** `re.findall(m, s[i:])`, as spans: matches are taken from the left and
      the scan resumes where a match ends. The result lists real matches in
      increasing, non-overlapping order. */
  function FindAll(m: Matcher, s: string, i: nat): (r: seq<Span>)
    requires i <= |s|
    ensures forall k :: 0 <= k < |r| ==>
              i <= r[k].start && InBounds(s, r[k]) && Hit(m, s, r[k].start) == Some(r[k].len)
    ensures forall k :: 0 <= k < |r| - 1 ==> r[k].start + r[k].len <= r[k + 1].start
    decreases |s| - i
  {
    if i == |s| then []
    else
      var h := Hit(m, s, i);
      if h.None? then FindAll(m, s, i + 1)
      else
        var rest := FindAll(m, s, i + h.value);
        assert forall k :: 0 <= k < |rest| ==> i + h.value <= rest[k].start;
        [Span(i, h.value)] + rest
  }

  /** `findall` comes back empty exactly when the pattern matches nowhere
      from `i` on. */
  lemma {:induction false} FindAllEmpty(m: Matcher, s: string, i: nat)
    requires i <= |s|
    ensures FindAll(m, s, i) == [] <==> forall j: nat :: i <= j <= |s| ==> Hit(m, s, j).None?
    decreases |s| - i
  {
    if i < |s| && Hit(m, s, i).None? {
      FindAllEmpty(m, s, i + 1);
    }
  }

  /** Nothing matches between `i` and the first match `findall` reports. */
  lemma {:induction false} FindAllFirst(m: Matcher, s: string, i: nat)
    requires i <= |s|
    ensures FindAll(m, s, i) != [] ==>
              forall j: nat :: i <= j < FindAll(m, s, i)[0].start ==> Hit(m, s, j).None?
    decreases |s| - i
  {
    if i < |s| && Hit(m, s, i).None? {
      FindAllFirst(m, s, i + 1);
    }
  }

  /** A text that one match covers from start to end is its only match. */
  lemma WholeTextMatch(m: Matcher, s: string)
    requires |s| > 0 && Hit(m, s, 0) == Some(|s|)
    ensures FindAll(m, s, 0) == [Span(0, |s|)]
  {
    assert FindAll(m, s, 0) == [Span(0, |s|)] + FindAll(m, s, |s|);
  }

  /** The matched strings, as `re.findall` returns them. */
  function FindAllText(m: Matcher, s: string): (r: seq<string>)
    ensures |r| == |FindAll(m, s, 0)|
    ensures forall k :: 0 <= k < |r| ==>
              InBounds(s, FindAll(m, s, 0)[k]) && r[k] == Matched(s, FindAll(m, s, 0)[k])
    ensures forall k :: 0 <= k < |r| ==> |r[k]| > 0
  {
    var spans := FindAll(m, s, 0);
    seq(|spans|, k requires 0 <= k < |spans| => Matched(s, spans[k]))
  }

  /** `re.search(m, s)`: the leftmost match. */
  function Search(m: Matcher, s: string): (r: Option<Span>)
    ensures r.None? <==> forall j: nat :: j <= |s| ==> Hit(m, s, j).None?
    ensures r.Some? ==> InBounds(s, r.value) && Hit(m, s, r.value.start) == Some(r.value.len)
    ensures r.Some? ==> forall j: nat :: j < r.value.start ==> Hit(m, s, j).None?
  {
    var all := FindAll(m, s, 0);
    FindAllEmpty(m, s, 0);
    FindAllFirst(m, s, 0);
    if all == [] then None else Some(all[0])
  }

  /** With the first match at `i`, `search` reports it. */
  lemma SearchFindsFirst(m: Matcher, s: string, i: nat)
    requires i <= |s| && Hit(m, s, i).Some?
    requires forall j: nat :: j < i ==> Hit(m, s, j).None?
    ensures Search(m, s) == Some(Span(i, Hit(m, s, i).value))
  {
    FindAllSkips(m, s, 0, i);
  }

  /** `findall` skips positions where nothing matches. */
  lemma {:induction false} FindAllSkips(m: Matcher, s: string, j: nat, i: nat)
    requires j <= i <= |s|
    requires forall k: nat :: j <= k < i ==> Hit(m, s, k).None?
    ensures FindAll(m, s, j) == FindAll(m, s, i)
    decreases i - j
  {
    if j < i {
      FindAllSkips(m, s, j + 1, i);
    }
  }

  /** `re.sub(m, '', s[i:])`: every match found by the left-to-right scan is
      deleted. */
  function Sub(m: Matcher, s: string, i: nat): string
    requires i <= |s|
    decreases |s| - i
  {
    if i == |s| then ""
    else
      var h := Hit(m, s, i);
      if h.Some? then Sub(m, s, i + h.value) else [s[i]] + Sub(m, s, i + 1)
  }

  /** Deleting nothing: with no match from `i` on, `sub` returns the rest
      of the text unchanged. */
  lemma {:induction false} SubNoHit(m: Matcher, s: string, i: nat)
    requires i <= |s|
    requires forall j: nat :: i <= j <= |s| ==> Hit(m, s, j).None?
    ensures Sub(m, s, i) == s[i..]
    decreases |s| - i
  {
    if i < |s| {
      SubNoHit(m, s, i + 1);
      assert s[i..] == [s[i]] + s[i + 1..];
    }
  }

  /** Every match of `m` in `s` runs to the end of its line: it does not
      start at a line break, and what follows it is a line break or the end
      of the text (the shape of a `literal.*` pattern). */
  predicate LineMatcher(m: Matcher, s: string) {
    forall j: nat :: j < |s| && Hit(m, s, j).Some? ==>
      s[j] != '\n' && (j + Hit(m, s, j).value == |s| || s[j + Hit(m, s, j).value] == '\n')
  }

  /** After a deletion by a line matcher the output resumes at a line break. */
  lemma SubAfterMatch(m: Matcher, s: string, i: nat)
    requires i < |s| && LineMatcher(m, s) && Hit(m, s, i).Some?
    ensures Sub(m, s, i) == [] || Sub(m, s, i)[0] == '\n'
  {
    var e := i + Hit(m, s, i).value;
    if e < |s| {
      assert s[e] == '\n';
      assert Hit(m, s, e).None?;
    }
  }

  /** Up to its first line break, the output of a line matcher's `sub` is a
      copy of the input: deletions only ever end right before a line break. */
  lemma {:induction false} SubLinePrefix(m: Matcher, s: string, i: nat, k: nat)
    requires i <= |s| && LineMatcher(m, s)
    requires k <= |Sub(m, s, i)| && forall t :: 0 <= t < k ==> Sub(m, s, i)[t] != '\n'
    ensures i + k <= |s| && Sub(m, s, i)[..k] == s[i..i + k]
    decreases |s| - i
  {
    if k > 0 {
      if Hit(m, s, i).Some? {
        SubAfterMatch(m, s, i);
        assert false;
      } else {
        var r := Sub(m, s, i + 1);
        assert Sub(m, s, i) == [s[i]] + r;
        forall t | 0 <= t < k - 1 ensures r[t] != '\n' {
          assert r[t] == Sub(m, s, i)[t + 1];
        }
        SubLinePrefix(m, s, i + 1, k - 1);
        assert Sub(m, s, i)[..k] == [s[i]] + r[..k - 1];
        assert s[i..i + k] == [s[i]] + s[i + 1..i + k];
      }
    }
  }

  /** A copy of `lit` at the head of the output, where nothing was deleted,
      was a copy of `lit` in the input. */
  lemma KeptPrefix(m: Matcher, s: string, i: nat, lit: string)
    requires i < |s| && LineMatcher(m, s) && Hit(m, s, i).None?
    requires 0 < |lit| && '\n' !in lit
    requires OccursAt([s[i]] + Sub(m, s, i + 1), lit, 0)
    ensures OccursAt(s, lit, i)
  {
    var r := Sub(m, s, i + 1);
    HeadOccurrence(s[i], r, lit);
    SubLinePrefix(m, s, i + 1, |lit| - 1);
    ConsOccurrence(s, i, lit, r);
  }

  /** `lit` at the head of `[c] + r`: `c` is its first character and the
      rest of it heads `r`. */
  lemma HeadOccurrence(c: char, r: string, lit: string)
    requires 0 < |lit| && '\n' !in lit && OccursAt([c] + r, lit, 0)
    ensures c == lit[0] && |lit| - 1 <= |r| && r[..|lit| - 1] == lit[1..]
    ensures forall t :: 0 <= t < |lit| - 1 ==> r[t] != '\n'
  {
    var u := [c] + r;
    assert u[..|lit|] == lit;
    assert u[..|lit|][0] == c;
    forall t | 0 <= t < |lit| - 1 ensures r[t] == lit[t + 1] {
      assert u[t + 1] == r[t];
      assert u[..|lit|][t + 1] == lit[t + 1];
    }
    assert r[..|lit| - 1] == lit[1..];
  }

  /** `s[i]` followed by a copy of the rest of `lit` is a copy of `lit`. */
  lemma ConsOccurrence(s: string, i: nat, lit: string, r: string)
    requires 0 < |lit| && i < |s| && s[i] == lit[0]
    requires |lit| - 1 <= |r| && r[..|lit| - 1] == lit[1..]
    requires i + 1 + (|lit| - 1) <= |s| && r[..|lit| - 1] == s[i + 1..i + 1 + (|lit| - 1)]
    ensures OccursAt(s, lit, i)
  {
    assert s[i..i + |lit|] == [s[i]] + s[i + 1..i + |lit|];
  }

  /** If `m` matches wherever `lit` occurs and is a line matcher, and `lit`
      holds no line break, then `sub` leaves no copy of `lit` behind. */
  lemma {:induction false} NoLiteralLeft(m: Matcher, s: string, i: nat, lit: string)
    requires i <= |s| && LineMatcher(m, s) && 0 < |lit| && '\n' !in lit
    requires forall j: nat :: OccursAt(s, lit, j) ==> Hit(m, s, j).Some?
    ensures forall j: nat :: !OccursAt(Sub(m, s, i), lit, j)
    decreases |s| - i
  {
    if i < |s| {
      var h := Hit(m, s, i);
      if h.Some? {
        NoLiteralLeft(m, s, i + h.value, lit);
      } else {
        var r := Sub(m, s, i + 1);
        NoLiteralLeft(m, s, i + 1, lit);
        assert Sub(m, s, i) == [s[i]] + r;
        forall j: nat ensures !OccursAt([s[i]] + r, lit, j) {
          if j > 0 && j + |lit| <= 1 + |r| {
            assert ([s[i]] + r)[j..j + |lit|] == r[j - 1..j - 1 + |lit|];
            assert !OccursAt(r, lit, j - 1);
          } else if j == 0 && OccursAt([s[i]] + r, lit, 0) {
            KeptPrefix(m, s, i, lit);
            assert false;
          }
        }
      }
    }
  }
}
