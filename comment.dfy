/**
 * The comment helpers: the tally of push marks (`comment_counter`) and the
 * split of a push's combined "ip date" text (`split_ip_and_publish_time`).
 */
module CommentParsers {
  import opened Wrappers
  import opened Text
  import opened Patterns
  import opened Items
  import opened Sums

  /** The exact count of each mark that occurs in `kinds`; marks that never
      occur have no entry. */
  function Tally(kinds: seq<string>): map<string, nat> {
    map t | t in multiset(kinds) :: multiset(kinds)[t]
  }

  /** Tallying one more mark bumps exactly that mark's entry. */
  lemma TallySnoc(kinds: seq<string>, t: string)
    ensures Tally(kinds + [t]) ==
            Tally(kinds)[t := (if t in Tally(kinds) then Tally(kinds)[t] else 0) + 1]
  {
    assert multiset(kinds + [t]) == multiset(kinds) + multiset{t};
  }

  /** The counts add up to the number of comments. */
  lemma {:induction false} TallySum(kinds: seq<string>)
    ensures SumValues(Tally(kinds)) == |kinds|
    decreases |kinds|
  {
    if kinds == [] {
      assert Tally(kinds) == map[];
    } else {
      var init, t := kinds[..|kinds| - 1], kinds[|kinds| - 1];
      assert kinds == init + [t];
      TallySum(init);
      TallySnoc(init, t);
      SumValuesUpdate(Tally(init), t, (if t in Tally(init) then Tally(init)[t] else 0) + 1);
    }
  }

  /** The tally only depends on the multiset of marks, not on their order. */
  lemma TallyOrderFree(a: seq<string>, b: seq<string>)
    requires multiset(a) == multiset(b)
    ensures Tally(a) == Tally(b)
  {
  }

  /** `comment_counter`: one pass over the comments, incrementing the
      counter entry of each comment's mark. */
  method CommentCounter(comments: seq<Comment>) returns (counter: map<string, nat>)
    ensures counter == Tally(Kinds(comments))
    ensures forall t :: t in counter <==> t in Kinds(comments)
    ensures SumValues(counter) == |comments|
  {
    var kinds := Kinds(comments);
    counter := map[];
    var i := 0;
    while i < |comments|
      invariant 0 <= i <= |comments|
      invariant counter == Tally(kinds[..i])
    {
      var t := comments[i].kind;
      assert kinds[..i + 1] == kinds[..i] + [t];
      TallySnoc(kinds[..i], t);
      counter := counter[t := (if t in counter then counter[t] else 0) + 1];
      i := i + 1;
    }
    assert kinds[..|comments|] == kinds;
    TallySum(kinds);
  }

  /** `split_ip_and_publish_time`: returns `(publish_time, ip)`; `ip` is the
      last non-overlapping IPv4-shaped match, deleted from the text, or
      `None` when the text has no such match. */
  function SplitIpAndPublishTime(s: string): (string, Option<string>) {
    var ips := FindAll(Regex(IpAddress), s, 0);
    if ips == [] then (s, None)
    else
      var ip := Matched(s, ips[|ips| - 1]);
      (RemoveAll(s, ip), Some(ip))
  }

  /** With no IPv4-shaped match anywhere, and only then, the text comes back
      unchanged with no ip. */
  lemma SplitWithoutIp(s: string)
    ensures SplitIpAndPublishTime(s).1.None? <==>
            forall j: nat :: j <= |s| ==> MatchAt(IpAddress, s, j).None?
    ensures SplitIpAndPublishTime(s).1.None? ==> SplitIpAndPublishTime(s).0 == s
  {
    FindAllEmpty(Regex(IpAddress), s, 0);
    forall j: nat | j <= |s| ensures Hit(Regex(IpAddress), s, j) == MatchAt(IpAddress, s, j) {
      HitRegex(IpAddress, s, j);
    }
  }

  /** With a match, `ip` is the last non-overlapping match, so it occurs in
      the text, and `publish_time` is the text with every occurrence of `ip`
      deleted (not trimmed), shorter by a positive multiple of `|ip|`. */
  lemma SplitWithIp(s: string)
    requires SplitIpAndPublishTime(s).1.Some?
    ensures var (publish, ip) := SplitIpAndPublishTime(s);
      var ips := FindAll(Regex(IpAddress), s, 0);
      && |ips| > 0 && ip.value == Matched(s, ips[|ips| - 1])
      && IsSubstring(ip.value, s)
      && publish == RemoveAll(s, ip.value)
      && RemovalCount(s, ip.value) >= 1
      && |publish| == |s| - RemovalCount(s, ip.value) * |ip.value|
  {
    LastMatchRemoved(Regex(IpAddress), s);
  }

  /** The last match of any matcher occurs in the text, so deleting it
      removes at least one copy. */
  lemma LastMatchRemoved(m: Matcher, s: string)
    requires FindAll(m, s, 0) != []
    ensures var ips := FindAll(m, s, 0);
      var ip := Matched(s, ips[|ips| - 1]);
      && IsSubstring(ip, s)
      && RemovalCount(s, ip) >= 1
      && |RemoveAll(s, ip)| == |s| - RemovalCount(s, ip) * |ip|
  {
    var ips := FindAll(m, s, 0);
    var last := ips[|ips| - 1];
    var ip := Matched(s, last);
    assert OccursAt(s, ip, last.start);
    RemoveOccurring(s, ip, last.start);
  }

  /** Digit groups may be empty: a bare `...` is taken for an ip. */
  lemma BareDotsAreAnIp()
    ensures SplitIpAndPublishTime("...") == ("", Some("..."))
  {
    var s := "...";
    BareDotsFound();
    assert Matched(s, Span(0, 3)) == s by { assert s[0..3] == s; }
    RemoveAllWhole(s);
  }

  lemma BareDotsFound()
    ensures FindAll(Regex(IpAddress), "...", 0) == [Span(0, 3)]
  {
    BareDotsMatch();
    HitRegex(IpAddress, "...", 0);
    WholeTextMatch(Regex(IpAddress), "...");
  }

  lemma RemoveAllWhole(p: string)
    requires |p| > 0
    ensures RemoveAll(p, p) == ""
  {
    assert p[..|p|] == p;
    assert p[|p|..] == "";
  }

  lemma BareDotsMatch()
    ensures MatchAt(IpAddress, "...", 0) == Some(3)
  {
    var s := "...";
    DotAfterNoDigits(s, 0);
    DotAfterNoDigits(s, 1);
    DotAfterNoDigits(s, 2);
    assert DigitRun(s, 3, 3) == 0;
  }

  /** A dot at `i` is an empty digit group followed by its separator. */
  lemma DotAfterNoDigits(s: string, i: nat)
    requires i < |s| && s[i] == '.'
    ensures GroupThen(s, i, 0, 3, {'.'}) == Some(i + 1)
  {
    assert DigitRun(s, i, 3) == 0;
  }

  /** The empty text gives `("", None)`: never a pair of two `None`s. */
  lemma EmptyTextHasNoIp()
    ensures SplitIpAndPublishTime("") == ("", None)
  {
    assert FindAll(Regex(IpAddress), "", 0) == [];
  }
}
