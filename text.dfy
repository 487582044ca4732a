/**
 * Python string primitives the crawler uses, written out over `seq<char>`:
 * prefix/suffix tests, `strip` with a character set, `split` on one
 * character, `split` on a multi-character separator, `replace(pat, '')`,
 * `join` and decimal formatting of integers.
 */
module Text {

  /** The characters Python's `str.isspace` accepts: what `strip()` with no
      argument removes and what the regex class `\s` matches. */
  const PySpace: set<char> := {
    '\t', '\n', '\U{0B}', '\U{0C}', '\r', '\U{1C}', '\U{1D}', '\U{1E}', '\U{1F}', ' ',
    '\U{85}', '\U{A0}', '\U{1680}', '\U{2000}', '\U{2001}', '\U{2002}', '\U{2003}',
    '\U{2004}', '\U{2005}', '\U{2006}', '\U{2007}', '\U{2008}', '\U{2009}', '\U{200A}',
    '\U{2028}', '\U{2029}', '\U{202F}', '\U{205F}', '\U{3000}'
  }

  /** ASCII decimal digit (the model's reading of `\d`). */
  predicate IsDigit(c: char) {
    '0' <= c <= '9'
  }

  predicate StartsWith(s: string, p: string) {
    |p| <= |s| && s[..|p|] == p
  }

  predicate EndsWith(s: string, p: string) {
    |p| <= |s| && s[|s| - |p|..] == p
  }

  /** `p` occurs in `s` starting at index `i`. */
  predicate OccursAt(s: string, p: string, i: nat) {
    i + |p| <= |s| && s[i..i + |p|] == p
  }

  ghost predicate IsSubstring(p: string, s: string) {
    exists i: nat :: OccursAt(s, p, i)
  }

  /** `s.lstrip(cs)`: drop leading characters that belong to `cs`. */
  function LStrip(s: string, cs: set<char>): (r: string)
    ensures |r| <= |s| && r == s[|s| - |r|..]
    ensures r == [] || r[0] !in cs
    ensures forall k :: 0 <= k < |s| - |r| ==> s[k] in cs
  {
    if |s| > 0 && s[0] in cs then LStrip(s[1..], cs) else s
  }

  /** `s.rstrip(cs)`: drop trailing characters that belong to `cs`. */
  function RStrip(s: string, cs: set<char>): (r: string)
    ensures |r| <= |s| && r == s[..|r|]
    ensures r == [] || r[|r| - 1] !in cs
    ensures forall k :: |r| <= k < |s| ==> s[k] in cs
  {
    if |s| > 0 && s[|s| - 1] in cs then RStrip(s[..|s| - 1], cs) else s
  }

  /** `s.strip(cs)`: neither end of the result is in `cs`, and what was
      removed from either end consisted of characters of `cs` only. */
  function Strip(s: string, cs: set<char>): (r: string)
    ensures r == [] || (r[0] !in cs && r[|r| - 1] !in cs)
  {
    RStrip(LStrip(s, cs), cs)
  }

  /** What `strip` keeps is a slice of `s`; what it drops from either end
      consists of characters of `cs` only. */
  lemma StripIsSlice(s: string, cs: set<char>)
    ensures exists i, j :: 0 <= i <= j <= |s| && Strip(s, cs) == s[i..j] &&
              (forall k :: 0 <= k < i ==> s[k] in cs) &&
              (forall k :: j <= k < |s| ==> s[k] in cs)
  {
    var l := LStrip(s, cs);
    var r := RStrip(l, cs);
    assert r == s[|s| - |l|..|s| - |l| + |r|];
  }

  /** An occurrence inside a slice is an occurrence in the whole text. */
  lemma OccursInSlice(s: string, a: nat, b: nat, p: string, j: nat)
    requires a <= b <= |s| && OccursAt(s[a..b], p, j)
    ensures OccursAt(s, p, a + j)
  {
    forall t | 0 <= t < |p| ensures s[a + j..a + j + |p|][t] == p[t] {
      assert s[a..b][j..j + |p|][t] == p[t];
    }
  }

  /** `strip` keeps any character outside the stripped set, so it cannot
      empty a text that holds one. */
  lemma StripKeeps(s: string, cs: set<char>, i: nat)
    requires i < |s| && s[i] !in cs
    ensures Strip(s, cs) != ""
  {
    var r := Strip(s, cs);
    StripIsSlice(s, cs);
    var a, b :| 0 <= a <= b <= |s| && r == s[a..b] &&
              (forall k :: 0 <= k < a ==> s[k] in cs) && (forall k :: b <= k < |s| ==> s[k] in cs);
    assert a <= i < b;
    assert r[i - a] == s[i];
  }

  /** The first part is a prefix of the joined text. */
  lemma {:induction false} JoinStartsWithFirst(sep: string, parts: seq<string>)
    requires |parts| > 0
    ensures StartsWith(Join(sep, parts), parts[0])
  {
    if |parts| > 1 {
      var rest := Join(sep, parts[1..]);
      assert Join(sep, parts) == parts[0] + (sep + rest);
      assert (parts[0] + (sep + rest))[..|parts[0]|] == parts[0];
    }
  }

  /** Index of the first `c` in `s`, or `|s|` when there is none. */
  function IndexOf(s: string, c: char): (i: nat)
    ensures i <= |s|
    ensures i < |s| ==> s[i] == c
    ensures forall k :: 0 <= k < i ==> s[k] != c
  {
    if |s| == 0 then 0 else if s[0] == c then 0 else 1 + IndexOf(s[1..], c)
  }

  /** `s.split(sep)` for a one-character separator: never empty, and the
      pieces joined with `sep` give `s` back. */
  function Split(s: string, sep: char): (r: seq<string>)
    ensures |r| > 0
    ensures forall k :: 0 <= k < |r| ==> sep !in r[k]
    ensures Join([sep], r) == s
    decreases |s|
  {
    var i := IndexOf(s, sep);
    if i == |s| then [s]
    else
      var rest := Split(s[i + 1..], sep);
      assert s == s[..i] + [sep] + s[i + 1..];
      [s[..i]] + rest
  }

  /** `sep.join(parts)`. */
  function Join(sep: string, parts: seq<string>): string {
    if |parts| == 0 then ""
    else if |parts| == 1 then parts[0]
    else parts[0] + sep + Join(sep, parts[1..])
  }

  /** Index of the first occurrence of `p` in `s` at or after `i`, or `|s|`. */
  function FindFrom(s: string, p: string, i: nat): (k: nat)
    requires i <= |s|
    ensures i <= k <= |s|
    ensures k < |s| ==> OccursAt(s, p, k)
    ensures forall j: nat :: i <= j < k ==> !OccursAt(s, p, j)
    decreases |s| - i
  {
    if i == |s| then |s|
    else if OccursAt(s, p, i) then i
    else FindFrom(s, p, i + 1)
  }

  /** `s.split(p)[0]` for a non-empty separator `p`: the text before the
      first occurrence of `p`, or all of `s`. */
  function BeforeFirst(s: string, p: string): (r: string)
    requires |p| > 0
    ensures StartsWith(s, r)
    ensures forall j: nat :: j < |r| ==> !OccursAt(s, p, j)
    ensures |r| < |s| ==> OccursAt(s, p, |r|)
  {
    s[..FindFrom(s, p, 0)]
  }

  /** `s.replace(p, '')` for a non-empty `p`: occurrences are found from the
      left and do not overlap. */
  function RemoveAll(s: string, p: string): string
    requires |p| > 0
    decreases |s|
  {
    if |s| < |p| then s
    else if s[..|p|] == p then RemoveAll(s[|p|..], p)
    else [s[0]] + RemoveAll(s[1..], p)
  }

  /** How many occurrences `RemoveAll(s, p)` deletes. */
  function RemovalCount(s: string, p: string): nat
    requires |p| > 0
    decreases |s|
  {
    if |s| < |p| then 0
    else if s[..|p|] == p then 1 + RemovalCount(s[|p|..], p)
    else RemovalCount(s[1..], p)
  }

  /** Removing `n` occurrences of `p` shortens `s` by exactly `n * |p|`. */
  lemma {:induction false} RemoveAllLength(s: string, p: string)
    requires |p| > 0
    ensures |RemoveAll(s, p)| == |s| - RemovalCount(s, p) * |p|
    decreases |s|
  {
    if |s| < |p| {
    } else if s[..|p|] == p {
      RemoveAllLength(s[|p|..], p);
      var c := RemovalCount(s[|p|..], p);
      assert RemovalCount(s, p) == 1 + c;
      assert |RemoveAll(s, p)| == |s| - |p| - c * |p|;
      assert (1 + c) * |p| == c * |p| + |p|;
    } else {
      RemoveAllLength(s[1..], p);
      assert RemovalCount(s, p) == RemovalCount(s[1..], p);
      assert |RemoveAll(s, p)| == 1 + |RemoveAll(s[1..], p)|;
    }
  }

  /** Removing copies of `p` never lengthens `s`. */
  lemma {:induction false} RemoveAllNoLonger(s: string, p: string)
    requires |p| > 0
    ensures |RemoveAll(s, p)| <= |s|
    decreases |s|
  {
    if |s| >= |p| {
      if s[..|p|] == p {
        RemoveAllNoLonger(s[|p|..], p);
      } else {
        RemoveAllNoLonger(s[1..], p);
      }
    }
  }

  /** Removing a `p` that occurs shortens `s` by at least `|p|`. */
  lemma {:induction false} RemoveOccurringShrinks(s: string, p: string, i: nat)
    requires |p| > 0 && OccursAt(s, p, i)
    ensures |RemoveAll(s, p)| <= |s| - |p|
    decreases i
  {
    if s[..|p|] == p {
      RemoveAllNoLonger(s[|p|..], p);
    } else {
      assert i > 0;
      assert s[1..][i - 1..i - 1 + |p|] == s[i..i + |p|];
      RemoveOccurringShrinks(s[1..], p, i - 1);
    }
  }

  /** Whenever `p` occurs in `s`, `replace` removes at least one copy. */
  lemma {:induction false} RemovalCountPositive(s: string, p: string, i: nat)
    requires |p| > 0 && OccursAt(s, p, i)
    ensures RemovalCount(s, p) >= 1
    decreases i
  {
    if s[..|p|] != p {
      assert i > 0;
      assert s[1..][i - 1..i - 1 + |p|] == s[i..i + |p|];
      RemovalCountPositive(s[1..], p, i - 1);
    }
  }

  /** Removing a string that occurs: at least one copy goes, and the result
      is shorter by a positive multiple of `|p|`. */
  lemma RemoveOccurring(s: string, p: string, i: nat)
    requires |p| > 0 && OccursAt(s, p, i)
    ensures IsSubstring(p, s)
    ensures RemovalCount(s, p) >= 1
    ensures |RemoveAll(s, p)| == |s| - RemovalCount(s, p) * |p|
  {
    RemovalCountPositive(s, p, i);
    RemoveAllLength(s, p);
  }

  /** When `p` does not occur, `replace` leaves `s` unchanged. */
  lemma {:induction false} RemoveAllAbsent(s: string, p: string)
    requires |p| > 0 && forall i: nat :: !OccursAt(s, p, i)
    ensures RemoveAll(s, p) == s
    decreases |s|
  {
    if |s| >= |p| {
      assert !OccursAt(s, p, 0);
      assert s[..|p|] == s[0..0 + |p|];
      forall i: nat ensures !OccursAt(s[1..], p, i) {
        if i + |p| <= |s[1..]| {
          assert s[1..][i..i + |p|] == s[i + 1..i + 1 + |p|];
          assert !OccursAt(s, p, i + 1);
        }
      }
      RemoveAllAbsent(s[1..], p);
    }
  }

  function DigitChar(d: nat): char
    requires d < 10
  {
    "0123456789"[d]
  }

  /** `str(n)` for a natural number: decimal, no padding, no sign. */
  function NatToString(n: nat): (r: string)
    ensures |r| > 0
    ensures forall k :: 0 <= k < |r| ==> IsDigit(r[k])
    decreases n
  {
    if n < 10 then [DigitChar(n)] else NatToString(n / 10) + [DigitChar(n % 10)]
  }

  /** `int(str(n)) == n`: the decimal text of a number reads back as it. */
  lemma {:induction false} NatToStringValue(n: nat)
    ensures DigitsValue(NatToString(n)) == n
    decreases n
  {
    var s := NatToString(n);
    if n < 10 {
      assert s[..0] == [];
    } else {
      NatToStringValue(n / 10);
      assert s[..|s| - 1] == NatToString(n / 10);
    }
    assert DigitChar(n % 10) as int - '0' as int == n % 10;
  }

  /** Distinct numbers have distinct decimal texts. */
  lemma NatToStringInjective(m: nat, n: nat)
    requires NatToString(m) == NatToString(n)
    ensures m == n
  {
    NatToStringValue(m);
    NatToStringValue(n);
  }

  /** `str(i)` / `f"{i}"` for an integer. */
  function IntToString(i: int): (r: string)
    ensures |r| > 0
    ensures i >= 0 ==> forall k :: 0 <= k < |r| ==> IsDigit(r[k])
  {
    if i < 0 then "-" + NatToString(-i) else NatToString(i)
  }

  /** `f"{n:0{w}d}"`: decimal, left-padded with zeros to at least `w` digits. */
  function ZeroPad(n: nat, w: nat): (r: string)
    ensures |r| >= w
    decreases w
  {
    var digits := NatToString(n);
    if |digits| >= w then digits else "0" + ZeroPad(n, w - 1)
  }

  /** `int(s)` for a string of ASCII digits. */
  function DigitsValue(s: string): nat
    requires forall k :: 0 <= k < |s| ==> IsDigit(s[k])
  {
    if |s| == 0 then 0
    else
      assert IsDigit(s[|s| - 1]);
      10 * DigitsValue(s[..|s| - 1]) + ((s[|s| - 1] as int - '0' as int) as nat)
  }
}
