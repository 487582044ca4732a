/**
 * The records the crawler produces (the fields of `PostItem` and of the
 * comment dicts it carries) and the bits of `datetime` behaviour the code
 * relies on.
 */
module Items {
  import opened Wrappers
  import opened Text

  /** A naive `datetime` with whole seconds. */
  datatype DateTime = DateTime(year: int, month: int, day: int, hour: int, minute: int, second: int)

  /** A `date`. */
  datatype Date = Date(year: int, month: int, day: int)

  /** `a < b` on `date` values: by year, then month, then day. */
  predicate DateBefore(a: Date, b: Date) {
    a.year < b.year ||
    (a.year == b.year && (a.month < b.month || (a.month == b.month && a.day < b.day)))
  }

  predicate IsLeapYear(y: int) {
    y % 4 == 0 && (y % 100 != 0 || y % 400 == 0)
  }

  /** `dt.replace(year=y)`: fails for a year outside 1..9999, and for
      29 February when `y` is not a leap year. */
  function ReplaceYear(dt: DateTime, y: int): (r: Option<DateTime>)
    ensures r.Some? <==> 1 <= y <= 9999 && !(dt.month == 2 && dt.day == 29 && !IsLeapYear(y))
    ensures r.Some? ==> r.value == dt.(year := y)
  {
    if y < 1 || y > 9999 || (dt.month == 2 && dt.day == 29 && !IsLeapYear(y)) then None
    else Some(dt.(year := y))
  }

  /** The number of days `calendar.monthrange` gives a month. */
  function DaysInMonth(year: int, month: int): int {
    if month == 2 then (if IsLeapYear(year) then 29 else 28)
    else if month == 4 || month == 6 || month == 9 || month == 11 then 30
    else 31
  }

  /** The values `datetime` accepts: year 1..9999, a real month and day,
      and a time of day. */
  predicate ValidDateTime(dt: DateTime) {
    && 1 <= dt.year <= 9999
    && 1 <= dt.month <= 12
    && 1 <= dt.day <= DaysInMonth(dt.year, dt.month)
    && 0 <= dt.hour < 24 && 0 <= dt.minute < 60 && 0 <= dt.second < 60
  }

  /** On a valid `datetime`, `replace(year=y)` succeeds exactly when the
      result, the same fields in year `y`, is again a valid `datetime`. */
  lemma ReplaceYearKeepsValid(dt: DateTime, y: int)
    requires ValidDateTime(dt)
    ensures ReplaceYear(dt, y).Some? <==> ValidDateTime(dt.(year := y))
    ensures ReplaceYear(dt, y).Some? ==> ReplaceYear(dt, y).value.year == y
  {
  }

  /** Putting the old year back undoes a successful `replace(year=y)`. */
  lemma ReplaceYearRoundTrip(dt: DateTime, y: int)
    requires ValidDateTime(dt) && ReplaceYear(dt, y).Some?
    ensures ReplaceYear(ReplaceYear(dt, y).value, dt.year) == Some(dt)
  {
  }

  function Abs(n: int): nat {
    if n < 0 then -n else n
  }

  /** `str(dt)`: `YYYY-MM-DD HH:MM:SS`, fields zero-padded. */
  function DateTimeText(dt: DateTime): string {
    ZeroPad(Abs(dt.year), 4) + "-" + ZeroPad(Abs(dt.month), 2) + "-" + ZeroPad(Abs(dt.day), 2) + " " +
    ZeroPad(Abs(dt.hour), 2) + ":" + ZeroPad(Abs(dt.minute), 2) + ":" + ZeroPad(Abs(dt.second), 2)
  }

  /** A comment as `parse_post` emits it (`type` is the push mark). */
  datatype Comment = Comment(
    kind: string,
    author: string,
    content: string,
    published: DateTime,
    crawled: DateTime,
    ip: Option<string>)

  /** A `PostItem`. `title` and `quote` are absent when the page has no
      title label or no quoted lines. */
  datatype Post = Post(
    id: string,
    board: string,
    author: string,
    title: Option<string>,
    content: string,
    ip: Option<string>,
    quote: Option<string>,
    published: DateTime,
    crawled: DateTime,
    comments: seq<Comment>,
    count: map<string, nat>)

  /** The push marks, in the order of the comments. */
  function Kinds(cs: seq<Comment>): (r: seq<string>)
    ensures |r| == |cs| && forall i :: 0 <= i < |cs| ==> r[i] == cs[i].kind
  {
    seq(|cs|, i requires 0 <= i < |cs| => cs[i].kind)
  }
}
