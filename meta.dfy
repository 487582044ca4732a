/**
 * The board-hierarchy crawler of `scraptt/spiders/meta.py`: a class page
 * lists entries, each either a board (its link ends in `/index.html`) or a
 * sub-class to follow. Items carry the `parent_nodes` list the page was
 * reached with; that list is a shared, mutable object, so it is modelled
 * as one (`NodeList`), and what each output refers to is part of the
 * contract.
 */
module MetaSpider {
  import opened Wrappers
  import opened Text
  import opened Patterns

  /** The spider: which class page to start from. */
  datatype Spider = Spider(index: string)

  /** `__init__`: `index` defaults to `'1'`. */
  function NewSpider(index: Option<string>): (r: Spider)
    ensures index.Some? ==> r.index == index.value
    ensures index.None? ==> r.index == "1"
  {
    Spider(index.GetOr("1"))
  }

  /** `start_requests`: the one class page. */
  function StartUrl(spider: Spider): (url: string)
    ensures StartsWith(url, "https://www.ptt.cc/cls/")
    ensures url[|"https://www.ptt.cc/cls/"|..] == spider.index
  {
    "https://www.ptt.cc/cls/" + spider.index
  }

  /** One `.b-ent a` entry: its `href` and the texts of its three children. */
  datatype Entry = Entry(href: string, name: string, cls: string, title: string)

  /** `parent_obj`. */
  datatype ParentObj = ParentObj(name: string, cls: string, title: string, classId: string)

  /** A `parent_nodes` list. */
  class NodeList {
    var nodes: seq<ParentObj>

    constructor(first: ParentObj)
      ensures nodes == [first]
    {
      nodes := [first];
    }

    method Append(x: ParentObj)
      modifies this
      ensures nodes == old(nodes) + [x]
    {
      nodes := nodes + [x];
    }
  }

  /** What `parse` yields: a `MetaItem` (its `parent_nodes` possibly
      `None`), or a request for a sub-class page with its list. */
  datatype Output =
    | Item(name: string, cls: string, title: string, parents: NodeList?)
    | Follow(href: string, list: NodeList)

  /** A board: the link ends with `/index.html`. */
  predicate IsBoard(e: Entry) {
    EndsWith(e.href, "/index.html")
  }

  /** Board links are exactly the links made of some path followed by
      `/index.html`. */
  lemma IsBoardIsIndexPath(e: Entry)
    ensures IsBoard(e) <==> exists pre: string :: e.href == pre + "/index.html"
  {
    if IsBoard(e) {
      var pre := e.href[..|e.href| - |"/index.html"|];
      assert e.href == pre + "/index.html";
    }
    if exists pre: string :: e.href == pre + "/index.html" {
      var pre: string :| e.href == pre + "/index.html";
      assert e.href[|e.href| - |"/index.html"|..] == "/index.html";
    }
  }

  /** The first digit from `i` on, `|s|` if there is none. */
  function FirstDigitFrom(s: string, i: nat): (r: nat)
    requires i <= |s|
    ensures i <= r <= |s|
    decreases |s| - i
  {
    if i == |s| || IsDigit(s[i]) then i else FirstDigitFrom(s, i + 1)
  }

  lemma {:induction false} FirstDigitFromMeans(s: string, i: nat)
    requires i <= |s|
    ensures forall j :: i <= j < FirstDigitFrom(s, i) ==> !IsDigit(s[j])
    ensures FirstDigitFrom(s, i) < |s| ==> IsDigit(s[FirstDigitFrom(s, i)])
    decreases |s| - i
  {
    if i < |s| && !IsDigit(s[i]) {
      FirstDigitFromMeans(s, i + 1);
    }
  }

  /** How many digits follow from `i` on, at most `max`. */
  function RunLength(s: string, i: nat, max: nat): (n: nat)
    requires i <= |s|
    ensures n <= max && i + n <= |s|
    decreases max
  {
    if max == 0 || i == |s| || !IsDigit(s[i]) then 0 else 1 + RunLength(s, i + 1, max - 1)
  }

  lemma {:induction false} RunLengthMeans(s: string, i: nat, max: nat)
    requires i <= |s|
    ensures forall k :: i <= k < i + RunLength(s, i, max) ==> IsDigit(s[k])
    ensures RunLength(s, i, max) < max && i + RunLength(s, i, max) < |s| ==>
      !IsDigit(s[i + RunLength(s, i, max)])
    decreases max
  {
    if !(max == 0 || i == |s| || !IsDigit(s[i])) {
      RunLengthMeans(s, i + 1, max - 1);
    }
  }

  lemma {:induction false} RunLengthIsDigitRun(s: string, i: nat, max: nat)
    requires i <= |s|
    ensures RunLength(s, i, max) == DigitRun(s, i, max)
    decreases max
  {
    if !(max == 0 || i == |s| || !IsDigit(s[i])) {
      RunLengthIsDigitRun(s, i + 1, max - 1);
    }
  }

  /** `re.findall(r"(\d{1,10})", href)[0]`: the first run of digits, cut at
      ten. `None`: the link has no digit, the list is empty and the
      indexing raises. */
  function ClassIdOf(href: string): Option<string>
  {
    var i := FirstDigitFrom(href, 0);
    if i == |href| then None else Some(href[i..i + RunLength(href, i, 10)])
  }

  /** The class id is there exactly when the link has a digit. */
  lemma ClassIdWhenDigit(href: string)
    ensures ClassIdOf(href).None? <==> forall k :: 0 <= k < |href| ==> !IsDigit(href[k])
  {
    FirstDigitFromMeans(href, 0);
  }

  /** It is the first digit and the ones after it, up to ten or the first
      non-digit. */
  lemma ClassIdIsFirstDigits(href: string, i: nat, n: nat)
    requires i == FirstDigitFrom(href, 0) && i < |href| && n == RunLength(href, i, 10)
    ensures ClassIdOf(href) == Some(href[i..i + n]) && 1 <= n <= 10
    ensures forall k :: 0 <= k < i ==> !IsDigit(href[k])
    ensures forall k :: i <= k < i + n ==> IsDigit(href[k])
    ensures n < 10 && i + n < |href| ==> !IsDigit(href[i + n])
  {
    FirstDigitFromMeans(href, 0);
    RunLengthMeans(href, i, 10);
  }

  /** With no digit in the link, `\d{1,10}` does not match either. */
  lemma NoClassIdNoMatch(href: string)
    requires ClassIdOf(href).None?
    ensures Search(Regex(ClassId), href).None?
  {
    var i := FirstDigitFrom(href, 0);
    FirstDigitFromMeans(href, 0);
    forall j: nat | j <= i
      ensures Hit(Regex(ClassId), href, j).None?
    {
      HitRegex(ClassId, href, j);
    }
  }

  /** Otherwise the class id is the first match of `\d{1,10}`, the one
      `findall` reports first. */
  lemma ClassIdIsFirstMatch(href: string)
    requires ClassIdOf(href).Some?
    ensures var sp := Search(Regex(ClassId), href);
      sp.Some? && ClassIdOf(href).value == Matched(href, sp.value)
  {
    var i := FirstDigitFrom(href, 0);
    FirstDigitFromMeans(href, 0);
    RunLengthIsDigitRun(href, i, 10);
    NoClassIdBefore(href, i);
    ClassIdHitAt(href, i);
    SearchFindsFirst(Regex(ClassId), href, i);
  }

  /** Before the first digit, `\d{1,10}` matches nowhere. */
  lemma NoClassIdBefore(href: string, i: nat)
    requires i <= |href| && forall j :: 0 <= j < i ==> !IsDigit(href[j])
    ensures forall j: nat :: j < i ==> Hit(Regex(ClassId), href, j).None?
  {
    forall j: nat | j < i
      ensures Hit(Regex(ClassId), href, j).None?
    {
      HitRegex(ClassId, href, j);
    }
  }

  /** At a digit, `\d{1,10}` matches the digit run there. */
  lemma ClassIdHitAt(href: string, i: nat)
    requires i < |href| && IsDigit(href[i])
    ensures Hit(Regex(ClassId), href, i) == Some(DigitRun(href, i, 10))
  {
    HitRegex(ClassId, href, i);
    assert DigitRun(href, i, 10) == 1 + DigitRun(href, i + 1, 9);
  }

  /** What an entry is to `parse`: a board, the `ALLPOST` board (which
      ends the page), a sub-class with its `parent_obj`, or a sub-class
      link without a digit (the indexing raises, ending the page). */
  datatype EntryKind = Board | AllPost | SubClass(obj: ParentObj) | NoDigit

  function KindOf(e: Entry): EntryKind
  {
    if IsBoard(e) then (if e.name == "ALLPOST" then AllPost else Board)
    else
      var id := ClassIdOf(e.href);
      if id.None? then NoDigit else SubClass(ParentObj(e.name, e.cls, e.title, id.value))
  }

  /** Boards are the links ending in `/index.html`; the page ends at the
      `ALLPOST` board and at a sub-class link without a digit; any other
      sub-class carries its name, class, title and the link's first digits. */
  lemma KindOfMeans(e: Entry)
    ensures var r := KindOf(e);
      && (r.Board? || r.AllPost? <==> IsBoard(e))
      && (r.AllPost? <==> IsBoard(e) && e.name == "ALLPOST")
      && (r.NoDigit? <==> !IsBoard(e) && ClassIdOf(e.href).None?)
      && (r.SubClass? ==> r.obj == ParentObj(e.name, e.cls, e.title, ClassIdOf(e.href).value))
  {
  }

  function KindsOf(entries: seq<Entry>): (r: seq<EntryKind>)
    ensures |r| == |entries| && forall k :: 0 <= k < |r| ==> r[k] == KindOf(entries[k])
  {
    seq(|entries|, k requires 0 <= k < |entries| => KindOf(entries[k]))
  }

  predicate Ends(k: EntryKind) {
    k.AllPost? || k.NoDigit?
  }

  /** The first entry from `i` on that ends the page, `|kinds|` if none. */
  function StopFrom(kinds: seq<EntryKind>, i: nat): (r: nat)
    requires i <= |kinds|
    ensures i <= r <= |kinds|
    ensures forall j :: i <= j < r ==> !Ends(kinds[j])
    ensures r < |kinds| ==> Ends(kinds[r])
    decreases |kinds| - i
  {
    if i == |kinds| || Ends(kinds[i]) then i else StopFrom(kinds, i + 1)
  }

  /** The first sub-class entry from `i` on, `|kinds|` if none. */
  function FirstClassFrom(kinds: seq<EntryKind>, i: nat): (r: nat)
    requires i <= |kinds|
    ensures i <= r <= |kinds|
    ensures forall j :: i <= j < r ==> kinds[j].Board? || kinds[j].AllPost?
    ensures r < |kinds| ==> kinds[r].SubClass? || kinds[r].NoDigit?
    decreases |kinds| - i
  {
    if i == |kinds| || kinds[i].SubClass? || kinds[i].NoDigit? then i else FirstClassFrom(kinds, i + 1)
  }

  /** Which list an output refers to. */
  datatype ListRef =
    | Given                  // the list the page was reached with
    | Appended(x: ParentObj) // that list, after `x` was appended to it
    | Fresh(x: ParentObj)    // a new list `[x]`
    | NoList                 // `None`

  datatype Planned =
    | PItem(name: string, cls: string, title: string, list: ListRef)
    | PFollow(href: string, list: ListRef)

  /** The output of entry `k`, before the page ends, `listed` telling
      whether the page was reached with a list: boards give items and
      sub-classes requests. Up to the first sub-class entry, items carry the
      page's list; that entry appends itself to the list and sends it on;
      from then on `parent_nodes` is `None`, so items carry `None` and each
      request a new list of its own entry alone. */
  function Expected(entries: seq<Entry>, kinds: seq<EntryKind>, listed: bool, k: nat): Planned
    requires |kinds| == |entries| && k < StopFrom(kinds, 0)
  {
    var e := entries[k];
    var f := FirstClassFrom(kinds, 0);
    match kinds[k]
    case SubClass(x) => PFollow(e.href, if listed && k == f then Appended(x) else Fresh(x))
    case _ => PItem(e.name, e.cls, e.title, if listed && k < f then Given else NoList)
  }

  /** The outputs of the page, in order. */
  function PlanOf(entries: seq<Entry>, listed: bool): (r: seq<Planned>)
    ensures |r| == StopFrom(KindsOf(entries), 0)
    ensures forall k :: 0 <= k < |r| ==> r[k] == Expected(entries, KindsOf(entries), listed, k)
  {
    var kinds := KindsOf(entries);
    seq(StopFrom(kinds, 0), k requires 0 <= k < StopFrom(kinds, 0) => Expected(entries, kinds, listed, k))
  }

  /** The page's list is referred to by the items before the first
      sub-class entry and by that entry's request, which appends itself;
      after it, items carry `None` and requests fresh lists. */
  lemma PlanLists(entries: seq<Entry>, listed: bool)
    ensures var plan, kinds := PlanOf(entries, listed), KindsOf(entries);
      var f := FirstClassFrom(kinds, 0);
      forall k :: 0 <= k < |plan| ==>
        && (plan[k].PItem? <==> IsBoard(entries[k]))
        && (plan[k].list.Given? <==> listed && k < f)
        && (plan[k].list.Appended? <==> listed && k == f)
        && (plan[k].list.NoList? <==> plan[k].PItem? && !(listed && k < f))
        && (plan[k].list.Fresh? <==> plan[k].PFollow? && !(listed && k == f))
  {
    forall k | 0 <= k < |entries| {
      KindOfMeans(entries[k]);
    }
  }

  /** `o` is the output `p` describes, and refers to the list `p` names,
      with `given` the list the page was reached with. */
  predicate Refers(o: Output, p: Planned, given: NodeList?)
  {
    match p
    case PItem(name, cls, title, list) =>
      && o.Item? && o.name == name && o.cls == cls && o.title == title
      && (list.Given? ==> o.parents == given)
      && (list.NoList? ==> o.parents == null)
    case PFollow(href, list) =>
      && o.Follow? && o.href == href
      && (list.Appended? ==> o.list == given)
      && (list.Fresh? ==> o.list != given)
  }

  /** A fresh list holds the one entry it was made for. */
  ghost predicate Holds(o: Output, p: Planned)
    reads if o.Follow? then {o.list} else {}
  {
    p.PFollow? && p.list.Fresh? ==> o.Follow? && o.list.nodes == [p.list.x]
  }

  /** `parse`: one output per entry up to the first that ends the page,
      which raised unless it is the `ALLPOST` board. The list the page was
      reached with gains the first sub-class entry, when that comes before
      the end, and nothing else; every other request has a fresh list
      holding its own entry alone. */
  method Parse(entries: seq<Entry>, parents: NodeList?) returns (out: seq<Output>, failed: bool)
    modifies parents
    ensures var plan, kinds := PlanOf(entries, parents != null), KindsOf(entries);
      && |out| == |plan|
      && (failed <==> |plan| < |entries| && kinds[|plan|].NoDigit?)
      && (forall k :: 0 <= k < |plan| ==> Refers(out[k], plan[k], parents))
      && (forall k :: 0 <= k < |plan| ==> Holds(out[k], plan[k]))
      && (forall k :: 0 <= k < |plan| && plan[k].list.Fresh? ==> out[k].Follow? && fresh(out[k].list))
    ensures var kinds := KindsOf(entries);
      var stop, f := StopFrom(kinds, 0), FirstClassFrom(kinds, 0);
      parents != null ==>
        parents.nodes == old(parents.nodes) + (if f < stop then [kinds[f].obj] else [])
  {
    var current := parents;
    ghost var kinds := KindsOf(entries);
    ghost var plan := PlanOf(entries, parents != null);
    ghost var f := FirstClassFrom(kinds, 0);
    out := [];
    failed := false;
    var i := 0;
    while i < |entries|
      invariant 0 <= i <= |plan|
      invariant current == null || current == parents
      invariant current != null <==> parents != null && i <= f
      invariant |out| == i
      invariant forall k :: 0 <= k < i ==> Refers(out[k], plan[k], parents)
      invariant forall k :: 0 <= k < i ==> Holds(out[k], plan[k])
      invariant forall k :: 0 <= k < i && plan[k].list.Fresh? ==> out[k].Follow? && fresh(out[k].list)
      invariant parents != null ==>
        parents.nodes == old(parents.nodes) + (if f < i then [kinds[f].obj] else [])
    {
      var e := entries[i];
      var kind := KindOf(e);
      assert kind == kinds[i];
      if kind.AllPost? {
        return;
      }
      if kind.NoDigit? {
        failed := true;
        return;
      }
      assert !Ends(kinds[i]);
      assert i < |plan|;
      ghost var before := out;
      label Before:
      var o;
      o, current := Emit(e, kind, plan[i], i == f, parents, current);
      out := out + [o];
      forall k | 0 <= k < i + 1
        ensures Refers(out[k], plan[k], parents) && Holds(out[k], plan[k])
        ensures plan[k].list.Fresh? ==> out[k].Follow? && fresh(out[k].list)
      {
        if k == i {
          assert out[k] == o;
        } else {
          assert out[k] == before[k];
          if plan[k].PFollow? && plan[k].list.Fresh? {
            assert out[k].list != parents;
            assert out[k].list.nodes == old@Before(out[k].list.nodes);
          }
        }
      }
      i := i + 1;
    }
  }

  /** One entry that does not end the page, planned as `p`, `first` telling
      whether it is the page's first sub-class: a board gives an item with
      the current list; a sub-class appends itself to the current list and
      sends it on, or, with no list, sends a new one; either way no list is
      left for the rest of the page. */
  method Emit(e: Entry, kind: EntryKind, ghost p: Planned, ghost first: bool, ghost parents: NodeList?, current: NodeList?)
    returns (o: Output, next: NodeList?)
    requires kind.Board? ==> !first && p == PItem(e.name, e.cls, e.title, if current != null then Given else NoList)
    requires kind.SubClass? ==>
      p == PFollow(e.href, if parents != null && first then Appended(kind.obj) else Fresh(kind.obj))
    requires kind.Board? || kind.SubClass?
    requires current == null || current == parents
    requires current != null ==> first || kind.Board?
    requires first && parents != null ==> current != null
    modifies current
    ensures Refers(o, p, parents) && Holds(o, p)
    ensures p.list.Fresh? ==> o.Follow? && fresh(o.list)
    ensures kind.Board? ==> next == current
    ensures kind.SubClass? ==> next == null
    ensures current != null ==> current.nodes == old(current.nodes) + (if kind.SubClass? then [kind.obj] else [])
  {
    if kind.Board? {
      o, next := Item(e.name, e.cls, e.title, current), current;
    } else {
      if current != null {
        current.Append(kind.obj);
        o := Follow(e.href, current);
      } else {
        var list := new NodeList(kind.obj);
        o := Follow(e.href, list);
      }
      next := null;
    }
  }

  // ---------------------------------------------------------------------
  // The ancestry `parent_nodes` is meant to carry

  /** What an output would carry if every request got the path from the
      root to its own entry. */
  datatype Chained =
    | CItem(name: string, cls: string, title: string, path: seq<ParentObj>)
    | CFollow(href: string, path: seq<ParentObj>)

  /** The output of one entry before the page ends, when requests carry
      the page's path extended by their own entry. */
  function ChainedOf(e: Entry, kind: EntryKind, path: seq<ParentObj>): Chained
  {
    if kind.SubClass? then CFollow(e.href, path + [kind.obj]) else CItem(e.name, e.cls, e.title, path)
  }

  /** Items carry the page's path; a request carries that path followed by
      its own entry with the entry's class id. */
  lemma ChainedKeepsPath(e: Entry, path: seq<ParentObj>)
    requires !Ends(KindOf(e))
    ensures var c := ChainedOf(e, KindOf(e), path);
      && (c.CItem? <==> IsBoard(e))
      && (c.CItem? ==> c.path == path && c.name == e.name)
      && (c.CFollow? ==>
            c.href == e.href && |c.path| == |path| + 1 && c.path[..|path|] == path &&
            c.path[|path|].name == e.name && c.path[|path|].classId == ClassIdOf(e.href).value)
  {
    KindOfMeans(e);
    if !IsBoard(e) {
      assert (path + [KindOf(e).obj])[..|path|] == path;
    }
  }

  /** `parse` with every request given a copy of the page's path extended by
      its own entry, and no reset: every entry before the end, siblings
      alike, gets `ChainedOf`. */
  method ParseIntended(entries: seq<Entry>, path: seq<ParentObj>) returns (out: seq<Chained>, failed: bool)
    ensures var kinds := KindsOf(entries);
      var stop := StopFrom(kinds, 0);
      && |out| == stop
      && (failed <==> stop < |entries| && kinds[stop].NoDigit?)
      && forall k :: 0 <= k < stop ==> out[k] == ChainedOf(entries[k], kinds[k], path)
  {
    ghost var kinds := KindsOf(entries);
    out := [];
    failed := false;
    var i := 0;
    while i < |entries|
      invariant 0 <= i <= StopFrom(kinds, 0) && |out| == i
      invariant forall k :: 0 <= k < i ==> out[k] == ChainedOf(entries[k], kinds[k], path)
    {
      var e := entries[i];
      var kind := KindOf(e);
      if kind.AllPost? {
        return;
      }
      if kind.NoDigit? {
        failed := true;
        return;
      }
      out := out + [ChainedOf(e, kind, path)];
      i := i + 1;
    }
  }

  /** Two sub-class entries, `/cls/12` and `/cls/34`. */
  function TwoClasses(): seq<Entry> {
    [Entry("/cls/12", "A", "c", "t"), Entry("/cls/34", "B", "c", "t")]
  }

  lemma TwoClassesAreFollowed()
    ensures KindsOf(TwoClasses()) ==
      [SubClass(ParentObj("A", "c", "t", "12")), SubClass(ParentObj("B", "c", "t", "34"))]
    ensures StopFrom(KindsOf(TwoClasses()), 0) == 2 && FirstClassFrom(KindsOf(TwoClasses()), 0) == 0
  {
    FirstDigitsOf("/cls/12", 5);
    FirstDigitsOf("/cls/34", 5);
    var kinds := KindsOf(TwoClasses());
    assert kinds[0] == SubClass(ParentObj("A", "c", "t", "12"));
    assert kinds[1] == SubClass(ParentObj("B", "c", "t", "34"));
  }

  /** As written, on a page reached with a list that holds two sub-classes,
      the first request sends that list on with itself appended, and the
      second gets a new list of its own entry alone, losing the ancestry. */
  lemma SecondSiblingLosesAncestry()
    ensures var plan := PlanOf(TwoClasses(), true);
      && |plan| == 2
      && plan[0] == PFollow("/cls/12", Appended(ParentObj("A", "c", "t", "12")))
      && plan[1] == PFollow("/cls/34", Fresh(ParentObj("B", "c", "t", "34")))
  {
    TwoClassesAreFollowed();
  }

  /** Under the intended reading both requests carry the page's path. */
  lemma SecondSiblingKeepsAncestry(path: seq<ParentObj>)
    ensures var kinds := KindsOf(TwoClasses());
      && ChainedOf(TwoClasses()[0], kinds[0], path) == CFollow("/cls/12", path + [ParentObj("A", "c", "t", "12")])
      && ChainedOf(TwoClasses()[1], kinds[1], path) == CFollow("/cls/34", path + [ParentObj("B", "c", "t", "34")])
  {
    TwoClassesAreFollowed();
  }

  /** A link with no digit before `i` and two digits at `i` that end it has
      those two digits as its class id. */
  lemma FirstDigitsOf(href: string, i: nat)
    requires i + 2 == |href| && IsDigit(href[i]) && IsDigit(href[i + 1])
    requires forall k :: 0 <= k < i ==> !IsDigit(href[k])
    ensures ClassIdOf(href) == Some(href[i..])
  {
    FirstDigitFromMeans(href, 0);
    assert FirstDigitFrom(href, 0) == i;
    RunLengthIsDigitRun(href, i, 10);
    assert DigitRun(href, i + 2, 8) == 0;
    assert DigitRun(href, i + 1, 9) == 1;
    assert DigitRun(href, i, 10) == 2;
    assert href[i..i + 2] == href[i..];
  }
}
