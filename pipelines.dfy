/**
 * The item pipelines of `scraptt/pipelines.py`: the upsert of posts and
 * comments into one keyed collection (`PTTPipeline`) and the per-board
 * JSON-lines export (`JsonPipeline`).
 *
 * The collection is a map from the `id` field to the stored document; an
 * `update_one({"id": k}, {"$set": rec}, upsert=True)` is `Upsert`. The hash
 * is a parameter (`sha`: the hex digest of the UTF-8 bytes of its input).
 */
module Pipelines {
  import opened Wrappers
  import opened Text
  import opened Items
  import opened Sums

  /** A field value as stored: text, a count, a time, or null (`None`). */
  datatype Value = Str(s: string) | Num(n: nat) | Time(t: DateTime) | Null

  type Record = map<string, Value>

  /** The collection: documents by their `id` field. */
  type Store = map<string, Record>

  type Hash = string -> string

  const Up: string := "推"
  const Neutral: string := "→"
  const Down: string := "噓"

  const PostFields: set<string> :=
    {"id", "board", "author", "published", "crawled", "title", "ip", "content",
     "upvote", "novote", "downvote"}

  const CommentFields: set<string> :=
    {"id", "type", "author", "published", "crawled", "ip", "content", "post_id"}

  function OptionText(o: Option<string>): (r: Value)
    ensures r.Null? <==> o.None?
    ensures o.Some? ==> r == Str(o.value)
  {
    if o.Some? then Str(o.value) else Null
  }

  /** `count[kind]` on the `defaultdict(int)` of `comment_counter`. */
  function CountOf(count: map<string, nat>, kind: string): nat {
    if kind in count then count[kind] else 0
  }

  /** The count after the pipeline has read the three marks: reading a
      missing key of a `defaultdict` stores a 0 under it. */
  function CountsRead(count: map<string, nat>): (r: map<string, nat>)
    ensures r.Keys == count.Keys + {Up, Neutral, Down}
    ensures forall k :: k in count ==> r[k] == count[k]
    ensures forall k :: k in r && k !in count ==> r[k] == 0
  {
    count[Up := CountOf(count, Up)][Neutral := CountOf(count, Neutral)][Down := CountOf(count, Down)]
  }

  /** The zeros the reads add change no total. */
  lemma CountsReadKeepsTotal(count: map<string, nat>)
    ensures SumValues(CountsRead(count)) == SumValues(count)
  {
    var m1 := count[Up := CountOf(count, Up)];
    var m2 := m1[Neutral := CountOf(m1, Neutral)];
    SumValuesUpdate(count, Up, CountOf(count, Up));
    SumValuesUpdate(m1, Neutral, CountOf(m1, Neutral));
    SumValuesUpdate(m2, Down, CountOf(m2, Down));
    assert CountOf(m1, Neutral) == CountOf(count, Neutral);
    assert CountOf(m2, Down) == CountOf(count, Down);
    assert CountsRead(count) == m2[Down := CountOf(m2, Down)];
  }

  /** The item as the pipeline hands it on: the same post whose count has
      had the three marks read. */
  function ItemAfter(item: Post): (r: Post)
    ensures r.(count := item.count) == item
    ensures forall k :: k in item.count ==> k in r.count && r.count[k] == item.count[k]
    ensures r.count.Keys == item.count.Keys + {Up, Neutral, Down}
    ensures forall k :: k in r.count && k !in item.count ==> r.count[k] == 0
  {
    item.(count := CountsRead(item.count))
  }

  /** `post_obj`. `None`: the item has no `title`, and `item['title']` raises. */
  function PostRecord(item: Post): (r: Option<Record>)
    ensures r.Some? <==> item.title.Some?
  {
    if item.title.None? then None
    else Some(map[
      "id" := Str(item.id),
      "board" := Str(item.board),
      "author" := Str(item.author),
      "published" := Time(item.published),
      "crawled" := Time(item.crawled),
      "title" := Str(item.title.value),
      "ip" := OptionText(item.ip),
      "content" := Str(item.content),
      "upvote" := Num(CountOf(item.count, Up)),
      "novote" := Num(CountOf(item.count, Neutral)),
      "downvote" := Num(CountOf(item.count, Down))])
  }

  /** The post record holds exactly the listed fields: the three counts
      under `upvote`, `novote` and `downvote` (0 for a mark no comment
      has), and neither the quote nor the comments. */
  lemma PostRecordFields(item: Post)
    requires item.title.Some?
    ensures var r := PostRecord(item).value;
      && r.Keys == PostFields && "quote" !in r && "comments" !in r
      && r["id"] == Str(item.id) && r["board"] == Str(item.board)
      && r["author"] == Str(item.author) && r["title"] == Str(item.title.value)
      && r["published"] == Time(item.published) && r["crawled"] == Time(item.crawled)
      && r["ip"] == OptionText(item.ip) && r["content"] == Str(item.content)
      && r["upvote"] == Num(CountOf(item.count, Up))
      && r["novote"] == Num(CountOf(item.count, Neutral))
      && r["downvote"] == Num(CountOf(item.count, Down))
  {
  }

  /** Reading the count a second time gives the same record. */
  lemma PostRecordAfterRead(item: Post)
    ensures PostRecord(ItemAfter(item)) == PostRecord(item)
  {
    var after := ItemAfter(item);
    assert CountOf(after.count, Up) == CountOf(item.count, Up);
    assert CountOf(after.count, Neutral) == CountOf(item.count, Neutral);
    assert CountOf(after.count, Down) == CountOf(item.count, Down);
  }

  /** Python's `s[:n]`. */
  function Take(s: string, n: nat): (r: string)
    ensures |r| == if |s| < n then |s| else n
    ensures StartsWith(s, r)
  {
    if |s| <= n then s else s[..n]
  }

  /** The key of a comment: the first 16 characters of the hash of the post
      id, the comment author and the comment time as `str` prints it. It
      depends on these three alone, so comments agreeing on them share a
      key. */
  function CommentKey(sha: Hash, postId: string, author: string, published: DateTime): (k: string)
    ensures var digest := sha(postId + author + DateTimeText(published));
      |k| <= 16 && StartsWith(digest, k) && (|digest| >= 16 ==> |k| == 16)
  {
    Take(sha(postId + author + DateTimeText(published)), 16)
  }

  /** `comment_obj`. */
  function CommentRecord(sha: Hash, item: Post, c: Comment): (r: Record)
    ensures "post_id" in r && "id" in r
  {
    map[
      "id" := Str(CommentKey(sha, item.id, c.author, c.published)),
      "type" := Str(c.kind),
      "author" := Str(c.author),
      "published" := Time(c.published),
      "crawled" := Time(c.crawled),
      "ip" := OptionText(c.ip),
      "content" := Str(c.content),
      "post_id" := Str(item.id)]
  }

  /** The comment record holds exactly the listed fields, keyed by the
      comment key and naming the post it belongs to. */
  lemma CommentRecordFields(sha: Hash, item: Post, c: Comment)
    ensures var r := CommentRecord(sha, item, c);
      && r.Keys == CommentFields
      && r["id"] == Str(CommentKey(sha, item.id, c.author, c.published)) && r["post_id"] == Str(item.id)
      && r["type"] == Str(c.kind) && r["author"] == Str(c.author) && r["content"] == Str(c.content)
      && r["published"] == Time(c.published) && r["crawled"] == Time(c.crawled)
      && r["ip"] == OptionText(c.ip)
  {
  }

  // ---------------------------------------------------------------------
  // Upserts

  /** One `update_one(..., upsert=True)`: `rec` is merged into the document
      under `key`. */
  datatype Upsert = Upsert(key: string, rec: Record)

  function Doc(st: Store, key: string): Record {
    if key in st then st[key] else map[]
  }

  /** One upsert: `$set` with upsert. */
  function Apply(st: Store, u: Upsert): (r: Store)
    ensures u.key in r
  {
    st[u.key := Doc(st, u.key) + u.rec]
  }

  /** The fields of `rec` overwrite, the other fields of the document
      survive, and every other document is unchanged. */
  lemma ApplySets(st: Store, u: Upsert)
    ensures Apply(st, u).Keys == st.Keys + {u.key}
    ensures forall f :: f in u.rec ==> f in Apply(st, u)[u.key] && Apply(st, u)[u.key][f] == u.rec[f]
    ensures forall f :: f in Doc(st, u.key) && f !in u.rec ==>
      f in Apply(st, u)[u.key] && Apply(st, u)[u.key][f] == st[u.key][f]
    ensures Apply(st, u)[u.key].Keys == Doc(st, u.key).Keys + u.rec.Keys
    ensures forall k :: k in st && k != u.key ==> Apply(st, u)[k] == st[k]
  {
  }

  /** The upserts in order. */
  function ApplyAll(st: Store, us: seq<Upsert>): Store
    decreases |us|
  {
    if us == [] then st else Apply(ApplyAll(st, us[..|us| - 1]), us[|us| - 1])
  }

  /** The keys the upserts write. */
  function Written(us: seq<Upsert>): set<string>
    decreases |us|
  {
    if us == [] then {} else Written(us[..|us| - 1]) + {us[|us| - 1].key}
  }

  /** Everything the upserts set under `key`, later ones winning. */
  function SetUnder(us: seq<Upsert>, key: string): Record
    decreases |us|
  {
    if us == [] then map[]
    else
      var last := us[|us| - 1];
      SetUnder(us[..|us| - 1], key) + (if last.key == key then last.rec else map[])
  }

  /** The documents after a run of upserts: those already there and those
      written. */
  lemma {:induction false} ApplyAllKeys(st: Store, us: seq<Upsert>)
    ensures ApplyAll(st, us).Keys == st.Keys + Written(us)
    decreases |us|
  {
    if us != [] {
      ApplyAllKeys(st, us[..|us| - 1]);
    }
  }

  /** What a run of upserts leaves under `k`: the document gains the fields
      set under `k`, later upserts winning. */
  lemma {:induction false} ApplyAllAt(st: Store, us: seq<Upsert>, k: string)
    requires k in ApplyAll(st, us)
    ensures ApplyAll(st, us)[k] == Doc(st, k) + SetUnder(us, k)
    decreases |us|
  {
    if us != [] {
      var init := us[..|us| - 1];
      var mid := ApplyAll(st, init);
      var last := us[|us| - 1];
      if k in mid {
        ApplyAllAt(st, init, k);
      } else {
        ApplyAllKeys(st, init);
        SetUnderUnwritten(init, k);
        assert Doc(st, k) == map[];
      }
      if k == last.key {
        assert ApplyAll(st, us)[k] == Doc(mid, k) + last.rec;
        assert SetUnder(us, k) == SetUnder(init, k) + last.rec;
        MergeAssoc(Doc(st, k), SetUnder(init, k), last.rec);
      } else {
        assert ApplyAll(st, us)[k] == mid[k];
        assert SetUnder(us, k) == SetUnder(init, k) + map[];
        assert SetUnder(init, k) + map[] == SetUnder(init, k);
      }
    }
  }

  lemma ApplyAllSnoc(st: Store, us: seq<Upsert>, u: Upsert)
    ensures ApplyAll(st, us + [u]) == Apply(ApplyAll(st, us), u)
  {
    assert (us + [u])[..|us|] == us;
  }

  /** Two runs of upserts one after the other are one run. */
  lemma {:induction false} ApplyAllAppend(st: Store, a: seq<Upsert>, b: seq<Upsert>)
    ensures ApplyAll(ApplyAll(st, a), b) == ApplyAll(st, a + b)
    decreases |b|
  {
    if b != [] {
      var init := b[..|b| - 1];
      ApplyAllAppend(st, a, init);
      assert (a + b)[..|a + b| - 1] == a + init;
    } else {
      assert a + b == a;
    }
  }

  lemma MergeAssoc(a: Record, b: Record, c: Record)
    ensures (a + b) + c == a + (b + c)
  {
  }

  /** Running the same upserts again leaves the collection as it was. */
  lemma ApplyAllTwice(st: Store, us: seq<Upsert>)
    ensures ApplyAll(ApplyAll(st, us), us) == ApplyAll(st, us)
  {
    var once := ApplyAll(st, us);
    var twice := ApplyAll(once, us);
    ApplyAllKeys(st, us);
    ApplyAllKeys(once, us);
    forall k | k in twice
      ensures twice[k] == once[k]
    {
      ApplyAllAt(st, us, k);
      ApplyAllAt(once, us, k);
      MergeAssoc(Doc(st, k), SetUnder(us, k), SetUnder(us, k));
      assert SetUnder(us, k) + SetUnder(us, k) == SetUnder(us, k);
    }
  }

  /** The upserts `PTTPipeline.process_item` issues: the post, then one per
      comment in order. `None`: the item has no title. */
  function ItemUpserts(sha: Hash, item: Post): (r: Option<seq<Upsert>>)
    ensures r.Some? <==> item.title.Some?
    ensures r.Some? ==> |r.value| == |item.comments| + 1
    ensures r.Some? ==> r.value[0] == Upsert(item.id, PostRecord(item).value)
    ensures r.Some? ==> r.value[1..] == CommentUpserts(sha, item, |item.comments|)
  {
    if item.title.None? then None
    else Some([Upsert(item.id, PostRecord(item).value)] + CommentUpserts(sha, item, |item.comments|))
  }

  /** The comment upserts for the first `n` comments. */
  function CommentUpserts(sha: Hash, item: Post, n: nat): (r: seq<Upsert>)
    requires n <= |item.comments|
    ensures |r| == n
    ensures forall i :: 0 <= i < n ==>
      r[i] == Upsert(CommentKey(sha, item.id, item.comments[i].author, item.comments[i].published), CommentRecord(sha, item, item.comments[i]))
  {
    seq(n, i requires 0 <= i < n =>
      Upsert(CommentKey(sha, item.id, item.comments[i].author, item.comments[i].published), CommentRecord(sha, item, item.comments[i])))
  }

  lemma CommentUpsertsSnoc(sha: Hash, item: Post, n: nat)
    requires n < |item.comments|
    ensures CommentUpserts(sha, item, n + 1) == CommentUpserts(sha, item, n) +
      [Upsert(CommentKey(sha, item.id, item.comments[n].author, item.comments[n].published),
              CommentRecord(sha, item, item.comments[n]))]
  {
  }

  /** Processing an item twice (the second time on the item the first call
      handed on) leaves the collection as processing it once. */
  lemma ProcessTwiceIsOnce(sha: Hash, st: Store, item: Post)
    requires item.title.Some?
    ensures ItemUpserts(sha, ItemAfter(item)) == ItemUpserts(sha, item)
    ensures ApplyAll(ApplyAll(st, ItemUpserts(sha, item).value), ItemUpserts(sha, ItemAfter(item)).value)
         == ApplyAll(st, ItemUpserts(sha, item).value)
  {
    PostRecordAfterRead(item);
    var after := ItemAfter(item);
    assert after.comments == item.comments;
    forall c | c in item.comments
      ensures CommentRecord(sha, after, c) == CommentRecord(sha, item, c)
    {
    }
    assert CommentUpserts(sha, after, |item.comments|) == CommentUpserts(sha, item, |item.comments|);
    ApplyAllTwice(st, ItemUpserts(sha, item).value);
  }

  /** Every document an upsert writes is present with at least the fields
      it set; documents no upsert writes are unchanged. */
  lemma ApplyAllLeaves(st: Store, us: seq<Upsert>)
    ensures forall i :: 0 <= i < |us| ==>
      us[i].key in ApplyAll(st, us) && us[i].rec.Keys <= ApplyAll(st, us)[us[i].key].Keys
    ensures forall k :: k in st && (forall i :: 0 <= i < |us| ==> us[i].key != k) ==>
      k in ApplyAll(st, us) && ApplyAll(st, us)[k] == st[k]
  {
    ApplyAllKeys(st, us);
    forall i | 0 <= i < |us|
      ensures us[i].key in ApplyAll(st, us) && us[i].rec.Keys <= ApplyAll(st, us)[us[i].key].Keys
    {
      WrittenHas(us, i);
      ApplyAllAt(st, us, us[i].key);
      forall f | f in us[i].rec
        ensures f in SetUnder(us, us[i].key)
      {
        SetUnderHas(us, i, f);
      }
    }
    forall k | k in st && (forall i :: 0 <= i < |us| ==> us[i].key != k)
      ensures k in ApplyAll(st, us) && ApplyAll(st, us)[k] == st[k]
    {
      if k in Written(us) {
        WrittenKeys(us, k);
      }
      SetUnderUnwritten(us, k);
      ApplyAllAt(st, us, k);
      assert st[k] + map[] == st[k];
    }
  }

  /** After an item, the post's document and every comment's document are
      present, each comment's naming the post, and documents under keys
      the item does not write are unchanged. */
  lemma ItemUpsertsStore(sha: Hash, st: Store, item: Post)
    requires item.title.Some?
    ensures var after := ApplyAll(st, ItemUpserts(sha, item).value);
      && item.id in after
      && (forall i :: 0 <= i < |item.comments| ==>
            var key := CommentKey(sha, item.id, item.comments[i].author, item.comments[i].published);
            key in after && "post_id" in after[key])
      && (forall k :: k in st && k != item.id &&
            (forall i :: 0 <= i < |item.comments| ==>
               k != CommentKey(sha, item.id, item.comments[i].author, item.comments[i].published))
            ==> k in after && after[k] == st[k])
  {
    var us := ItemUpserts(sha, item).value;
    ApplyAllLeaves(st, us);
    assert us[0].key == item.id;
    forall i | 0 <= i < |item.comments|
      ensures var key := CommentKey(sha, item.id, item.comments[i].author, item.comments[i].published);
        key in ApplyAll(st, us) && "post_id" in ApplyAll(st, us)[key]
    {
      assert us[i + 1].key == CommentKey(sha, item.id, item.comments[i].author, item.comments[i].published);
      assert "post_id" in us[i + 1].rec;
    }
    forall k | k in st && k != item.id &&
               (forall i :: 0 <= i < |item.comments| ==>
                  k != CommentKey(sha, item.id, item.comments[i].author, item.comments[i].published))
      ensures forall j :: 0 <= j < |us| ==> us[j].key != k
    {
      forall j | 0 <= j < |us|
        ensures us[j].key != k
      {
        if j > 0 {
          assert us[j].key == CommentKey(sha, item.id, item.comments[j - 1].author, item.comments[j - 1].published);
        }
      }
    }
  }

  lemma {:induction false} WrittenHas(us: seq<Upsert>, i: nat)
    requires i < |us|
    ensures us[i].key in Written(us)
    decreases |us|
  {
    if i < |us| - 1 {
      assert us[..|us| - 1][i] == us[i];
      WrittenHas(us[..|us| - 1], i);
    }
  }

  lemma {:induction false} WrittenKeys(us: seq<Upsert>, k: string)
    requires k in Written(us)
    ensures exists i :: 0 <= i < |us| && us[i].key == k
    decreases |us|
  {
    if us[|us| - 1].key != k {
      WrittenKeys(us[..|us| - 1], k);
      var i :| 0 <= i < |us| - 1 && us[..|us| - 1][i].key == k;
      assert us[i].key == k;
    }
  }

  lemma {:induction false} SetUnderHas(us: seq<Upsert>, i: nat, f: string)
    requires i < |us| && f in us[i].rec
    ensures f in SetUnder(us, us[i].key)
    decreases |us|
  {
    if i < |us| - 1 {
      assert us[..|us| - 1][i] == us[i];
      SetUnderHas(us[..|us| - 1], i, f);
    }
  }

  lemma {:induction false} SetUnderUnwritten(us: seq<Upsert>, k: string)
    requires k !in Written(us)
    ensures SetUnder(us, k) == map[]
    decreases |us|
  {
    if us != [] {
      SetUnderUnwritten(us[..|us| - 1], k);
    }
  }

  /** `PTTPipeline`: the collection behind `self.ptt_col`. */
  class PttPipeline {
    var collection: Store

    constructor(st: Store)
      ensures collection == st
    {
      collection := st;
    }

    /** `process_item`: upsert the post, then each comment. `None`: the item
        has no title; the lookup raises before anything is written. */
    method ProcessItem(sha: Hash, item: Post) returns (r: Option<Post>)
      modifies this
      ensures item.title.None? ==> r.None? && collection == old(collection)
      ensures item.title.Some? ==>
        r == Some(ItemAfter(item)) && collection == ApplyAll(old(collection), ItemUpserts(sha, item).value)
    {
      var post := PostRecord(item);
      if post.None? {
        return None;
      }
      var first := Upsert(item.id, post.value);
      collection := Apply(collection, first);
      ghost var mid := collection;
      assert mid == ApplyAll(old(collection), [first]);
      UpsertComments(sha, item);
      ApplyAllAppend(old(collection), [first], CommentUpserts(sha, item, |item.comments|));
      r := Some(ItemAfter(item));
    }

    /** The loop of `process_item`: one upsert per comment, in order. */
    method UpsertComments(sha: Hash, item: Post)
      modifies this
      ensures collection == ApplyAll(old(collection), CommentUpserts(sha, item, |item.comments|))
    {
      var i := 0;
      assert CommentUpserts(sha, item, 0) == [];
      while i < |item.comments|
        invariant 0 <= i <= |item.comments|
        invariant collection == ApplyAll(old(collection), CommentUpserts(sha, item, i))
      {
        var c := item.comments[i];
        var u := Upsert(CommentKey(sha, item.id, c.author, c.published), CommentRecord(sha, item, c));
        collection := Apply(collection, u);
        ApplyAllSnoc(old(collection), CommentUpserts(sha, item, i), u);
        CommentUpsertsSnoc(sha, item, i);
        i := i + 1;
      }
    }
  }

  // ---------------------------------------------------------------------
  // JSON-lines export

  /** A `JsonLinesItemExporter` on an open file: where it writes, the
      records written so far, and whether it has been finished and closed. */
  datatype Exporter = Exporter(path: string, lines: seq<Record>, finished: bool)

  /** The file of a board's exporter. */
  function ExportPath(board: string): (p: string)
    ensures StartsWith(p, "/data/rawdata/") && EndsWith(p, ".jsonl")
    ensures |p| == |"/data/rawdata/"| + |board| + |".jsonl"|
    ensures p[|"/data/rawdata/"|..|p| - |".jsonl"|] == board
  {
    "/data/rawdata/" + board + ".jsonl"
  }

  /** Different boards write to different files. */
  lemma ExportPathInjective(a: string, b: string)
    requires ExportPath(a) == ExportPath(b)
    ensures a == b
  {
    assert a == ExportPath(a)[|"/data/rawdata/"|..|ExportPath(a)| - |".jsonl"|];
  }

  /** What `JsonPipeline.process_item` writes: the post record when there
      are no comments, otherwise one record per comment in order. `None`:
      the item has no title. */
  function ExportRecords(sha: Hash, item: Post): (r: Option<seq<Record>>)
    ensures r.Some? <==> item.title.Some?
    ensures r.Some? && item.comments == [] ==> r.value == [PostRecord(item).value]
    ensures r.Some? && item.comments != [] ==>
      |r.value| == |item.comments| &&
      forall i :: 0 <= i < |item.comments| ==> r.value[i] == CommentRecord(sha, item, item.comments[i])
  {
    if item.title.None? then None
    else if item.comments == [] then Some([PostRecord(item).value])
    else Some(CommentRecords(sha, item, |item.comments|))
  }

  /** The records of the first `n` comments. */
  function CommentRecords(sha: Hash, item: Post, n: nat): (r: seq<Record>)
    requires n <= |item.comments|
    ensures |r| == n
    ensures forall i :: 0 <= i < n ==> r[i] == CommentRecord(sha, item, item.comments[i])
  {
    seq(n, i requires 0 <= i < n => CommentRecord(sha, item, item.comments[i]))
  }

  lemma CommentRecordsSnoc(sha: Hash, item: Post, n: nat)
    requires n < |item.comments|
    ensures CommentRecords(sha, item, n + 1) == CommentRecords(sha, item, n) + [CommentRecord(sha, item, item.comments[n])]
  {
  }

  /** A post with comments is exported only through its comments, each of
      which names it; the post record itself is not written. */
  lemma ExportedRecordsNamePost(sha: Hash, item: Post)
    requires item.title.Some? && item.comments != []
    ensures forall rec :: rec in ExportRecords(sha, item).value ==>
      rec.Keys == CommentFields && rec["post_id"] == Str(item.id)
    ensures PostRecord(item).value !in ExportRecords(sha, item).value
  {
    var recs := ExportRecords(sha, item).value;
    forall rec | rec in recs
      ensures rec.Keys == CommentFields && rec["post_id"] == Str(item.id)
    {
      var i :| 0 <= i < |recs| && recs[i] == rec;
      CommentRecordFields(sha, item, item.comments[i]);
    }
    PostRecordFields(item);
  }

  /** The exporter of `board` in `exs`, a fresh one if there is none yet. */
  function ExporterOf(exs: map<string, Exporter>, board: string): Exporter {
    if board in exs then exs[board] else Exporter(ExportPath(board), [], false)
  }

  /** `recs` written through the exporter of `board`. */
  function Exported(exs: map<string, Exporter>, board: string, recs: seq<Record>): (r: map<string, Exporter>)
    ensures r.Keys == exs.Keys + {board}
    ensures r[board].lines == ExporterOf(exs, board).lines + recs
    ensures forall b :: b in exs && b != board ==> r[b] == exs[b]
  {
    var e := ExporterOf(exs, board);
    exs[board := e.(lines := e.lines + recs)]
  }

  /** Every exporter writes the file of its own board. */
  ghost predicate PathsMatch(exs: map<string, Exporter>) {
    forall b :: b in exs ==> exs[b].path == ExportPath(b)
  }

  lemma ExportedKeepsPaths(exs: map<string, Exporter>, board: string, recs: seq<Record>)
    requires PathsMatch(exs)
    ensures PathsMatch(Exported(exs, board, recs))
  {
  }

  /** Two items of one board share one exporter, whose lines are both
      items' records in order. */
  lemma ExportedTwice(exs: map<string, Exporter>, board: string, a: seq<Record>, b: seq<Record>)
    ensures Exported(Exported(exs, board, a), board, b) == Exported(exs, board, a + b)
  {
    var e := ExporterOf(exs, board);
    assert e.lines + a + b == e.lines + (a + b);
  }

  /** `JsonPipeline`: `board_to_exporter`. */
  class JsonPipeline {
    var exporters: map<string, Exporter>

    constructor()
      ensures exporters == map[]
    {
      exporters := map[];
    }

    /** `open_spider`: no exporter yet. */
    method OpenSpider()
      modifies this
      ensures exporters == map[]
    {
      exporters := map[];
    }

    /** `_exporter_for_item`: the board's exporter, opened (with its file
        truncated) on the board's first item and reused afterwards. */
    method ExporterFor(board: string)
      modifies this
      ensures board in exporters
      ensures exporters == old(exporters)[board := ExporterOf(old(exporters), board)]
      ensures board in old(exporters) ==> exporters == old(exporters)
    {
      if board !in exporters {
        exporters := exporters[board := Exporter(ExportPath(board), [], false)];
      }
    }

    /** `export_item` on the board's exporter. */
    method Export(board: string, rec: Record)
      modifies this
      ensures exporters == Exported(old(exporters), board, [rec])
    {
      ExporterFor(board);
      var e := exporters[board];
      exporters := exporters[board := e.(lines := e.lines + [rec])];
    }

    /** `process_item`. `None`: the item has no title; the lookup raises
        and nothing is written. */
    method ProcessItem(sha: Hash, item: Post) returns (r: Option<Post>)
      modifies this
      ensures item.title.None? ==> r.None? && exporters == old(exporters)
      ensures item.title.Some? ==>
        r == Some(ItemAfter(item)) &&
        exporters == Exported(old(exporters), item.board, ExportRecords(sha, item).value)
    {
      var post := PostRecord(item);
      if post.None? {
        return None;
      }
      if |item.comments| == 0 {
        Export(item.board, post.value);
      } else {
        var first := CommentRecord(sha, item, item.comments[0]);
        ghost var done := [first];
        Export(item.board, first);
        assert done == CommentRecords(sha, item, 1);
        var i := 1;
        while i < |item.comments|
          invariant 1 <= i <= |item.comments|
          invariant done == CommentRecords(sha, item, i)
          invariant exporters == Exported(old(exporters), item.board, done)
        {
          var rec := CommentRecord(sha, item, item.comments[i]);
          Export(item.board, rec);
          ExportedTwice(old(exporters), item.board, done, [rec]);
          CommentRecordsSnoc(sha, item, i);
          done := done + [rec];
          i := i + 1;
        }
      }
      r := Some(ItemAfter(item));
    }

    /** `close_spider`: every exporter finished and its file closed. */
    method CloseSpider()
      modifies this
      ensures exporters.Keys == old(exporters).Keys
      ensures forall b :: b in exporters ==> exporters[b] == old(exporters)[b].(finished := true)
    {
      var todo := exporters.Keys;
      while todo != {}
        invariant todo <= exporters.Keys && exporters.Keys == old(exporters).Keys
        invariant forall b :: b in exporters && b !in todo ==> exporters[b] == old(exporters)[b].(finished := true)
        invariant forall b :: b in todo ==> exporters[b] == old(exporters)[b]
        decreases todo
      {
        var b :| b in todo;
        exporters := exporters[b := exporters[b].(finished := true)];
        todo := todo - {b};
      }
    }
  }
}
