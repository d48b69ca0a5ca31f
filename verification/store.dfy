/**
 * The database the services share, as in-memory tables.
 *
 * Each table maps a row id to a record. One counter issues the ids of every
 * table, in creation order, so ordering rows by `createdAt` is ordering them by
 * id. The record types keep the columns the services read or write.
 */
module Store {
  import opened Common
  import Claude
  import Spider

  /** An official account (table `officialAccount`). */
  datatype Account = Account(
    userId: nat,
    name: string,
    description: string,
    avatarUrl: string,
    wechatId: string,
    biz: string,
    reservedFields: Json,
    isActive: bool)

  /** The status column of an article. */
  datatype ArticleStatus = Pending | Downloading | Extracting | Completed | Error

  /** The `rawContent` column: `{}` until the crawler's data object is stored. */
  datatype RawContent = EmptyObject | Crawled(data: Spider.SpiderData)

  /** An article; an unset `markdownContent`, `authorName` or `errorMessage` is "". */
  datatype Article = Article(
    accountId: nat,
    url: string,
    newsId: string,
    title: string,
    rawContent: RawContent,
    markdownContent: string,
    authorName: string,
    publishTime: Option<string>,
    status: ArticleStatus,
    errorMessage: string,
    extractionCount: nat)

  /** A dimension template; an unset `description` or `promptTemplate` is "". */
  datatype Template = Template(
    accountId: nat,
    name: string,
    description: string,
    fields: seq<Claude.Field>,
    promptTemplate: string,
    modelPreference: Claude.ModelPreference,
    isLocked: bool,
    isActive: bool,
    sortOrder: int)

  /** The status column of an extraction result. */
  datatype ResultStatus = Extracting | Completed | Failed

  /** The batch id `${articleId}-${templateId}-${Date.now()}`; the clock reading
      is an input. */
  datatype BatchId = BatchId(articleId: nat, templateId: nat, time: nat)

  /** An extraction result row; an unset `tokensUsed` or `extractionTime` is 0,
      an unset `errorMessage` is "". */
  datatype ExtractionRow = ExtractionRow(
    articleId: nat,
    templateId: nat,
    batchId: BatchId,
    data: Json,
    modelUsed: string,
    tokensUsed: nat,
    extractionTime: nat,
    status: ResultStatus,
    errorMessage: string)

  class Database {
    var accounts: map<nat, Account>
    var articles: map<nat, Article>
    var templates: map<nat, Template>
    var results: map<nat, ExtractionRow>
    var nextId: nat

    /** Every id was issued by the counter, and every reference points at a
        stored row: an article and a template at their account, a result at its
        article and its template. */
    ghost predicate Valid()
      reads this
    {
      && (forall id :: id in accounts ==> id < nextId)
      && (forall id :: id in articles ==> id < nextId && articles[id].accountId in accounts)
      && (forall id :: id in templates ==> id < nextId && templates[id].accountId in accounts)
      && (forall id :: id in results ==>
            id < nextId && results[id].articleId in articles && results[id].templateId in templates)
    }

    constructor ()
      ensures Valid()
      ensures accounts == map[] && articles == map[] && templates == map[] && results == map[]
      ensures nextId == 0
    {
      accounts := map[];
      articles := map[];
      templates := map[];
      results := map[];
      nextId := 0;
    }

    /** Issues a fresh id: larger than every stored id. */
    method NewId() returns (id: nat)
      requires Valid()
      modifies this
      ensures Valid()
      ensures id == old(nextId) && nextId == id + 1
      ensures accounts == old(accounts) && articles == old(articles)
      ensures templates == old(templates) && results == old(results)
      ensures id !in accounts && id !in articles && id !in templates && id !in results
    {
      id := nextId;
      nextId := nextId + 1;
    }

    /** Creates an article under a stored account. */
    method AddArticle(a: Article) returns (id: nat)
      requires Valid() && a.accountId in accounts
      modifies this
      ensures Valid()
      ensures id == old(nextId) && nextId == id + 1 && id !in old(articles)
      ensures articles == old(articles)[id := a]
      ensures accounts == old(accounts) && templates == old(templates) && results == old(results)
    {
      id := NewId();
      articles := articles[id := a];
    }

    /** Rewrites a stored account. */
    method PutAccount(id: nat, a: Account)
      requires Valid() && id in accounts
      modifies this
      ensures Valid()
      ensures accounts == old(accounts)[id := a]
      ensures articles == old(articles) && templates == old(templates) && results == old(results) && nextId == old(nextId)
    {
      accounts := accounts[id := a];
    }

    /** Rewrites a stored article, keeping it under a stored account. */
    method PutArticle(id: nat, a: Article)
      requires Valid() && id in articles && a.accountId in accounts
      modifies this
      ensures Valid()
      ensures articles == old(articles)[id := a]
      ensures accounts == old(accounts) && templates == old(templates) && results == old(results) && nextId == old(nextId)
    {
      articles := articles[id := a];
    }

    /** Rewrites a stored template, keeping it under a stored account. */
    method PutTemplate(id: nat, t: Template)
      requires Valid() && id in templates && t.accountId in accounts
      modifies this
      ensures Valid()
      ensures templates == old(templates)[id := t]
      ensures accounts == old(accounts) && articles == old(articles) && results == old(results) && nextId == old(nextId)
    {
      templates := templates[id := t];
    }

    /** Rewrites a stored extraction row, keeping its references valid. */
    method PutResult(id: nat, r: ExtractionRow)
      requires Valid() && id in results && r.articleId in articles && r.templateId in templates
      modifies this
      ensures Valid()
      ensures results == old(results)[id := r]
      ensures accounts == old(accounts) && articles == old(articles) && templates == old(templates) && nextId == old(nextId)
    {
      results := results[id := r];
    }

    /** Creates one extraction row. */
    method AddResult(row: ExtractionRow) returns (id: nat)
      requires Valid() && row.articleId in articles && row.templateId in templates
      modifies this
      ensures Valid()
      ensures id == old(nextId) && nextId == id + 1 && id !in old(results)
      ensures results == old(results)[id := row]
      ensures accounts == old(accounts) && articles == old(articles) && templates == old(templates)
    {
      id := NewId();
      results := results[id := row];
    }

    /** Creates extraction rows one after another, in order. */
    method AddResults(rows: seq<ExtractionRow>)
      requires Valid()
      requires forall i :: 0 <= i < |rows| ==> rows[i].articleId in articles && rows[i].templateId in templates
      modifies this
      ensures Valid()
      ensures results == AppendRows(old(results), old(nextId), rows)
      ensures nextId == old(nextId) + |rows|
      ensures accounts == old(accounts) && articles == old(articles) && templates == old(templates)
    {
      var i := 0;
      while i < |rows|
        invariant 0 <= i <= |rows|
        invariant Valid()
        invariant nextId == old(nextId) + i
        invariant results == AppendRows(old(results), old(nextId), rows[..i])
        invariant accounts == old(accounts) && articles == old(articles) && templates == old(templates)
      {
        AppendRowsExtend(old(results), old(nextId), rows, i);
        var _ := AddResult(rows[i]);
        i := i + 1;
      }
      assert rows[..i] == rows;
    }

    /** Deletes an extraction row. */
    method DeleteResult(id: nat)
      requires Valid()
      modifies this
      ensures Valid()
      ensures results == old(results) - {id}
      ensures accounts == old(accounts) && articles == old(articles) && templates == old(templates) && nextId == old(nextId)
    {
      results := results - {id};
    }
  }

  // ---------------------------------------------------------------------------
  // Ordered selections

  /** The ids below `bound` of the rows that pass `p`, oldest first
      (`orderBy: { createdAt: 'asc' }`). */
  function OldestFirst<T>(m: map<nat, T>, p: T -> bool, bound: nat): (ids: seq<nat>)
    ensures forall k :: 0 <= k < |ids| ==> ids[k] < bound && ids[k] in m && p(m[ids[k]])
    ensures forall id :: id < bound && id in m && p(m[id]) ==> id in ids
    ensures forall j, k :: 0 <= j < k < |ids| ==> ids[j] < ids[k]
  {
    if bound == 0 then []
    else
      var older := OldestFirst(m, p, bound - 1);
      if bound - 1 in m && p(m[bound - 1]) then older + [bound - 1] else older
  }

  /** The ids below `bound` of the rows that pass `p`, newest first
      (`orderBy: { createdAt: 'desc' }`). */
  function NewestFirst<T>(m: map<nat, T>, p: T -> bool, bound: nat): (ids: seq<nat>)
    ensures forall k :: 0 <= k < |ids| ==> ids[k] < bound && ids[k] in m && p(m[ids[k]])
    ensures forall id :: id < bound && id in m && p(m[id]) ==> id in ids
    ensures forall j, k :: 0 <= j < k < |ids| ==> ids[j] > ids[k]
  {
    if bound == 0 then []
    else
      var older := NewestFirst(m, p, bound - 1);
      if bound - 1 in m && p(m[bound - 1]) then [bound - 1] + older else older
  }

  /** Counting splits over a disjoint union: when a row passes `p` exactly when
      it passes one of `q` and `s`, and never both, the rows passing `p` are as
      many as those passing `q` and those passing `s` together. */
  lemma {:induction false} NewestFirstSplit<T>(m: map<nat, T>, p: T -> bool, q: T -> bool, s: T -> bool, bound: nat)
    requires forall x :: p(x) == (q(x) || s(x))
    requires forall x :: !(q(x) && s(x))
    ensures |NewestFirst(m, p, bound)| == |NewestFirst(m, q, bound)| + |NewestFirst(m, s, bound)|
  {
    if bound > 0 {
      NewestFirstSplit(m, p, q, s, bound - 1);
    }
  }

  /** `x` comes before `y` when its key is smaller, or the keys tie and it is older. */
  predicate Before(key: nat -> int, x: nat, y: nat)
  {
    key(x) < key(y) || (key(x) == key(y) && x < y)
  }

  predicate SortedBy(key: nat -> int, xs: seq<nat>)
  {
    forall j, k :: 0 <= j < k < |xs| ==> Before(key, xs[j], xs[k])
  }

  function Insert(key: nat -> int, x: nat, xs: seq<nat>): (r: seq<nat>)
    requires SortedBy(key, xs) && x !in xs
    ensures SortedBy(key, r)
    ensures multiset(r) == multiset(xs) + multiset{x}
  {
    if xs == [] then [x]
    else if Before(key, x, xs[0]) then [x] + xs
    else
      var rest := Insert(key, x, xs[1..]);
      InsertKeepsHeadFirst(key, x, xs, rest);
      assert xs == [xs[0]] + xs[1..];
      [xs[0]] + rest
  }

  /** When `x` does not go before the head of `xs`, the head goes before
      everything the rest turns into. */
  lemma InsertKeepsHeadFirst(key: nat -> int, x: nat, xs: seq<nat>, rest: seq<nat>)
    requires xs != [] && SortedBy(key, xs) && x !in xs && !Before(key, x, xs[0])
    requires SortedBy(key, rest) && multiset(rest) == multiset(xs[1..]) + multiset{x}
    ensures SortedBy(key, [xs[0]] + rest)
  {
    forall k | 0 <= k < |rest| ensures Before(key, xs[0], rest[k]) {
      assert rest[k] in multiset(rest);
      if rest[k] != x {
        assert rest[k] in multiset(xs[1..]);
        var j :| 0 <= j < |xs[1..]| && xs[1..][j] == rest[k];
        assert xs[j + 1] == rest[k];
      }
    }
    var r := [xs[0]] + rest;
    forall j, k | 0 <= j < k < |r| ensures Before(key, r[j], r[k]) {
      if j > 0 {
        assert r[j] == rest[j - 1] && r[k] == rest[k - 1];
      } else {
        assert r[k] == rest[k - 1];
      }
    }
  }

  /** `orderBy` on a key: the ids sorted by key, ties broken by age. */
  function SortByKey(key: nat -> int, xs: seq<nat>): (r: seq<nat>)
    requires forall j, k :: 0 <= j < k < |xs| ==> xs[j] != xs[k]
    ensures SortedBy(key, r)
    ensures multiset(r) == multiset(xs)
  {
    if xs == [] then []
    else
      var rest := SortByKey(key, xs[1..]);
      HeadNotInTail(xs);
      assert xs == [xs[0]] + xs[1..];
      Insert(key, xs[0], rest)
  }

  /** In a list without repeats, the head does not occur in the tail. */
  lemma HeadNotInTail(xs: seq<nat>)
    requires xs != [] && forall j, k :: 0 <= j < k < |xs| ==> xs[j] != xs[k]
    ensures xs[0] !in multiset(xs[1..])
  {
  }

  // ---------------------------------------------------------------------------
  // Extraction rows

  /** Whether `findMany({ where: { articleId, templateId }, take: 1 })` finds a row. */
  predicate HasRow(results: map<nat, ExtractionRow>, articleId: nat, templateId: nat)
  {
    exists id :: id in results && results[id].articleId == articleId && results[id].templateId == templateId
  }

  /** The ids of the rows of one article and one template. */
  function PairRows(results: map<nat, ExtractionRow>, articleId: nat, templateId: nat): set<nat>
  {
    set id | id in results && results[id].articleId == articleId && results[id].templateId == templateId
  }

  /** The ids of the rows of one article. */
  function ArticleRows(results: map<nat, ExtractionRow>, articleId: nat): set<nat>
  {
    set id | id in results && results[id].articleId == articleId
  }

  lemma HasRowIffPairRows(results: map<nat, ExtractionRow>, articleId: nat, templateId: nat)
    ensures HasRow(results, articleId, templateId) <==> PairRows(results, articleId, templateId) != {}
  {
    if HasRow(results, articleId, templateId) {
      var id :| id in results && results[id].articleId == articleId && results[id].templateId == templateId;
      assert id in PairRows(results, articleId, templateId);
    }
  }

  /** `rows` created one after another, taking the ids `from`, `from + 1`, ... */
  function AppendRows(results: map<nat, ExtractionRow>, from: nat, rows: seq<ExtractionRow>): (r: map<nat, ExtractionRow>)
    requires forall id :: id in results ==> id < from
    ensures forall id :: id in r <==> id in results || from <= id < from + |rows|
    ensures forall id :: id in results ==> r[id] == results[id]
    ensures forall i :: 0 <= i < |rows| ==> r[from + i] == rows[i]
    decreases |rows|
  {
    if rows == [] then results
    else
      var r := AppendRows(results[from := rows[0]], from + 1, rows[1..]);
      assert forall i :: 1 <= i < |rows| ==> rows[i] == rows[1..][i - 1];
      r
  }

  /** Creating one more row extends the appended rows by that row. */
  lemma AppendRowsExtend(results: map<nat, ExtractionRow>, from: nat, rows: seq<ExtractionRow>, i: nat)
    requires forall id :: id in results ==> id < from
    requires i < |rows|
    ensures AppendRows(results, from, rows[..i + 1]) == AppendRows(results, from, rows[..i])[from + i := rows[i]]
  {
    var a := AppendRows(results, from, rows[..i + 1]);
    var b := AppendRows(results, from, rows[..i])[from + i := rows[i]];
    assert a.Keys == b.Keys;
    forall id | id in a ensures a[id] == b[id] {
      if id !in results && id != from + i {
        assert rows[..i + 1][id - from] == rows[..i][id - from];
      }
    }
  }

  /** The ids `from, ..., from + n - 1`. */
  function Range(from: nat, n: nat): (r: set<nat>)
    ensures forall id :: id in r <==> from <= id < from + n
    ensures |r| == n
  {
    if n == 0 then {}
    else
      var s := Range(from, n - 1);
      assert from + n - 1 !in s;
      s + {from + n - 1}
  }
}
