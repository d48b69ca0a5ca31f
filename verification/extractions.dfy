/**
 * The extraction service (backend/src/extractions/extractions.service.ts):
 * extraction with one template on demand (`extractForArticle`, which leaves a
 * placeholder row, and its background run `performExtraction`), extraction
 * with every locked template of the article's account (`extractAllForArticle`),
 * and the paged, searchable list of one template's rows (`findByTemplate`).
 *
 * A background run is a separate, later call of `PerformExtraction`, given the
 * article as it was read and the template it was checked against. The clock
 * (`Date.now()` in a batch id), the AI service and `JSON.stringify` are inputs.
 */
module Extractions {
  import opened Common
  import opened Store
  import Claude
  import Articles
  import Dimensions
  import Spider

  const ArticleUnusable := "文章提取失败,无法进行内容提取"
  const AlreadyExtracted := "该文章已使用此维度模板提取过"
  const NoLockedTemplates := "该公众号没有已锁定的维度模板"
  const AlreadyDone := "已提取过"
  const Submitted := "提取任务已提交,正在后台处理中"

  /** The tables one extraction changes. */
  datatype Tables = Tables(articles: map<nat, Article>, results: map<nat, ExtractionRow>, nextId: nat)

  /** Every result id was issued before the counter's current value. */
  ghost predicate IdsBelow(results: map<nat, ExtractionRow>, nextId: nat)
  {
    forall id :: id in results ==> id < nextId
  }

  // ---------------------------------------------------------------------------
  // One template: the request

  /** The checks of `extractForArticle`, in the order it makes them: the
      article must be the caller's, must not have failed, the template must be
      the caller's, and the pair must have no row yet. On success, the template
      to extract with. */
  function Admission(accounts: map<nat, Account>, articles: map<nat, Article>, templates: map<nat, Template>,
      results: map<nat, ExtractionRow>, articleId: nat, templateId: nat, userId: nat): (r: Result<Template, Exception>)
    ensures r.Ok? <==>
      && Articles.FindOne(accounts, articles, articleId, userId).Ok?
      && articles[articleId].status != ArticleStatus.Error
      && Dimensions.FindOne(accounts, templates, templateId, userId).Ok?
      && !HasRow(results, articleId, templateId)
    ensures r.Ok? ==> r.value == templates[templateId]
    ensures Articles.FindOne(accounts, articles, articleId, userId).Err? ==>
      r == Err(Articles.FindOne(accounts, articles, articleId, userId).error)
    ensures Articles.FindOne(accounts, articles, articleId, userId).Ok? && articles[articleId].status == ArticleStatus.Error ==>
      r == Err(BadRequest(ArticleUnusable))
    ensures Articles.FindOne(accounts, articles, articleId, userId).Ok? && articles[articleId].status != ArticleStatus.Error ==>
      (Dimensions.FindOne(accounts, templates, templateId, userId).Err? ==>
         r == Err(Dimensions.FindOne(accounts, templates, templateId, userId).error))
      && (Dimensions.FindOne(accounts, templates, templateId, userId).Ok? && HasRow(results, articleId, templateId) ==>
         r == Err(BadRequest(AlreadyExtracted)))
  {
    match Articles.FindOne(accounts, articles, articleId, userId)
    case Err(e) => Err(e)
    case Ok(a) =>
      if a.status == ArticleStatus.Error then Err(BadRequest(ArticleUnusable))
      else match Dimensions.FindOne(accounts, templates, templateId, userId)
        case Err(e) => Err(e)
        case Ok(t) => if HasRow(results, articleId, templateId) then Err(BadRequest(AlreadyExtracted)) else Ok(t)
  }

  /** The placeholder row: empty data, the template's model preference, status
      `extracting`, and the batch id of this request. */
  function Placeholder(articleId: nat, templateId: nat, t: Template, time: nat): ExtractionRow
  {
    ExtractionRow(articleId, templateId, BatchId(articleId, templateId, time), JObject([]),
      Claude.PreferenceName(t.modelPreference), 0, 0, ResultStatus.Extracting, "")
  }

  /** `extractForArticle`: after the checks, exactly one placeholder row is
      created and its id returned; a refused request writes nothing. */
  method ExtractForArticle(db: Database, articleId: nat, templateId: nat, userId: nat, time: nat) returns (r: Result<nat, Exception>)
    requires db.Valid()
    modifies db
    ensures db.Valid()
    ensures match Admission(old(db.accounts), old(db.articles), old(db.templates), old(db.results), articleId, templateId, userId)
      case Err(e) => r == Err(e) && db.results == old(db.results) && db.nextId == old(db.nextId)
      case Ok(t) =>
        && r == Ok(old(db.nextId)) && old(db.nextId) !in old(db.results)
        && db.results == old(db.results)[old(db.nextId) := Placeholder(articleId, templateId, t, time)]
        && db.nextId == old(db.nextId) + 1
    ensures db.accounts == old(db.accounts) && db.articles == old(db.articles) && db.templates == old(db.templates)
  {
    match Admission(db.accounts, db.articles, db.templates, db.results, articleId, templateId, userId) {
      case Err(e) =>
        r := Err(e);
      case Ok(t) =>
        var id := db.AddResult(Placeholder(articleId, templateId, t, time));
        r := Ok(id);
    }
  }

  /** Once a request is admitted, the same request is refused: the placeholder
      already counts as a row of the pair. */
  lemma SecondRequestRefused(accounts: map<nat, Account>, articles: map<nat, Article>, templates: map<nat, Template>,
      results: map<nat, ExtractionRow>, nextId: nat, articleId: nat, templateId: nat, userId: nat, time: nat)
    requires Admission(accounts, articles, templates, results, articleId, templateId, userId).Ok?
    ensures var t := templates[templateId];
      var after := results[nextId := Placeholder(articleId, templateId, t, time)];
      Admission(accounts, articles, templates, after, articleId, templateId, userId) == Err(BadRequest(AlreadyExtracted))
  {
    var after := results[nextId := Placeholder(articleId, templateId, templates[templateId], time)];
    assert after[nextId].articleId == articleId && after[nextId].templateId == templateId;
    assert HasRow(after, articleId, templateId);
  }

  // ---------------------------------------------------------------------------
  // One template: the background run

  /** The text sent to the model: the article's markdown, or its serialised raw
      data when there is no markdown. */
  function ArticleContent(a: Article, stringify: RawContent -> string): (text: string)
    ensures a.markdownContent != [] ==> text == a.markdownContent
    ensures a.markdownContent == [] ==> text == stringify(a.rawContent)
  {
    if a.markdownContent != [] then a.markdownContent else stringify(a.rawContent)
  }

  /** Re-extracting a downloaded article gives the model the same text the
      download's own extraction gave it. */
  lemma ContentAgrees(a: Article, resp: Spider.SpiderResponse, stringify: RawContent -> string)
    ensures ArticleContent(Articles.Downloaded(a, resp), stringify) == Articles.Content(resp, stringify)
  {
  }

  /** The rows a reply becomes here: one per record, the tokens shared out and
      rounded down, and the time of the whole call on every row. */
  function Records(articleId: nat, templateId: nat, batch: BatchId, resp: Claude.ExtractionResponse): seq<ExtractionRow>
    requires |resp.data| > 0
  {
    var n := |resp.data|;
    seq(n, i requires 0 <= i < n =>
      ExtractionRow(articleId, templateId, batch, resp.data[i], resp.modelUsed,
        resp.tokensUsed / n, resp.extractionTime, ResultStatus.Completed, ""))
  }

  /** A row written for one record of a reply. */
  predicate RecordRow(row: ExtractionRow, articleId: nat, templateId: nat, batch: BatchId, resp: Claude.ExtractionResponse)
    requires |resp.data| > 0
  {
    && row.articleId == articleId && row.templateId == templateId && row.batchId == batch
    && row.modelUsed == resp.modelUsed && row.status == ResultStatus.Completed && row.errorMessage == ""
    && row.tokensUsed == resp.tokensUsed / |resp.data| && row.extractionTime == resp.extractionTime
  }

  /** Here the tokens are shared out (the rows add up to at most what the call
      cost, and lose less than one token per row) but the time is not: every row
      carries the whole call's time, so the rows add up to `n` times it. */
  lemma RecordsShares(articleId: nat, templateId: nat, batch: BatchId, resp: Claude.ExtractionResponse)
    requires |resp.data| > 0
    ensures var rows := Records(articleId, templateId, batch, resp);
      && |rows| == |resp.data|
      && Articles.SumTokens(rows) <= resp.tokensUsed < Articles.SumTokens(rows) + |rows|
      && Articles.SumTime(rows) == |rows| * resp.extractionTime
  {
    var n := |resp.data|;
    Articles.SumOfShares(Records(articleId, templateId, batch, resp), resp.tokensUsed / n, resp.extractionTime);
    Articles.ShareBounds(resp.tokensUsed, n);
  }

  /** `performExtraction`. A failed call (or an unreadable reply) turns the
      placeholder into a `failed` row carrying the error's message and changes
      nothing else. A reply with no record deletes the placeholder and marks the
      article `completed`. A reply with `n` records creates `n` `completed` rows
      of the placeholder's batch, deletes the placeholder, and adds `n` to the
      article's extraction count as it marks it `completed`. */
  function Performed(s: Tables, placeholderId: nat, articleId: nat, templateId: nat, batch: BatchId,
      call: Result<Claude.ExtractionResponse, string>): (r: Tables)
    requires IdsBelow(s.results, s.nextId) && placeholderId in s.results && articleId in s.articles
    ensures IdsBelow(r.results, r.nextId) && r.nextId >= s.nextId
    ensures r.articles.Keys == s.articles.Keys
    ensures forall id :: id in s.articles && id != articleId ==> r.articles[id] == s.articles[id]
    ensures forall id :: id in s.results && id != placeholderId ==> id in r.results && r.results[id] == s.results[id]
    ensures call.Err? ==>
        && r.articles == s.articles && r.nextId == s.nextId
        && r.results == s.results[placeholderId := s.results[placeholderId].(status := ResultStatus.Failed, errorMessage := call.error)]
    ensures call.Ok? ==>
        var n := |call.value.data|;
        && placeholderId !in r.results
        && r.nextId == s.nextId + n
        && r.articles[articleId] == s.articles[articleId].(extractionCount := s.articles[articleId].extractionCount + n,
                                                           status := ArticleStatus.Completed)
        && (forall id :: id in r.results ==> id in s.results || s.nextId <= id < s.nextId + n)
        && (forall id :: s.nextId <= id < s.nextId + n ==>
              id in r.results && r.results[id].data == call.value.data[id - s.nextId]
              && RecordRow(r.results[id], articleId, templateId, batch, call.value))
  {
    match call
    case Err(e) =>
      s.(results := s.results[placeholderId := s.results[placeholderId].(status := ResultStatus.Failed, errorMessage := e)])
    case Ok(resp) => Recorded(s, placeholderId, articleId, templateId, batch, resp)
  }

  /** The writes of a successful call: the reply's records are added, the
      placeholder is deleted and the article is settled. */
  function Recorded(s: Tables, placeholderId: nat, articleId: nat, templateId: nat, batch: BatchId,
      resp: Claude.ExtractionResponse): (r: Tables)
    requires IdsBelow(s.results, s.nextId) && placeholderId in s.results && articleId in s.articles
    ensures IdsBelow(r.results, r.nextId)
    ensures r.articles == s.articles[articleId := s.articles[articleId].(extractionCount := s.articles[articleId].extractionCount + |resp.data|,
                                                                         status := ArticleStatus.Completed)]
    ensures r.nextId == s.nextId + |resp.data| && placeholderId !in r.results
    ensures forall id :: id in s.results && id != placeholderId ==> id in r.results && r.results[id] == s.results[id]
    ensures forall id :: id in r.results ==> id in s.results || s.nextId <= id < s.nextId + |resp.data|
    ensures HoldsRecords(r.results, s.nextId, articleId, templateId, batch, resp)
  {
    var a := s.articles[articleId];
    var settled := a.(extractionCount := a.extractionCount + |resp.data|, status := ArticleStatus.Completed);
    assert placeholderId < s.nextId;
    if |resp.data| == 0 then Tables(s.articles[articleId := settled], s.results - {placeholderId}, s.nextId)
    else
      var results := AppendRows(s.results, s.nextId, Records(articleId, templateId, batch, resp));
      RecordsAppended(s.results, s.nextId, placeholderId, articleId, templateId, batch, resp);
      Tables(s.articles[articleId := settled], results - {placeholderId}, s.nextId + |resp.data|)
  }

  /** The ids from `from` on hold the reply's records, one row per record, in
      record order. */
  ghost predicate HoldsRecords(results: map<nat, ExtractionRow>, from: nat, articleId: nat, templateId: nat, batch: BatchId,
      resp: Claude.ExtractionResponse)
  {
    forall id :: from <= id < from + |resp.data| ==>
      id in results && results[id].data == resp.data[id - from] && RecordRow(results[id], articleId, templateId, batch, resp)
  }

  /** The appended records land at consecutive ids from `from`, one per record
      of the reply, and deleting an older row does not touch them. */
  lemma RecordsAppended(results: map<nat, ExtractionRow>, from: nat, placeholderId: nat, articleId: nat, templateId: nat,
      batch: BatchId, resp: Claude.ExtractionResponse)
    requires forall id :: id in results ==> id < from
    requires placeholderId < from && |resp.data| > 0
    ensures HoldsRecords(AppendRows(results, from, Records(articleId, templateId, batch, resp)) - {placeholderId},
      from, articleId, templateId, batch, resp)
  {
    var rows := Records(articleId, templateId, batch, resp);
    var appended: map<nat, ExtractionRow> := AppendRows(results, from, rows);
    var r: map<nat, ExtractionRow> := appended - {placeholderId};
    forall id | from <= id < from + |resp.data|
      ensures id in r && r[id].data == resp.data[id - from] && RecordRow(r[id], articleId, templateId, batch, resp)
    {
      assert appended[from + (id - from)] == rows[id - from];
      assert r[id] == appended[id];
    }
  }

  /** The background run, on the database: the article is the one read by the
      request, the template the one it was checked against. */
  method PerformExtraction(db: Database, placeholderId: nat, articleId: nat, templateId: nat, batch: BatchId,
      a: Article, t: Template, stringify: RawContent -> string,
      api: (string, string) -> Result<Claude.ApiReply, string>, parse: string -> Option<Json>)
    requires db.Valid() && placeholderId in db.results && articleId in db.articles && templateId in db.templates
    modifies db
    ensures db.Valid()
    ensures Tables(db.articles, db.results, db.nextId)
         == Performed(Tables(old(db.articles), old(db.results), old(db.nextId)), placeholderId, articleId, templateId, batch,
                      Claude.ExtractData(Articles.Request(ArticleContent(a, stringify), t), api, parse))
    ensures db.accounts == old(db.accounts) && db.templates == old(db.templates)
  {
    var call := Claude.ExtractData(Articles.Request(ArticleContent(a, stringify), t), api, parse);
    Settle(db, placeholderId, articleId, templateId, batch, call);
  }

  /** What the background run writes once the model has answered. */
  method Settle(db: Database, placeholderId: nat, articleId: nat, templateId: nat, batch: BatchId,
      call: Result<Claude.ExtractionResponse, string>)
    requires db.Valid() && placeholderId in db.results && articleId in db.articles && templateId in db.templates
    modifies db
    ensures db.Valid()
    ensures Tables(db.articles, db.results, db.nextId)
         == Performed(Tables(old(db.articles), old(db.results), old(db.nextId)), placeholderId, articleId, templateId, batch, call)
    ensures db.accounts == old(db.accounts) && db.templates == old(db.templates)
  {
    match call {
      case Err(e) =>
        db.PutResult(placeholderId, db.results[placeholderId].(status := ResultStatus.Failed, errorMessage := e));
      case Ok(resp) =>
        Complete(db, placeholderId, articleId, templateId, batch, resp);
    }
  }

  /** The writes after a reply: the records' rows, the placeholder's deletion,
      and the article's count and status. */
  method Complete(db: Database, placeholderId: nat, articleId: nat, templateId: nat, batch: BatchId, resp: Claude.ExtractionResponse)
    requires db.Valid() && placeholderId in db.results && articleId in db.articles && templateId in db.templates
    modifies db
    ensures db.Valid()
    ensures Tables(db.articles, db.results, db.nextId)
         == Performed(Tables(old(db.articles), old(db.results), old(db.nextId)), placeholderId, articleId, templateId, batch, Ok(resp))
    ensures db.accounts == old(db.accounts) && db.templates == old(db.templates)
  {
    if resp.data != [] {
      db.AddResults(Records(articleId, templateId, batch, resp));
    }
    db.DeleteResult(placeholderId);
    var current := db.articles[articleId];
    db.PutArticle(articleId, current.(extractionCount := current.extractionCount + |resp.data|, status := ArticleStatus.Completed));
  }

  /** The `completed` rows of an article. */
  function CompletedRows(results: map<nat, ExtractionRow>, articleId: nat): set<nat>
  {
    set id | id in results && results[id].articleId == articleId && results[id].status == ResultStatus.Completed
  }

  /** An article's extraction count agrees with its `completed` rows. This is
      what `performExtraction` preserves, not an invariant of the whole system:
      the background task in the article service sets the count to the number of
      all the article's rows, failed rows and placeholders included (see
      `Articles.FinishedCountsEveryRow`). */
  ghost predicate CountAgrees(s: Tables, articleId: nat)
  {
    articleId in s.articles && s.articles[articleId].extractionCount == |CompletedRows(s.results, articleId)|
  }

  /** The background run keeps an article's extraction count equal to the
      number of its `completed` rows, whatever the model replied: a failed run
      adds no such row and no count, a successful one adds `n` of each (the
      placeholder it deletes was never counted). */
  lemma PerformedKeepsCount(s: Tables, placeholderId: nat, articleId: nat, templateId: nat, batch: BatchId,
      call: Result<Claude.ExtractionResponse, string>)
    requires IdsBelow(s.results, s.nextId) && placeholderId in s.results && articleId in s.articles
    requires s.results[placeholderId].status == ResultStatus.Extracting
    requires CountAgrees(s, articleId)
    ensures CountAgrees(Performed(s, placeholderId, articleId, templateId, batch, call), articleId)
  {
    if call.Err? {
      var r := Performed(s, placeholderId, articleId, templateId, batch, call);
      assert CompletedRows(r.results, articleId) == CompletedRows(s.results, articleId);
    } else {
      RecordedKeepsCount(s, placeholderId, articleId, templateId, batch, call.value);
    }
  }

  /** The success half of `PerformedKeepsCount`: the `n` new rows are exactly
      the new `completed` rows of the article. */
  lemma RecordedKeepsCount(s: Tables, placeholderId: nat, articleId: nat, templateId: nat, batch: BatchId,
      resp: Claude.ExtractionResponse)
    requires IdsBelow(s.results, s.nextId) && placeholderId in s.results && articleId in s.articles
    requires s.results[placeholderId].status == ResultStatus.Extracting
    requires CountAgrees(s, articleId)
    ensures CountAgrees(Recorded(s, placeholderId, articleId, templateId, batch, resp), articleId)
  {
    var r := Recorded(s, placeholderId, articleId, templateId, batch, resp);
    assert forall id :: s.nextId <= id < s.nextId + |resp.data| ==>
      id in r.results && r.results[id].articleId == articleId && r.results[id].status == ResultStatus.Completed
    by {
      forall id | s.nextId <= id < s.nextId + |resp.data|
        ensures id in r.results && r.results[id].articleId == articleId && r.results[id].status == ResultStatus.Completed
      {
        assert RecordRow(r.results[id], articleId, templateId, batch, resp);
      }
    }
    CompletedRowsGrow(s.results, r.results, placeholderId, s.nextId, |resp.data|, articleId);
  }

  /** Dropping an `extracting` row and adding `n` completed rows of the article
      under fresh ids adds exactly `n` to the article's completed rows. */
  lemma CompletedRowsGrow(before: map<nat, ExtractionRow>, after: map<nat, ExtractionRow>, placeholderId: nat, from: nat, n: nat,
      articleId: nat)
    requires forall id :: id in before ==> id < from
    requires placeholderId in before && before[placeholderId].status == ResultStatus.Extracting && placeholderId !in after
    requires forall id :: id in before && id != placeholderId ==> id in after && after[id] == before[id]
    requires forall id :: id in after ==> id in before || from <= id < from + n
    requires forall id :: from <= id < from + n ==>
      id in after && after[id].articleId == articleId && after[id].status == ResultStatus.Completed
    ensures |CompletedRows(after, articleId)| == |CompletedRows(before, articleId)| + n
  {
    var had := CompletedRows(before, articleId);
    var has := CompletedRows(after, articleId);
    var added := Range(from, n);
    assert has == had + added;
    assert had * added == {};
  }

  /** One admitted request and its background run, as a whole, whatever the
      model replied: a pair that had no row ends with no row left
      `extracting`; after a failed call its only row is the `failed`
      placeholder, after a successful one its rows are exactly the `n` records
      of the reply. */
  lemma OneTemplateSettles(accounts: map<nat, Account>, templates: map<nat, Template>, s: Tables, articleId: nat, templateId: nat,
      userId: nat, time: nat, call: Result<Claude.ExtractionResponse, string>)
    requires IdsBelow(s.results, s.nextId)
    requires Admission(accounts, s.articles, templates, s.results, articleId, templateId, userId).Ok?
    ensures var placeholder := Placeholder(articleId, templateId, templates[templateId], time);
      var requested := Tables(s.articles, s.results[s.nextId := placeholder], s.nextId + 1);
      var r := Performed(requested, s.nextId, articleId, templateId, placeholder.batchId, call);
      && (forall id :: id in PairRows(r.results, articleId, templateId) ==> r.results[id].status != ResultStatus.Extracting)
      && (call.Err? ==> PairRows(r.results, articleId, templateId) == {s.nextId} && r.results[s.nextId].status == ResultStatus.Failed)
      && (call.Ok? ==> |PairRows(r.results, articleId, templateId)| == |call.value.data|)
  {
    var placeholder := Placeholder(articleId, templateId, templates[templateId], time);
    var requested := Tables(s.articles, s.results[s.nextId := placeholder], s.nextId + 1);
    var r := Performed(requested, s.nextId, articleId, templateId, placeholder.batchId, call);
    var pair := PairRows(r.results, articleId, templateId);
    assert forall id :: id in s.results ==> !(s.results[id].articleId == articleId && s.results[id].templateId == templateId);
    if call.Err? {
      assert pair == {s.nextId} by {
        forall id | id in pair ensures id == s.nextId {
        }
      }
    } else {
      var n := |call.value.data|;
      assert pair == Range(s.nextId + 1, n) by {
        forall id | id in pair ensures id in Range(s.nextId + 1, n) {
        }
        forall id | id in Range(s.nextId + 1, n) ensures id in pair {
          assert RecordRow(r.results[id], articleId, templateId, placeholder.batchId, call.value);
        }
      }
      forall id | id in pair ensures r.results[id].status != ResultStatus.Extracting {
        assert RecordRow(r.results[id], articleId, templateId, placeholder.batchId, call.value);
      }
    }
  }

  // ---------------------------------------------------------------------------
  // Every locked template

  /** One line of the fan-out's report: the template got a placeholder, was
      skipped because the pair already had a row (with that row's status), or
      its request was refused (with the error's message). */
  datatype LaunchItem =
    | Started(templateId: nat, templateName: string, resultId: nat)
    | Skipped(templateId: nat, templateName: string, message: string, status: ResultStatus)
    | Refused(templateId: nat, templateName: string, error: string)

  predicate Launched(item: LaunchItem)
  {
    item.Started?
  }

  predicate NotLaunched(item: LaunchItem)
  {
    !item.Started?
  }

  datatype LaunchReport = LaunchReport(articleId: nat, total: nat, started: nat, skipped: nat, results: seq<LaunchItem>, message: string)

  /** The report `extractAllForArticle` returns for its items. */
  function Report(articleId: nat, items: seq<LaunchItem>): (r: LaunchReport)
    ensures r.total == |items| && r.results == items
    ensures r.started + r.skipped == r.total
  {
    CountWhereSplit(items, Launched, NotLaunched);
    LaunchReport(articleId, |items|, CountWhere(items, Launched), CountWhere(items, NotLaunched), items, Submitted)
  }

  /** The locked templates of a list, in list order (`filter(t => t.isLocked)`). */
  function LockedOnly(templates: map<nat, Template>, ids: seq<nat>): (r: seq<nat>)
    ensures forall k :: 0 <= k < |r| ==> r[k] in ids && r[k] in templates && templates[r[k]].isLocked
    ensures forall k :: 0 <= k < |ids| && ids[k] in templates && templates[ids[k]].isLocked ==> ids[k] in r
    ensures (forall j, k :: 0 <= j < k < |ids| ==> ids[j] != ids[k]) ==> forall j, k :: 0 <= j < k < |r| ==> r[j] != r[k]
  {
    if ids == [] then []
    else
      var rest := LockedOnly(templates, ids[1..]);
      assert forall k :: 1 <= k < |ids| ==> ids[k] == ids[1..][k - 1];
      if ids[0] in templates && templates[ids[0]].isLocked then [ids[0]] + rest else rest
  }

  /** The rows of one article and one template. */
  function PairOf(articleId: nat, templateId: nat): ExtractionRow -> bool
  {
    (row: ExtractionRow) => row.articleId == articleId && row.templateId == templateId
  }

  lemma ExistingListed(results: map<nat, ExtractionRow>, nextId: nat, articleId: nat, templateId: nat)
    requires IdsBelow(results, nextId) && HasRow(results, articleId, templateId)
    ensures OldestFirst(results, PairOf(articleId, templateId), nextId) != []
  {
    var id :| id in results && results[id].articleId == articleId && results[id].templateId == templateId;
    assert PairOf(articleId, templateId)(results[id]);
  }

  /** The status of the row `findMany({ where: { articleId, templateId }, take: 1 })`
      returns, taken to be the oldest row of the pair. */
  function ExistingStatus(results: map<nat, ExtractionRow>, nextId: nat, articleId: nat, templateId: nat): (st: ResultStatus)
    requires IdsBelow(results, nextId) && HasRow(results, articleId, templateId)
    ensures exists id :: id in results && PairOf(articleId, templateId)(results[id]) && results[id].status == st
  {
    ExistingListed(results, nextId, articleId, templateId);
    var ids := OldestFirst(results, PairOf(articleId, templateId), nextId);
    results[ids[0]].status
  }

  /** The result table, the id counter and the report lines, as the fan-out
      changes them. */
  datatype Launch = Launch(results: map<nat, ExtractionRow>, nextId: nat, items: seq<LaunchItem>)

  /** The fan-out's work for one template: skip it when the pair has a row,
      otherwise make the request of `extractForArticle`. */
  function LaunchOne(s: Launch, accounts: map<nat, Account>, articles: map<nat, Article>, templates: map<nat, Template>,
      articleId: nat, userId: nat, templateId: nat, clock: nat -> nat): (r: Launch)
    requires IdsBelow(s.results, s.nextId) && templateId in templates
    ensures IdsBelow(r.results, r.nextId) && r.nextId >= s.nextId
    ensures |r.items| == |s.items| + 1 && r.items[..|s.items|] == s.items
    ensures r.items[|s.items|].templateId == templateId && r.items[|s.items|].templateName == templates[templateId].name
    ensures r.items[|s.items|].Skipped? ==>
      && HasRow(s.results, articleId, templateId) && r.items[|s.items|].message == AlreadyDone
      && r.items[|s.items|].status == ExistingStatus(s.results, s.nextId, articleId, templateId)
    ensures forall id :: id in s.results ==> id in r.results && r.results[id] == s.results[id]
    ensures forall id :: id in r.results && id !in s.results ==>
      r.results[id].articleId == articleId && r.results[id].templateId == templateId
  {
    var name := templates[templateId].name;
    if HasRow(s.results, articleId, templateId) then
      s.(items := s.items + [Skipped(templateId, name, AlreadyDone, ExistingStatus(s.results, s.nextId, articleId, templateId))])
    else match Admission(accounts, articles, templates, s.results, articleId, templateId, userId)
      case Err(e) => s.(items := s.items + [Refused(templateId, name, e.message)])
      case Ok(t) =>
        Launch(s.results[s.nextId := Placeholder(articleId, templateId, t, clock(templateId))], s.nextId + 1,
               s.items + [Started(templateId, name, s.nextId)])
  }

  /** The fan-out over a list of templates, one after another. */
  function LaunchAll(s: Launch, accounts: map<nat, Account>, articles: map<nat, Article>, templates: map<nat, Template>,
      articleId: nat, userId: nat, templateIds: seq<nat>, clock: nat -> nat): (r: Launch)
    requires IdsBelow(s.results, s.nextId)
    requires forall k :: 0 <= k < |templateIds| ==> templateIds[k] in templates
    ensures IdsBelow(r.results, r.nextId)
    ensures |r.items| == |s.items| + |templateIds| && r.items[..|s.items|] == s.items
    ensures forall id :: id in s.results ==> id in r.results && r.results[id] == s.results[id]
    decreases |templateIds|
  {
    if templateIds == [] then s
    else
      var next := LaunchOne(s, accounts, articles, templates, articleId, userId, templateIds[0], clock);
      var r := LaunchAll(next, accounts, articles, templates, articleId, userId, templateIds[1..], clock);
      assert r.items[..|s.items|] == r.items[..|next.items|][..|s.items|];
      r
  }

  /** A step for one template creates rows of that template only, so whether
      the article has a row with another template is unchanged. */
  lemma LaunchOneLeavesOtherPairs(s: Launch, accounts: map<nat, Account>, articles: map<nat, Article>, templates: map<nat, Template>,
      articleId: nat, userId: nat, templateId: nat, clock: nat -> nat, other: nat)
    requires IdsBelow(s.results, s.nextId) && templateId in templates && other != templateId
    ensures var r := LaunchOne(s, accounts, articles, templates, articleId, userId, templateId, clock);
      HasRow(r.results, articleId, other) == HasRow(s.results, articleId, other)
  {
    var r := LaunchOne(s, accounts, articles, templates, articleId, userId, templateId, clock);
    if HasRow(r.results, articleId, other) {
      var id :| id in r.results && r.results[id].articleId == articleId && r.results[id].templateId == other;
      assert id in s.results;
    }
  }

  /** Report lines `from`, `from + 1`, … are one per template of `templateIds`,
      in order: none refused, a skip says the pair was done, and a line is a
      start exactly when the pair had no row in `results`. */
  ghost predicate LinesFor(items: seq<LaunchItem>, from: nat, templateIds: seq<nat>, results: map<nat, ExtractionRow>, articleId: nat)
  {
    && from + |templateIds| <= |items|
    && forall k :: 0 <= k < |templateIds| ==>
        && items[from + k].templateId == templateIds[k]
        && !items[from + k].Refused?
        && (items[from + k].Skipped? ==> items[from + k].message == AlreadyDone)
        && (items[from + k].Started? <==> !HasRow(results, articleId, templateIds[k]))
  }

  /** With the article usable and every template the caller's, the fan-out
      over distinct templates starts exactly the templates whose pair had no row
      when it began and skips the others; no request is refused. */
  lemma {:induction false} LaunchAllOutcome(s: Launch, accounts: map<nat, Account>, articles: map<nat, Article>, templates: map<nat, Template>,
      articleId: nat, userId: nat, templateIds: seq<nat>, clock: nat -> nat)
    requires IdsBelow(s.results, s.nextId)
    requires forall k :: 0 <= k < |templateIds| ==> templateIds[k] in templates
    requires forall k :: 0 <= k < |templateIds| ==> Dimensions.FindOne(accounts, templates, templateIds[k], userId).Ok?
    requires forall j, k :: 0 <= j < k < |templateIds| ==> templateIds[j] != templateIds[k]
    requires Articles.FindOne(accounts, articles, articleId, userId).Ok? && articles[articleId].status != ArticleStatus.Error
    ensures LinesFor(LaunchAll(s, accounts, articles, templates, articleId, userId, templateIds, clock).items,
      |s.items|, templateIds, s.results, articleId)
    decreases |templateIds|
  {
    if templateIds != [] {
      var next := LaunchOne(s, accounts, articles, templates, articleId, userId, templateIds[0], clock);
      var rest := templateIds[1..];
      forall k | 0 <= k < |rest|
        ensures HasRow(next.results, articleId, rest[k]) == HasRow(s.results, articleId, rest[k])
      {
        assert rest[k] == templateIds[k + 1];
        LaunchOneLeavesOtherPairs(s, accounts, articles, templates, articleId, userId, templateIds[0], clock, rest[k]);
      }
      LaunchAllOutcome(next, accounts, articles, templates, articleId, userId, rest, clock);
      LaunchOneLine(s, accounts, articles, templates, articleId, userId, templateIds[0], clock);
      LaunchAllUnfold(s, accounts, articles, templates, articleId, userId, templateIds, clock);
      var r := LaunchAll(next, accounts, articles, templates, articleId, userId, rest, clock);
      LinesShift(|s.items|, next.items, r.items, templateIds, s.results, next.results, articleId);
    }
  }

  lemma LaunchAllUnfold(s: Launch, accounts: map<nat, Account>, articles: map<nat, Article>, templates: map<nat, Template>,
      articleId: nat, userId: nat, templateIds: seq<nat>, clock: nat -> nat)
    requires IdsBelow(s.results, s.nextId) && templateIds != []
    requires forall k :: 0 <= k < |templateIds| ==> templateIds[k] in templates
    ensures var next := LaunchOne(s, accounts, articles, templates, articleId, userId, templateIds[0], clock);
      LaunchAll(s, accounts, articles, templates, articleId, userId, templateIds, clock)
      == LaunchAll(next, accounts, articles, templates, articleId, userId, templateIds[1..], clock)
  {
  }

  /** The step for one template writes the line `LinesFor` expects when the
      request would be admitted. */
  lemma LaunchOneLine(s: Launch, accounts: map<nat, Account>, articles: map<nat, Article>, templates: map<nat, Template>,
      articleId: nat, userId: nat, templateId: nat, clock: nat -> nat)
    requires IdsBelow(s.results, s.nextId) && templateId in templates
    requires Dimensions.FindOne(accounts, templates, templateId, userId).Ok?
    requires Articles.FindOne(accounts, articles, articleId, userId).Ok? && articles[articleId].status != ArticleStatus.Error
    ensures LinesFor(LaunchOne(s, accounts, articles, templates, articleId, userId, templateId, clock).items,
      |s.items|, [templateId], s.results, articleId)
  {
  }

  /** The first step's line followed by the rest's lines are the lines of the
      whole list, provided the first step did not change which later pairs
      have rows. */
  lemma LinesShift(before: nat, step: seq<LaunchItem>, after: seq<LaunchItem>, templateIds: seq<nat>,
      results: map<nat, ExtractionRow>, stepResults: map<nat, ExtractionRow>, articleId: nat)
    requires templateIds != [] && |step| == before + 1 && |step| <= |after| && after[..|step|] == step
    requires LinesFor(step, before, [templateIds[0]], results, articleId)
    requires LinesFor(after, |step|, templateIds[1..], stepResults, articleId)
    requires forall k :: 0 <= k < |templateIds[1..]| ==>
      HasRow(stepResults, articleId, templateIds[1..][k]) == HasRow(results, articleId, templateIds[1..][k])
    ensures LinesFor(after, before, templateIds, results, articleId)
  {
    forall k | 0 <= k < |templateIds|
      ensures && after[before + k].templateId == templateIds[k]
              && !after[before + k].Refused?
              && (after[before + k].Skipped? ==> after[before + k].message == AlreadyDone)
              && (after[before + k].Started? <==> !HasRow(results, articleId, templateIds[k]))
    {
      if k == 0 {
        assert after[before] == after[..|step|][before] == step[before + 0];
        assert [templateIds[0]][0] == templateIds[0];
      } else {
        var rest := templateIds[1..];
        assert after[before + k] == after[|step| + (k - 1)] && templateIds[k] == rest[k - 1];
        assert HasRow(stepResults, articleId, rest[k - 1]) == HasRow(results, articleId, rest[k - 1]);
      }
    }
  }

  /** What `extractAllForArticle` leaves in the tables, with its report. */
  datatype Fanout = Fanout(articles: map<nat, Article>, results: map<nat, ExtractionRow>, nextId: nat, report: LaunchReport)

  /** `extractAllForArticle`: the article must be the caller's; the templates
      are the locked ones among the account's active templates, in list order;
      with none it is refused. Otherwise the article is marked `extracting`
      first, and then every template gets the request of `extractForArticle`
      unless the pair already has a row. */
  function ExtractAll(accounts: map<nat, Account>, articles: map<nat, Article>, templates: map<nat, Template>,
      results: map<nat, ExtractionRow>, nextId: nat, articleId: nat, userId: nat, clock: nat -> nat): (r: Result<Fanout, Exception>)
    requires IdsBelow(results, nextId)
    ensures Articles.FindOne(accounts, articles, articleId, userId).Err? ==>
      r == Err(Articles.FindOne(accounts, articles, articleId, userId).error)
    ensures r.Ok? ==>
      && articleId in articles
      && r.value.articles == articles[articleId := articles[articleId].(status := ArticleStatus.Extracting)]
      && r.value.report.articleId == articleId && r.value.report.message == Submitted
      && r.value.report.started + r.value.report.skipped == r.value.report.total == |r.value.report.results|
      && (forall id :: id in results ==> id in r.value.results && r.value.results[id] == results[id])
    ensures r.Err? && Articles.FindOne(accounts, articles, articleId, userId).Ok? ==>
      r == Err(BadRequest(NoLockedTemplates))
  {
    match Articles.FindOne(accounts, articles, articleId, userId)
    case Err(e) => Err(e)
    case Ok(a) =>
      match Dimensions.FindAll(accounts, templates, nextId, userId, a.accountId)
      case Err(e) => Err(e)
      case Ok(all) =>
        var locked := LockedOnly(templates, all);
        if locked == [] then Err(BadRequest(NoLockedTemplates))
        else
          var marked := articles[articleId := a.(status := ArticleStatus.Extracting)];
          var run := LaunchAll(Launch(results, nextId, []), accounts, marked, templates, articleId, userId, locked, clock);
          Ok(Fanout(marked, run.results, run.nextId, Report(articleId, run.items)))
  }

  /** The account's locked, active templates below `bound`. */
  predicate LockedActive(templates: map<nat, Template>, accountId: nat, bound: nat, templateId: nat)
  {
    templateId < bound && templateId in templates && templates[templateId].accountId == accountId
    && templates[templateId].isActive && templates[templateId].isLocked
  }

  /** What the fan-out's report promises about its lines: one line per locked,
      active template of the account and no other, each template once; a
      template is started exactly when the article had no row with it, and
      skipped otherwise; no request is refused. */
  ghost predicate ReportsLockedTemplates(items: seq<LaunchItem>, templates: map<nat, Template>, accountId: nat, bound: nat,
      results: map<nat, ExtractionRow>, articleId: nat)
  {
    && (forall k :: 0 <= k < |items| ==> LockedActive(templates, accountId, bound, items[k].templateId))
    && (forall id :: LockedActive(templates, accountId, bound, id) ==> exists k :: 0 <= k < |items| && items[k].templateId == id)
    && (forall j, k :: 0 <= j < k < |items| ==> items[j].templateId != items[k].templateId)
    && (forall k :: 0 <= k < |items| ==>
          !items[k].Refused? && (items[k].Started? <==> !HasRow(results, articleId, items[k].templateId)))
  }

  /** The locked templates the fan-out runs over are exactly the account's
      locked, active ones, each once. */
  lemma LockedListed(templates: map<nat, Template>, bound: nat, accountId: nat)
    ensures var locked := LockedOnly(templates, Dimensions.ActiveInOrder(templates, bound, accountId));
      && (forall k :: 0 <= k < |locked| ==> LockedActive(templates, accountId, bound, locked[k]))
      && (forall id :: LockedActive(templates, accountId, bound, id) ==> id in locked)
      && (forall j, k :: 0 <= j < k < |locked| ==> locked[j] != locked[k])
  {
    var all := Dimensions.ActiveInOrder(templates, bound, accountId);
    Dimensions.ActiveInOrderSpec(templates, bound, accountId);
    var locked := LockedOnly(templates, all);
    forall id | LockedActive(templates, accountId, bound, id) ensures id in locked {
      assert id in all;
      var k :| 0 <= k < |all| && all[k] == id;
    }
    forall k | 0 <= k < |locked| ensures LockedActive(templates, accountId, bound, locked[k]) {
      assert locked[k] in all;
      var j :| 0 <= j < |all| && all[j] == locked[k];
    }
  }

  /** The lines of the fan-out over the account's locked templates. */
  lemma LockedRunReport(accounts: map<nat, Account>, articles: map<nat, Article>, templates: map<nat, Template>,
      results: map<nat, ExtractionRow>, nextId: nat, articleId: nat, userId: nat, clock: nat -> nat)
    requires IdsBelow(results, nextId)
    requires Articles.FindOne(accounts, articles, articleId, userId).Ok?
    ensures var a := articles[articleId];
      var locked := LockedOnly(templates, Dimensions.ActiveInOrder(templates, nextId, a.accountId));
      var marked := articles[articleId := a.(status := ArticleStatus.Extracting)];
      var run := LaunchAll(Launch(results, nextId, []), accounts, marked, templates, articleId, userId, locked, clock);
      ReportsLockedTemplates(run.items, templates, a.accountId, nextId, results, articleId)
  {
    var a := articles[articleId];
    var locked := LockedOnly(templates, Dimensions.ActiveInOrder(templates, nextId, a.accountId));
    var marked := articles[articleId := a.(status := ArticleStatus.Extracting)];
    LockedListed(templates, nextId, a.accountId);
    forall k | 0 <= k < |locked| ensures Dimensions.FindOne(accounts, templates, locked[k], userId).Ok? {
      assert LockedActive(templates, a.accountId, nextId, locked[k]);
    }
    var run := LaunchAll(Launch(results, nextId, []), accounts, marked, templates, articleId, userId, locked, clock);
    LaunchAllOutcome(Launch(results, nextId, []), accounts, marked, templates, articleId, userId, locked, clock);
    LinesReportLocked(run.items, locked, templates, a.accountId, nextId, results, articleId);
  }

  /** Lines that follow the account's locked, active templates one by one are
      the report `ReportsLockedTemplates` describes. */
  lemma LinesReportLocked(items: seq<LaunchItem>, locked: seq<nat>, templates: map<nat, Template>, accountId: nat, bound: nat,
      results: map<nat, ExtractionRow>, articleId: nat)
    requires |items| == |locked| && LinesFor(items, 0, locked, results, articleId)
    requires forall k :: 0 <= k < |locked| ==> LockedActive(templates, accountId, bound, locked[k])
    requires forall id :: LockedActive(templates, accountId, bound, id) ==> id in locked
    requires forall j, k :: 0 <= j < k < |locked| ==> locked[j] != locked[k]
    ensures ReportsLockedTemplates(items, templates, accountId, bound, results, articleId)
  {
    forall k | 0 <= k < |items|
      ensures items[k].templateId == locked[k] && !items[k].Refused?
      ensures items[k].Started? <==> !HasRow(results, articleId, locked[k])
    {
      assert items[0 + k] == items[k];
    }
    forall id | LockedActive(templates, accountId, bound, id)
      ensures exists k :: 0 <= k < |items| && items[k].templateId == id
    {
      var k :| 0 <= k < |locked| && locked[k] == id;
      assert items[k].templateId == id;
    }
  }

  /** The fan-out, as a whole: it is refused exactly when the account has no
      locked, active template; otherwise its report lists those templates as
      `ReportsLockedTemplates` says. No request is refused because the article
      was marked `extracting` before the requests were made: the check on
      failed articles never applies here. */
  lemma ExtractAllOutcome(accounts: map<nat, Account>, articles: map<nat, Article>, templates: map<nat, Template>,
      results: map<nat, ExtractionRow>, nextId: nat, articleId: nat, userId: nat, clock: nat -> nat)
    requires IdsBelow(results, nextId)
    requires Articles.FindOne(accounts, articles, articleId, userId).Ok?
    ensures var r := ExtractAll(accounts, articles, templates, results, nextId, articleId, userId, clock);
      var accountId := articles[articleId].accountId;
      && (r.Err? <==> forall id :: !LockedActive(templates, accountId, nextId, id))
      && (r.Ok? ==> ReportsLockedTemplates(r.value.report.results, templates, accountId, nextId, results, articleId))
  {
    var a := articles[articleId];
    var locked := LockedOnly(templates, Dimensions.ActiveInOrder(templates, nextId, a.accountId));
    LockedListed(templates, nextId, a.accountId);
    if locked != [] {
      assert LockedActive(templates, a.accountId, nextId, locked[0]);
      LockedRunReport(accounts, articles, templates, results, nextId, articleId, userId, clock);
    }
  }

  /** One fan-out step on the database. */
  method LaunchStep(db: Database, articleId: nat, userId: nat, templateId: nat, clock: nat -> nat, items: seq<LaunchItem>)
    returns (items': seq<LaunchItem>)
    requires db.Valid() && templateId in db.templates
    modifies db
    ensures db.Valid()
    ensures db.accounts == old(db.accounts) && db.articles == old(db.articles) && db.templates == old(db.templates)
    ensures Launch(db.results, db.nextId, items')
         == LaunchOne(Launch(old(db.results), old(db.nextId), items), db.accounts, db.articles, db.templates,
                      articleId, userId, templateId, clock)
  {
    var name := db.templates[templateId].name;
    if HasRow(db.results, articleId, templateId) {
      items' := items + [Skipped(templateId, name, AlreadyDone, ExistingStatus(db.results, db.nextId, articleId, templateId))];
    } else {
      var started := ExtractForArticle(db, articleId, templateId, userId, clock(templateId));
      match started {
        case Err(e) => items' := items + [Refused(templateId, name, e.message)];
        case Ok(id) => items' := items + [Started(templateId, name, id)];
      }
    }
  }

  /** The fan-out on the database, one template after another. */
  method LaunchTemplates(db: Database, articleId: nat, userId: nat, templateIds: seq<nat>, clock: nat -> nat)
    returns (items: seq<LaunchItem>)
    requires db.Valid() && forall k :: 0 <= k < |templateIds| ==> templateIds[k] in db.templates
    modifies db
    ensures db.Valid()
    ensures db.accounts == old(db.accounts) && db.articles == old(db.articles) && db.templates == old(db.templates)
    ensures Launch(db.results, db.nextId, items)
         == LaunchAll(Launch(old(db.results), old(db.nextId), []), db.accounts, db.articles, db.templates,
                      articleId, userId, templateIds, clock)
  {
    items := [];
    var i := 0;
    while i < |templateIds|
      invariant 0 <= i <= |templateIds| && db.Valid()
      invariant db.accounts == old(db.accounts) && db.articles == old(db.articles) && db.templates == old(db.templates)
      invariant LaunchAll(Launch(db.results, db.nextId, items), db.accounts, db.articles, db.templates, articleId, userId, templateIds[i..], clock)
             == LaunchAll(Launch(old(db.results), old(db.nextId), []), db.accounts, db.articles, db.templates, articleId, userId, templateIds, clock)
    {
      assert templateIds[i..][1..] == templateIds[i + 1..];
      items := LaunchStep(db, articleId, userId, templateIds[i], clock, items);
      i := i + 1;
    }
    assert templateIds[i..] == [];
  }

  /** `extractAllForArticle` on the database. */
  method ExtractAllForArticle(db: Database, articleId: nat, userId: nat, clock: nat -> nat) returns (r: Result<LaunchReport, Exception>)
    requires db.Valid()
    modifies db
    ensures db.Valid()
    ensures match ExtractAll(old(db.accounts), old(db.articles), old(db.templates), old(db.results), old(db.nextId), articleId, userId, clock)
      case Err(e) => r == Err(e) && db.articles == old(db.articles) && db.results == old(db.results) && db.nextId == old(db.nextId)
      case Ok(f) => r == Ok(f.report) && db.articles == f.articles && db.results == f.results && db.nextId == f.nextId
    ensures db.accounts == old(db.accounts) && db.templates == old(db.templates)
  {
    var found := Articles.FindOne(db.accounts, db.articles, articleId, userId);
    if found.Err? {
      return Err(found.error);
    }
    var a := found.value;
    var all := Dimensions.FindAll(db.accounts, db.templates, db.nextId, userId, a.accountId);
    assert all.Ok?;
    var locked := LockedOnly(db.templates, all.value);
    if locked == [] {
      return Err(BadRequest(NoLockedTemplates));
    }
    db.PutArticle(articleId, a.(status := ArticleStatus.Extracting));
    var items := LaunchTemplates(db, articleId, userId, locked, clock);
    r := Ok(Report(articleId, items));
  }

  // ---------------------------------------------------------------------------
  // A template's rows

  /** The `where` of the row queries: every row of a template, its rows with
      one status, or its `completed` rows whose serialised data, lower-cased,
      contains a search text. */
  datatype RowFilter =
    | OfTemplate(templateId: nat)
    | WithStatus(templateId: nat, status: ResultStatus)
    | Matching(templateId: nat, needle: string)

  predicate Passes(f: RowFilter, row: ExtractionRow, stringify: Json -> string)
  {
    match f
    case OfTemplate(tid) => row.templateId == tid
    case WithStatus(tid, st) => row.templateId == tid && row.status == st
    case Matching(tid, needle) =>
      row.templateId == tid && row.status == ResultStatus.Completed && Contains(ToLower(stringify(row.data)), needle)
  }

  function KeepRow(f: RowFilter, stringify: Json -> string): ExtractionRow -> bool
  {
    row => Passes(f, row, stringify)
  }

  /** The ids below `bound` of the rows that pass a filter, newest first. */
  function Selected(results: map<nat, ExtractionRow>, bound: nat, f: RowFilter, stringify: Json -> string): (ids: seq<nat>)
    ensures forall k :: 0 <= k < |ids| ==> ids[k] < bound && ids[k] in results && Passes(f, results[ids[k]], stringify)
    ensures forall id :: id < bound && id in results && Passes(f, results[id], stringify) ==> id in ids
    ensures forall j, k :: 0 <= j < k < |ids| ==> ids[j] > ids[k]
  {
    NewestFirst(results, KeepRow(f, stringify), bound)
  }

  /** The tokens of a list of rows, an unset count being 0. */
  function TokenSum(results: map<nat, ExtractionRow>, ids: seq<nat>): nat
    requires forall k :: 0 <= k < |ids| ==> ids[k] in results
  {
    if ids == [] then 0 else results[ids[0]].tokensUsed + TokenSum(results, ids[1..])
  }

  /** The filter a keyword selects: all of the template's rows when it is
      absent or blank, otherwise the matching `completed` rows, compared in
      lower case after trimming. */
  function SearchFilter(templateId: nat, keyword: string): (f: RowFilter)
    ensures f.templateId == templateId
    ensures f.Matching? <==> Trim(keyword) != ""
    ensures f.Matching? ==> f.needle == ToLower(Trim(keyword)) && |f.needle| == |Trim(keyword)|
    ensures f.OfTemplate? <==> Trim(keyword) == ""
  {
    if Trim(keyword) == "" then OfTemplate(templateId) else Matching(templateId, ToLower(Trim(keyword)))
  }

  /** What the keyword filter lets through: the template's rows, and when the
      keyword is not blank only its `completed` rows whose serialised data
      contains the trimmed keyword, both sides lower-cased. */
  lemma SearchFilterMeaning(templateId: nat, keyword: string, row: ExtractionRow, stringify: Json -> string)
    ensures Passes(SearchFilter(templateId, keyword), row, stringify) <==>
      && row.templateId == templateId
      && (Trim(keyword) != "" ==>
            row.status == ResultStatus.Completed && Contains(ToLower(stringify(row.data)), ToLower(Trim(keyword))))
  {
  }

  datatype Stats = Stats(total: nat, completed: nat, failed: nat, totalTokens: nat)

  datatype TemplatePage = TemplatePage(items: seq<nat>, total: nat, page: int, pageSize: int, stats: Stats)

  /** The statistics of a template: its row count, its `completed` and
      `failed` rows and the tokens of all its rows. The two counts and the
      rows still `extracting` partition the template's rows. */
  function TemplateStats(results: map<nat, ExtractionRow>, bound: nat, templateId: nat, stringify: Json -> string): (st: Stats)
    ensures st.completed + st.failed + |Selected(results, bound, WithStatus(templateId, ResultStatus.Extracting), stringify)| == st.total
  {
    var all := Selected(results, bound, OfTemplate(templateId), stringify);
    var unfinished := (row: ExtractionRow) => row.templateId == templateId && row.status != ResultStatus.Completed;
    NewestFirstSplit(results, KeepRow(OfTemplate(templateId), stringify),
      KeepRow(WithStatus(templateId, ResultStatus.Completed), stringify), unfinished, bound);
    NewestFirstSplit(results, unfinished,
      KeepRow(WithStatus(templateId, ResultStatus.Failed), stringify),
      KeepRow(WithStatus(templateId, ResultStatus.Extracting), stringify), bound);
    Stats(|all|,
      |Selected(results, bound, WithStatus(templateId, ResultStatus.Completed), stringify)|,
      |Selected(results, bound, WithStatus(templateId, ResultStatus.Failed), stringify)|,
      TokenSum(results, all))
  }

  /** The page of rows a filter selects. A keyword search that matches nothing
      answers an empty page with total 0 and the statistics as they are,
      without paging; otherwise the statistics' total is the number of rows
      selected. */
  function SearchPage(results: map<nat, ExtractionRow>, bound: nat, f: RowFilter, searching: bool,
      page: int, pageSize: int, stats: Stats, stringify: Json -> string): (r: Result<TemplatePage, Exception>)
    ensures r.Err? ==> r.error == Thrown(Articles.PagingRejected) && (page - 1) * pageSize < 0
    ensures r.Ok? ==> r.value.page == page && r.value.pageSize == pageSize
    ensures r.Ok? ==> forall k :: 0 <= k < |r.value.items| ==>
      r.value.items[k] < bound && r.value.items[k] in results && Passes(f, results[r.value.items[k]], stringify)
    ensures r.Ok? ==> forall j, k :: 0 <= j < k < |r.value.items| ==> r.value.items[j] > r.value.items[k]
    ensures (searching && forall id :: id < bound && id in results ==> !Passes(f, results[id], stringify)) ==>
      r == Ok(TemplatePage([], 0, page, pageSize, stats))
  {
    var matching := Selected(results, bound, f, stringify);
    assert matching == [] || Passes(f, results[matching[0]], stringify);
    if searching && matching == [] then Ok(TemplatePage([], 0, page, pageSize, stats))
    else match Articles.Page(matching, page, pageSize)
      case None => Err(Thrown(Articles.PagingRejected))
      case Some(items) =>
        Articles.PageIsRun(matching, page, pageSize);
        Ok(TemplatePage(items, |matching|, page, pageSize, stats.(total := |matching|)))
  }

  /** `findByTemplate(templateId, userId, page, pageSize, keyword)`: the
      template must be the caller's; then the page of its rows the keyword
      selects (see `SearchFilter`), newest first, with their number and the
      template's statistics. It only composes the gate, `SearchPage` and
      `TemplateStats`, whose own contracts state what each part promises. */
  function FindByTemplate(accounts: map<nat, Account>, templates: map<nat, Template>, results: map<nat, ExtractionRow>,
      bound: nat, templateId: nat, userId: nat, page: int, pageSize: int, keyword: string, stringify: Json -> string)
    : (r: Result<TemplatePage, Exception>)
    ensures Dimensions.FindOne(accounts, templates, templateId, userId).Err? ==>
      r == Err(Dimensions.FindOne(accounts, templates, templateId, userId).error)
    ensures Dimensions.FindOne(accounts, templates, templateId, userId).Ok? ==>
      r == SearchPage(results, bound, SearchFilter(templateId, keyword), Trim(keyword) != "", page, pageSize,
                      TemplateStats(results, bound, templateId, stringify), stringify)
  {
    match Dimensions.FindOne(accounts, templates, templateId, userId)
    case Err(e) => Err(e)
    case Ok(_) =>
      SearchPage(results, bound, SearchFilter(templateId, keyword), Trim(keyword) != "", page, pageSize,
                 TemplateStats(results, bound, templateId, stringify), stringify)
  }

  /** With a page at least as large as the id range, the first page lists
      exactly the rows the keyword selects, and the total counts them. */
  lemma FirstPageListsSelection(results: map<nat, ExtractionRow>, bound: nat, f: RowFilter, searching: bool,
      pageSize: int, stats: Stats, stringify: Json -> string)
    requires pageSize >= bound
    ensures var r := SearchPage(results, bound, f, searching, 1, pageSize, stats, stringify);
      && r.Ok? && r.value.total == |r.value.items|
      && forall id :: id < bound && id in results ==> (id in r.value.items <==> Passes(f, results[id], stringify))
  {
    var matching := Selected(results, bound, f, stringify);
    Articles.DistinctBelow(matching, bound);
    if !(searching && matching == []) {
      var p := Articles.Page(matching, 1, pageSize);
      assert p.Some? && |p.value| == |matching|;
      assert p.value == matching;
    }
  }

}
