/**
 * The article service (backend/src/articles/articles.service.ts): taking a
 * WeChat article URL apart for its news id, admitting articles one at a time
 * or in batches, the background task that downloads an article and runs every
 * locked template of its account over it, the queue that runs that task for
 * every pending article, and the paged article list.
 *
 * The service launches its background work without awaiting it. Here each
 * launch is a separate, later call: `Create` and `CreateBatch` do the part the
 * caller waits for, and `ExtractArticleContent` and `ProcessExtractionQueue`
 * are the work they launch. Calls run one after another.
 */
module Articles {
  import opened Common
  import opened Store
  import Accounts
  import Claude
  import Spider
  import Limiter

  const InvalidUrl := "无效的微信文章URL"
  const DuplicateNewsId := "该文章已存在(newsId重复)"
  const DuplicateUrl := "该文章URL已存在"
  const ArticleMissing := "文章不存在"

  const ExtractingTitle := "正在提取..."
  const QueuedTitle := "排队等待中..."
  const DownloadingTitle := "正在下载文章..."
  const DownloadFailedTitle := "下载失败"
  const ExtractFailedTitle := "提取失败"

  /** The bound the service gives its limiter: at most five background tasks
      run at once. */
  const MaxConcurrentTasks: nat := 5

  /** The message a paging the store refuses (a negative `skip` or `take`)
      raises; the store's own wording is not modelled. */
  const PagingRejected := "invalid skip or take"

  // ---------------------------------------------------------------------------
  // The news id of a URL

  /** What `new URL(url)` gives the service: the path, and the query as decoded
      name/value pairs in order. */
  datatype UrlParts = UrlParts(pathname: string, query: seq<(string, string)>)

  /** The class `[a-zA-Z0-9_-]`. */
  predicate IdChar(c: char)
  {
    ('a' <= c <= 'z') || ('A' <= c <= 'Z') || ('0' <= c <= '9') || c == '_' || c == '-'
  }

  /** The pattern `/s/` followed by an id character starts at `i`. */
  predicate PathMatchAt(path: string, i: nat)
  {
    i + 3 < |path| && path[i..i + 3] == "/s/" && IdChar(path[i + 3])
  }

  /** The leftmost position at or after `from` where the pattern matches. */
  function FirstPathMatch(path: string, from: nat): (r: Option<nat>)
    ensures r.Some? ==> from <= r.value && PathMatchAt(path, r.value)
    ensures r.Some? ==> forall j: nat :: from <= j < r.value ==> !PathMatchAt(path, j)
    ensures r.None? ==> forall j: nat :: from <= j ==> !PathMatchAt(path, j)
    decreases |path| - from
  {
    if from + 3 >= |path| then None
    else if PathMatchAt(path, from) then Some(from)
    else FirstPathMatch(path, from + 1)
  }

  /** The end of the run of id characters starting at `i`: the capture group is
      greedy. */
  function IdRunEnd(path: string, i: nat): (e: nat)
    requires i <= |path|
    ensures i <= e <= |path|
    ensures forall k :: i <= k < e ==> IdChar(path[k])
    ensures e == |path| || !IdChar(path[e])
    decreases |path| - i
  {
    if i == |path| || !IdChar(path[i]) then i else IdRunEnd(path, i + 1)
  }

  /** `searchParams.get('sn')`: the value of the first `sn` parameter. */
  function SnParam(query: seq<(string, string)>): (r: Option<string>)
    ensures r.None? <==> forall k :: 0 <= k < |query| ==> query[k].0 != "sn"
    ensures r.Some? ==>
      exists k :: 0 <= k < |query| && query[k] == ("sn", r.value) && forall j :: 0 <= j < k ==> query[j].0 != "sn"
  {
    if query == [] then None
    else if query[0].0 == "sn" then Some(query[0].1)
    else
      var rest := SnParam(query[1..]);
      assert forall k :: 1 <= k < |query| ==> query[k] == query[1..][k - 1];
      if rest.Some? then
        var k :| 0 <= k < |query[1..]| && query[1..][k] == ("sn", rest.value) && forall j :: 0 <= j < k ==> query[1..][j].0 != "sn";
        assert query[k + 1] == ("sn", rest.value);
        rest
      else rest
  }

  /** `extractNewsId(url)`: the id after the leftmost `/s/` of the path, else a
      non-empty `sn` parameter; a URL that does not parse, or has neither, is
      refused with one message. `url` is what the URL parser produced (None when
      the constructor throws). */
  function ExtractNewsId(url: Option<UrlParts>): (r: Result<string, Exception>)
    ensures r.Err? ==> r.error == BadRequest(InvalidUrl)
    ensures url.None? ==> r.Err?
    ensures r.Ok? ==> r.value != []
    ensures url.Some? && FirstPathMatch(url.value.pathname, 0).Some? ==>
      var p := url.value.pathname;
      var i := FirstPathMatch(p, 0).value;
      && r.Ok?
      && OccursAt(p, "/s/" + r.value, i)
      && (forall k :: 0 <= k < |r.value| ==> IdChar(r.value[k]))
      && (i + 3 + |r.value| == |p| || !IdChar(p[i + 3 + |r.value|]))
    ensures url.Some? && FirstPathMatch(url.value.pathname, 0).None? ==>
      var sn := SnParam(url.value.query);
      (r.Ok? <==> sn.Some? && sn.value != []) && (r.Ok? ==> r.value == sn.value)
  {
    match url
    case None => Err(BadRequest(InvalidUrl))
    case Some(u) =>
      match FirstPathMatch(u.pathname, 0)
      case Some(i) =>
        var v := u.pathname[i + 3..IdRunEnd(u.pathname, i + 3)];
        assert u.pathname[i..i + 3 + |v|] == "/s/" + v;
        Ok(v)
      case None =>
        var sn := SnParam(u.query);
        if sn.Some? && sn.value != [] then Ok(sn.value) else Err(BadRequest(InvalidUrl))
  }

  /** A short-link path gives back the id it was built from, whatever follows
      it that is not an id character, and whatever the query holds. */
  lemma ShortLinkRoundTrip(id: string, rest: string, query: seq<(string, string)>)
    requires id != [] && forall k :: 0 <= k < |id| ==> IdChar(id[k])
    requires rest == [] || !IdChar(rest[0])
    ensures ExtractNewsId(Some(UrlParts("/s/" + id + rest, query))) == Ok(id)
  {
    var p := "/s/" + id + rest;
    assert PathMatchAt(p, 0);
    assert FirstPathMatch(p, 0) == Some(0);
    var e := IdRunEnd(p, 3);
    assert forall k :: 3 <= k < 3 + |id| ==> p[k] == id[k - 3];
    assert 3 + |id| == |p| || p[3 + |id|] == rest[0];
    assert e == 3 + |id|;
    assert p[3..e] == id;
  }

  /** A long-form link (a path without the short-link pattern) is identified by
      its first `sn` parameter when that is non-empty, and refused otherwise. */
  lemma LongLinkUsesSn(path: string, query: seq<(string, string)>, sn: string)
    requires forall j: nat :: !PathMatchAt(path, j)
    requires exists k :: 0 <= k < |query| && query[k] == ("sn", sn) && forall j :: 0 <= j < k ==> query[j].0 != "sn"
    ensures sn != [] ==> ExtractNewsId(Some(UrlParts(path, query))) == Ok(sn)
    ensures sn == [] ==> ExtractNewsId(Some(UrlParts(path, query))) == Err(BadRequest(InvalidUrl))
  {
    var r := SnParam(query);
    var k :| 0 <= k < |query| && query[k] == ("sn", sn) && forall j :: 0 <= j < k ==> query[j].0 != "sn";
    var k' :| 0 <= k' < |query| && query[k'] == ("sn", r.value) && forall j :: 0 <= j < k' ==> query[j].0 != "sn";
    assert k == k';
  }

  // ---------------------------------------------------------------------------
  // Admission of new articles

  /** An article of the account already carries the news id (`findFirst`). */
  predicate NewsIdTaken(articles: map<nat, Article>, accountId: nat, newsId: string)
  {
    exists id :: id in articles && articles[id].newsId == newsId && articles[id].accountId == accountId
  }

  /** Some article, of any account, already has the URL (`findUnique` on the
      unique `url` column). */
  predicate UrlTaken(articles: map<nat, Article>, url: string)
  {
    exists id :: id in articles && articles[id].url == url
  }

  /** The checks a URL passes before its article is created, in the service's
      order: a news id can be read from it, no article of the account has that
      news id, and no article has that URL. */
  function IntakeCheck(articles: map<nat, Article>, accountId: nat, url: string, parseUrl: string -> Option<UrlParts>)
    : (r: Result<string, Exception>)
    ensures r.Ok? <==>
      ExtractNewsId(parseUrl(url)).Ok? && !NewsIdTaken(articles, accountId, ExtractNewsId(parseUrl(url)).value) && !UrlTaken(articles, url)
    ensures r.Ok? ==> r.value == ExtractNewsId(parseUrl(url)).value
  {
    match ExtractNewsId(parseUrl(url))
    case Err(e) => Err(e)
    case Ok(newsId) =>
      if NewsIdTaken(articles, accountId, newsId) then Err(BadRequest(DuplicateNewsId))
      else if UrlTaken(articles, url) then Err(BadRequest(DuplicateUrl))
      else Ok(newsId)
  }

  /** Each refusal carries the message of the first check that fails, in the
      service's order: the URL, then the news id, then the URL's uniqueness. */
  lemma IntakeCheckMessages(articles: map<nat, Article>, accountId: nat, url: string, parseUrl: string -> Option<UrlParts>)
    ensures var r := IntakeCheck(articles, accountId, url, parseUrl); var n := ExtractNewsId(parseUrl(url));
      && (r == Err(BadRequest(InvalidUrl)) <==> n.Err?)
      && (r == Err(BadRequest(DuplicateNewsId)) <==> n.Ok? && NewsIdTaken(articles, accountId, n.value))
      && (r == Err(BadRequest(DuplicateUrl)) <==> n.Ok? && !NewsIdTaken(articles, accountId, n.value) && UrlTaken(articles, url))
  {
  }

  /** A new article row: the crawler has not run yet, so the raw content is `{}`. */
  function Fresh(accountId: nat, url: string, newsId: string, title: string, status: ArticleStatus): Article
  {
    Article(accountId, url, newsId, title, EmptyObject, "", "", None, status, "", 0)
  }

  /** No two articles share a URL, as the unique `url` column demands. */
  ghost predicate UniqueUrls(articles: map<nat, Article>)
  {
    forall i, j :: i in articles && j in articles && i != j ==> articles[i].url != articles[j].url
  }

  /** A URL that passes the checks keeps the URLs unique when its article is
      added, and the news ids of its account too. */
  lemma IntakeKeepsUrlsUnique(articles: map<nat, Article>, accountId: nat, url: string, parseUrl: string -> Option<UrlParts>, id: nat, title: string, status: ArticleStatus)
    requires IntakeCheck(articles, accountId, url, parseUrl).Ok? && id !in articles
    requires UniqueUrls(articles)
    ensures var after := articles[id := Fresh(accountId, url, IntakeCheck(articles, accountId, url, parseUrl).value, title, status)];
      UniqueUrls(after)
      && forall j :: j in articles && articles[j].accountId == accountId ==> articles[j].newsId != after[id].newsId
  {
  }

  /** `create(userId, dto)`: the ownership gate, the URL checks, then one new
      article in status `extracting`. The download it launches is
      `ExtractArticleContent`. */
  method Create(db: Database, userId: nat, accountId: nat, url: string, parseUrl: string -> Option<UrlParts>)
    returns (r: Result<nat, Exception>)
    requires db.Valid()
    modifies db
    ensures db.Valid()
    ensures Accounts.FindOne(old(db.accounts), accountId, userId).Err? ==>
      r == Err(Accounts.FindOne(old(db.accounts), accountId, userId).error) && db.articles == old(db.articles)
    ensures Accounts.FindOne(old(db.accounts), accountId, userId).Ok? ==>
      var check := IntakeCheck(old(db.articles), accountId, url, parseUrl);
      && (check.Err? ==> r == Err(check.error) && db.articles == old(db.articles))
      && (check.Ok? ==>
            r == Ok(old(db.nextId)) && r.value !in old(db.articles)
            && db.articles == old(db.articles)[r.value := Fresh(accountId, url, check.value, ExtractingTitle, ArticleStatus.Extracting)])
    ensures UniqueUrls(old(db.articles)) ==> UniqueUrls(db.articles)
    ensures db.accounts == old(db.accounts) && db.templates == old(db.templates) && db.results == old(db.results)
  {
    var owned := Accounts.FindOne(db.accounts, accountId, userId);
    if owned.Err? {
      return Err(owned.error);
    }
    var check := IntakeCheck(db.articles, accountId, url, parseUrl);
    if check.Err? {
      return Err(check.error);
    }
    var id := db.AddArticle(Fresh(accountId, url, check.value, ExtractingTitle, ArticleStatus.Extracting));
    r := Ok(id);
  }

  // ---------------------------------------------------------------------------
  // Batch admission

  /** One entry of the batch report. An admitted URL is reported with status
      `extracting` although its row is stored as `pending`. */
  datatype BatchItem =
    | Accepted(url: string, articleId: nat, reported: ArticleStatus)
    | Rejected(url: string, error: string)

  predicate Succeeded(item: BatchItem)
  {
    item.Accepted?
  }

  predicate Failed(item: BatchItem)
  {
    !item.Accepted?
  }

  datatype BatchReport = BatchReport(total: nat, success: nat, failed: nat, results: seq<BatchItem>)

  /** The state the batch loop carries: the article table, the id counter, and
      the entries reported so far. */
  datatype Intake = Intake(articles: map<nat, Article>, nextId: nat, items: seq<BatchItem>)

  ghost predicate IntakeIssued(s: Intake)
  {
    forall id :: id in s.articles ==> id < s.nextId
  }

  /** One turn of the batch loop: a URL that fails a check is reported with the
      check's message and the loop goes on; one that passes becomes a `pending`
      article. */
  function IntakeStep(s: Intake, accountId: nat, url: string, parseUrl: string -> Option<UrlParts>): (r: Intake)
    requires IntakeIssued(s)
    ensures IntakeIssued(r)
    ensures |r.items| == |s.items| + 1 && r.items[..|s.items|] == s.items && r.items[|s.items|].url == url
    ensures forall id :: id in s.articles ==> id in r.articles && r.articles[id] == s.articles[id]
  {
    match IntakeCheck(s.articles, accountId, url, parseUrl)
    case Err(e) => Intake(s.articles, s.nextId, s.items + [Rejected(url, e.message)])
    case Ok(newsId) =>
      var after := s.articles[s.nextId := Fresh(accountId, url, newsId, QueuedTitle, Pending)];
      assert after[s.nextId].url == url;
      Intake(after, s.nextId + 1, s.items + [Accepted(url, s.nextId, ArticleStatus.Extracting)])
  }

  /** The batch loop over `urls`, in order. */
  function BatchIntake(s: Intake, accountId: nat, urls: seq<string>, parseUrl: string -> Option<UrlParts>): (r: Intake)
    requires IntakeIssued(s)
    ensures IntakeIssued(r) && s.nextId <= r.nextId
    ensures |r.items| == |s.items| + |urls| && r.items[..|s.items|] == s.items
    ensures forall id :: id in s.articles ==> id in r.articles && r.articles[id] == s.articles[id]
    decreases |urls|
  {
    if urls == [] then s
    else
      var step := IntakeStep(s, accountId, urls[0], parseUrl);
      var r := BatchIntake(step, accountId, urls[1..], parseUrl);
      assert r.items[..|step.items|][..|s.items|] == r.items[..|s.items|];
      r
  }

  /** Report lines `from`, `from + 1`, … name the URLs of `urls`, in order. */
  ghost predicate NamesUrls(items: seq<BatchItem>, from: nat, urls: seq<string>)
  {
    from + |urls| <= |items| && forall k :: 0 <= k < |urls| ==> items[from + k].url == urls[k]
  }

  /** The report is in URL order: line `k` of the batch names URL `k`. */
  lemma {:induction false} BatchIntakeUrls(s: Intake, accountId: nat, urls: seq<string>, parseUrl: string -> Option<UrlParts>)
    requires IntakeIssued(s)
    ensures NamesUrls(BatchIntake(s, accountId, urls, parseUrl).items, |s.items|, urls)
    decreases |urls|
  {
    if urls != [] {
      var step := IntakeStep(s, accountId, urls[0], parseUrl);
      BatchIntakeUrls(step, accountId, urls[1..], parseUrl);
      BatchIntakeUnfold(s, accountId, urls, parseUrl);
      ItemsShift(s.items, step.items, BatchIntake(step, accountId, urls[1..], parseUrl).items, urls);
    }
  }

  /** The report lines of a batch are the first step's line followed by the
      rest's lines, so line `k` still names URL `k`. */
  lemma ItemsShift(before: seq<BatchItem>, step: seq<BatchItem>, after: seq<BatchItem>, urls: seq<string>)
    requires urls != [] && |step| == |before| + 1 && step[|before|].url == urls[0]
    requires |step| <= |after| && after[..|step|] == step && NamesUrls(after, |step|, urls[1..])
    ensures NamesUrls(after, |before|, urls)
  {
    forall k | 0 <= k < |urls| ensures after[|before| + k].url == urls[k] {
      if k == 0 {
        assert after[|before|] == after[..|step|][|before|];
      } else {
        assert urls[1..][k - 1] == urls[k] && |before| + k == |step| + (k - 1);
      }
    }
  }

  /** After a step, the same URL fails the checks: it was refused, or its
      article now exists. */
  lemma StepRefusesRepeat(s: Intake, accountId: nat, url: string, parseUrl: string -> Option<UrlParts>)
    requires IntakeIssued(s)
    ensures IntakeCheck(IntakeStep(s, accountId, url, parseUrl).articles, accountId, url, parseUrl).Err?
  {
    if IntakeCheck(s.articles, accountId, url, parseUrl).Ok? {
      var after := IntakeStep(s, accountId, url, parseUrl).articles;
      assert after[s.nextId].url == url;
    }
  }

  /** The first line of a batch's report is the first step's line. */
  lemma FirstItem(s: Intake, accountId: nat, urls: seq<string>, parseUrl: string -> Option<UrlParts>)
    requires IntakeIssued(s) && urls != []
    ensures BatchIntake(s, accountId, urls, parseUrl).items[|s.items|]
      == IntakeStep(s, accountId, urls[0], parseUrl).items[|s.items|]
  {
    var step := IntakeStep(s, accountId, urls[0], parseUrl);
    var rest := BatchIntake(step, accountId, urls[1..], parseUrl);
    assert rest.items[..|step.items|] == step.items;
    assert rest.items[|s.items|] == rest.items[..|step.items|][|s.items|];
  }

  /** Line `k > 0` of a batch's report is line `k - 1` of the rest of the
      batch, run after the first step. */
  lemma LaterItem(s: Intake, accountId: nat, urls: seq<string>, parseUrl: string -> Option<UrlParts>, k: nat)
    requires IntakeIssued(s) && 0 < k < |urls|
    ensures var step := IntakeStep(s, accountId, urls[0], parseUrl);
      && |step.items| == |s.items| + 1
      && BatchIntake(s, accountId, urls, parseUrl).items[|s.items| + k]
         == BatchIntake(step, accountId, urls[1..], parseUrl).items[|step.items| + (k - 1)]
  {
  }

  /** Once a URL has been refused, or admitted, every later check of it fails:
      adding articles never makes a check pass that failed before. */
  lemma IntakeCheckStaysFailed(s: Intake, accountId: nat, u: string, url: string, parseUrl: string -> Option<UrlParts>)
    requires IntakeIssued(s) && IntakeCheck(s.articles, accountId, u, parseUrl).Err?
    ensures IntakeCheck(IntakeStep(s, accountId, url, parseUrl).articles, accountId, u, parseUrl).Err?
  {
    var after := IntakeStep(s, accountId, url, parseUrl).articles;
    var n := ExtractNewsId(parseUrl(u));
    if n.Ok? && NewsIdTaken(s.articles, accountId, n.value) {
      var id :| id in s.articles && s.articles[id].newsId == n.value && s.articles[id].accountId == accountId;
      assert id in after && after[id] == s.articles[id];
    } else if n.Ok? {
      var id :| id in s.articles && s.articles[id].url == u;
      assert id in after && after[id] == s.articles[id];
    }
  }

  lemma {:induction false} StaysRejected(s: Intake, accountId: nat, urls: seq<string>, parseUrl: string -> Option<UrlParts>, k: nat)
    requires IntakeIssued(s) && k < |urls|
    requires IntakeCheck(s.articles, accountId, urls[k], parseUrl).Err?
    ensures BatchIntake(s, accountId, urls, parseUrl).items[|s.items| + k].Rejected?
    decreases |urls|
  {
    var step := IntakeStep(s, accountId, urls[0], parseUrl);
    if k == 0 {
      FirstItem(s, accountId, urls, parseUrl);
    } else {
      assert IntakeCheck(step.articles, accountId, urls[1..][k - 1], parseUrl).Err? by {
        IntakeCheckStaysFailed(s, accountId, urls[k], urls[0], parseUrl);
        assert urls[1..][k - 1] == urls[k];
      }
      assert BatchIntake(step, accountId, urls[1..], parseUrl).items[|s.items| + 1 + (k - 1)].Rejected? by {
        StaysRejected(step, accountId, urls[1..], parseUrl, k - 1);
      }
      LaterRejected(s, accountId, urls, parseUrl, k);
    }
  }

  /** A URL that appears twice in one batch is admitted at most once: every
      later copy is refused, whatever happened to the first. */
  lemma {:induction false} RepeatedUrlRejected(s: Intake, accountId: nat, urls: seq<string>, parseUrl: string -> Option<UrlParts>, j: nat, k: nat)
    requires IntakeIssued(s) && j < k < |urls| && urls[j] == urls[k]
    ensures BatchIntake(s, accountId, urls, parseUrl).items[|s.items| + k].Rejected?
    decreases |urls|
  {
    if j == 0 {
      RepeatOfFirstRejected(s, accountId, urls, parseUrl, k);
    } else {
      var step := IntakeStep(s, accountId, urls[0], parseUrl);
      assert urls[1..][k - 1] == urls[k] && urls[1..][j - 1] == urls[j];
      RepeatedUrlRejected(step, accountId, urls[1..], parseUrl, j - 1, k - 1);
      LaterRejected(s, accountId, urls, parseUrl, k);
    }
  }

  /** A later copy of the batch's first URL is refused. */
  lemma RepeatOfFirstRejected(s: Intake, accountId: nat, urls: seq<string>, parseUrl: string -> Option<UrlParts>, k: nat)
    requires IntakeIssued(s) && 0 < k < |urls| && urls[0] == urls[k]
    ensures BatchIntake(s, accountId, urls, parseUrl).items[|s.items| + k].Rejected?
  {
    var step := IntakeStep(s, accountId, urls[0], parseUrl);
    FirstRefusedAgain(s, accountId, urls, parseUrl, k);
    StaysRejected(step, accountId, urls[1..], parseUrl, k - 1);
    LaterRejected(s, accountId, urls, parseUrl, k);
  }

  lemma FirstRefusedAgain(s: Intake, accountId: nat, urls: seq<string>, parseUrl: string -> Option<UrlParts>, k: nat)
    requires IntakeIssued(s) && 0 < k < |urls| && urls[0] == urls[k]
    ensures IntakeCheck(IntakeStep(s, accountId, urls[0], parseUrl).articles, accountId, urls[1..][k - 1], parseUrl).Err?
  {
    StepRefusesRepeat(s, accountId, urls[0], parseUrl);
    assert urls[1..][k - 1] == urls[0];
  }

  /** A line of the rest of the batch that is a refusal is a refusal in the
      whole batch's report. */
  lemma LaterRejected(s: Intake, accountId: nat, urls: seq<string>, parseUrl: string -> Option<UrlParts>, k: nat)
    requires IntakeIssued(s) && 0 < k < |urls|
    requires var step := IntakeStep(s, accountId, urls[0], parseUrl);
      BatchIntake(step, accountId, urls[1..], parseUrl).items[|s.items| + 1 + (k - 1)].Rejected?
    ensures BatchIntake(s, accountId, urls, parseUrl).items[|s.items| + k].Rejected?
  {
    LaterItem(s, accountId, urls, parseUrl, k);
  }

  lemma BatchIntakeUnfold(s: Intake, accountId: nat, urls: seq<string>, parseUrl: string -> Option<UrlParts>)
    requires IntakeIssued(s) && urls != []
    ensures BatchIntake(s, accountId, urls, parseUrl)
      == BatchIntake(IntakeStep(s, accountId, urls[0], parseUrl), accountId, urls[1..], parseUrl)
  {
  }

  /** One turn of the batch loop on the database. */
  method IntakeOne(db: Database, accountId: nat, url: string, parseUrl: string -> Option<UrlParts>, items: seq<BatchItem>)
    returns (items': seq<BatchItem>)
    requires db.Valid() && accountId in db.accounts
    modifies db
    ensures db.Valid()
    ensures Intake(db.articles, db.nextId, items') == IntakeStep(Intake(old(db.articles), old(db.nextId), items), accountId, url, parseUrl)
    ensures db.accounts == old(db.accounts) && db.templates == old(db.templates) && db.results == old(db.results)
  {
    var check := IntakeCheck(db.articles, accountId, url, parseUrl);
    if check.Err? {
      items' := items + [Rejected(url, check.error.message)];
    } else {
      var id := db.AddArticle(Fresh(accountId, url, check.value, QueuedTitle, Pending));
      items' := items + [Accepted(url, id, ArticleStatus.Extracting)];
    }
  }

  /** The report adds up: every URL is counted once, as a success or a failure. */
  lemma BatchReportAddsUp(items: seq<BatchItem>)
    ensures CountWhere(items, Succeeded) + CountWhere(items, Failed) == |items|
  {
    CountWhereSplit(items, Succeeded, Failed);
  }

  /** `createBatch(userId, accountId, urls)`: the ownership gate once, then one
      report entry per URL, in order; a URL that fails a check does not stop the
      batch. The queue run it launches is `ProcessExtractionQueue`. */
  method CreateBatch(db: Database, userId: nat, accountId: nat, urls: seq<string>, parseUrl: string -> Option<UrlParts>)
    returns (r: Result<BatchReport, Exception>)
    requires db.Valid()
    modifies db
    ensures db.Valid()
    ensures Accounts.FindOne(old(db.accounts), accountId, userId).Err? ==>
      r == Err(Accounts.FindOne(old(db.accounts), accountId, userId).error) && db.articles == old(db.articles)
    ensures Accounts.FindOne(old(db.accounts), accountId, userId).Ok? ==>
      var s := BatchIntake(Intake(old(db.articles), old(db.nextId), []), accountId, urls, parseUrl);
      && r == Ok(BatchReport(|urls|, CountWhere(s.items, Succeeded), CountWhere(s.items, Failed), s.items))
      && db.articles == s.articles && db.nextId == s.nextId
    ensures db.accounts == old(db.accounts) && db.templates == old(db.templates) && db.results == old(db.results)
  {
    var owned := Accounts.FindOne(db.accounts, accountId, userId);
    if owned.Err? {
      return Err(owned.error);
    }
    ghost var start := Intake(db.articles, db.nextId, []);
    var items: seq<BatchItem> := [];
    var i := 0;
    assert urls[i..] == urls;
    while i < |urls|
      invariant 0 <= i <= |urls|
      invariant db.Valid()
      invariant db.accounts == old(db.accounts) && db.templates == old(db.templates) && db.results == old(db.results)
      invariant IntakeIssued(Intake(db.articles, db.nextId, items))
      invariant BatchIntake(Intake(db.articles, db.nextId, items), accountId, urls[i..], parseUrl)
        == BatchIntake(start, accountId, urls, parseUrl)
    {
      BatchIntakeUnfold(Intake(db.articles, db.nextId, items), accountId, urls[i..], parseUrl);
      assert urls[i..][0] == urls[i] && urls[i..][1..] == urls[i + 1..];
      items := IntakeOne(db, accountId, urls[i], parseUrl, items);
      i := i + 1;
    }
    assert urls[i..] == [];
    r := Ok(BatchReport(|urls|, CountWhere(items, Succeeded), CountWhere(items, Failed), items));
  }

  // ---------------------------------------------------------------------------
  // The background task: download, then extract with every locked template

  /** The title an error leaves on the article: a message that mentions the
      crawler ("爬虫") means the download failed. */
  function FailureTitle(message: string): (title: string)
    ensures title == DownloadFailedTitle || title == ExtractFailedTitle
    ensures title == DownloadFailedTitle <==> Contains(message, "爬虫")
  {
    assert DownloadFailedTitle[0] != ExtractFailedTitle[0];
    if Contains(message, "爬虫") then DownloadFailedTitle else ExtractFailedTitle
  }

  /** The article after the crawler's result is written: news id, title,
      author, publish time (none when the crawler gave an empty one), raw data
      and markdown, and status `extracting`. */
  function Downloaded(a: Article, resp: Spider.SpiderResponse): (r: Article)
    ensures r.accountId == a.accountId && r.url == a.url && r.extractionCount == a.extractionCount
    ensures r.status == ArticleStatus.Extracting && r.rawContent == Crawled(resp.data)
    ensures r.publishTime.Some? <==> resp.data.publishTime != []
  {
    a.(newsId := resp.data.newsId,
       title := resp.data.title,
       authorName := resp.data.authorName,
       publishTime := if resp.data.publishTime != [] then Some(resp.data.publishTime) else None,
       rawContent := Crawled(resp.data),
       markdownContent := resp.markdown,
       status := ArticleStatus.Extracting)
  }

  /** The text given to the model: the markdown, or the serialised data object
      when the markdown is empty. `stringify` is `JSON.stringify`. */
  function Content(resp: Spider.SpiderResponse, stringify: RawContent -> string): (text: string)
    ensures resp.markdown != [] ==> text == resp.markdown
    ensures resp.markdown == [] ==> text == stringify(Crawled(resp.data))
  {
    if resp.markdown != [] then resp.markdown else stringify(Crawled(resp.data))
  }

  /** The locked templates of an account, removed ones included (the query
      does not look at `isActive`). */
  function LockedTemplates(templates: map<nat, Template>, bound: nat, accountId: nat): (ids: seq<nat>)
    ensures forall k :: 0 <= k < |ids| ==> ids[k] in templates && templates[ids[k]].accountId == accountId && templates[ids[k]].isLocked
    ensures forall id :: id < bound && id in templates && templates[id].accountId == accountId && templates[id].isLocked ==> id in ids
    ensures forall j, k :: 0 <= j < k < |ids| ==> ids[j] < ids[k]
  {
    OldestFirst(templates, (t: Template) => t.accountId == accountId && t.isLocked, bound)
  }

  /** The request a template makes of the model. */
  function Request(content: string, t: Template): Claude.ExtractionRequest
  {
    Claude.ExtractionRequest(content, t.fields, Some(t.modelPreference), t.promptTemplate)
  }

  /** The rows one reply becomes: one per record, each carrying its share of
      the tokens and of the time, rounded down. */
  function SplitRows(articleId: nat, templateId: nat, batch: BatchId, resp: Claude.ExtractionResponse): seq<ExtractionRow>
    requires |resp.data| > 0
  {
    var n := |resp.data|;
    seq(n, i requires 0 <= i < n =>
      ExtractionRow(articleId, templateId, batch, resp.data[i], resp.modelUsed,
        resp.tokensUsed / n, resp.extractionTime / n, ResultStatus.Completed, ""))
  }

  function SumTokens(rows: seq<ExtractionRow>): nat
  {
    if rows == [] then 0 else rows[0].tokensUsed + SumTokens(rows[1..])
  }

  function SumTime(rows: seq<ExtractionRow>): nat
  {
    if rows == [] then 0 else rows[0].extractionTime + SumTime(rows[1..])
  }

  lemma {:induction false} SumOfShares(rows: seq<ExtractionRow>, tokens: nat, time: nat)
    requires forall i :: 0 <= i < |rows| ==> rows[i].tokensUsed == tokens && rows[i].extractionTime == time
    ensures SumTokens(rows) == |rows| * tokens && SumTime(rows) == |rows| * time
  {
    if rows != [] {
      SumOfShares(rows[1..], tokens, time);
    }
  }

  lemma ShareBounds(total: nat, n: nat)
    requires n > 0
    ensures n * (total / n) <= total < n * (total / n) + n
  {
  }

  /** Splitting a reply over its records loses less than one token (and less
      than one millisecond) per record, and never adds any: the rows of one reply
      add up to at most what the call cost, and more than that minus the number
      of rows. */
  lemma SplitRowsShares(articleId: nat, templateId: nat, batch: BatchId, resp: Claude.ExtractionResponse)
    requires |resp.data| > 0
    ensures var rows := SplitRows(articleId, templateId, batch, resp);
      && |rows| == |resp.data|
      && SumTokens(rows) <= resp.tokensUsed < SumTokens(rows) + |rows|
      && SumTime(rows) <= resp.extractionTime < SumTime(rows) + |rows|
  {
    var n := |resp.data|;
    SumOfShares(SplitRows(articleId, templateId, batch, resp), resp.tokensUsed / n, resp.extractionTime / n);
    ShareBounds(resp.tokensUsed, n);
    ShareBounds(resp.extractionTime, n);
  }

  /** The result table with the id counter, as the template loop changes them. */
  datatype Rows = Rows(results: map<nat, ExtractionRow>, nextId: nat)

  ghost predicate Issued(rows: Rows)
  {
    forall id :: id in rows.results ==> id < rows.nextId
  }

  /** How many rows a template's extraction yields when it runs. */
  function Produced(content: string, t: Template, api: (string, string) -> Result<Claude.ApiReply, string>, parse: string -> Option<Json>): nat
  {
    match Claude.ExtractData(Request(content, t), api, parse)
    case Ok(resp) => |resp.data|
    case Err(_) => 0
  }

  /** One turn of the template loop: skipped when the article already has rows
      of the template; otherwise the model is called and each record becomes a
      completed row sharing one batch id; a failed call or an empty reply adds
      nothing, and the loop goes on. */
  function TemplateRun(rows: Rows, articleId: nat, templateId: nat, t: Template, content: string, batchTime: nat -> nat,
      api: (string, string) -> Result<Claude.ApiReply, string>, parse: string -> Option<Json>): (r: Rows)
    requires Issued(rows)
    ensures Issued(r) && rows.nextId <= r.nextId
    ensures forall id :: id in rows.results ==> id in r.results && r.results[id] == rows.results[id]
    ensures forall id :: id in r.results && id !in rows.results ==>
      rows.nextId <= id && r.results[id].articleId == articleId && r.results[id].templateId == templateId
      && r.results[id].status == ResultStatus.Completed
  {
    if HasRow(rows.results, articleId, templateId) then rows
    else match Claude.ExtractData(Request(content, t), api, parse)
      case Err(_) => rows
      case Ok(resp) =>
        if resp.data == [] then rows
        else AddReply(rows, articleId, templateId, BatchId(articleId, templateId, batchTime(templateId)), resp)
  }

  /** A non-empty reply's rows appended to the table: each new id holds a
      completed row of the article and template, and the ids run on from the
      counter, one per record. */
  function AddReply(rows: Rows, articleId: nat, templateId: nat, batch: BatchId, resp: Claude.ExtractionResponse): (r: Rows)
    requires Issued(rows) && |resp.data| > 0
    ensures Issued(r) && r.nextId == rows.nextId + |resp.data|
    ensures forall id :: id in r.results <==> id in rows.results || rows.nextId <= id < r.nextId
    ensures forall id :: id in rows.results ==> r.results[id] == rows.results[id]
    ensures forall id :: id in r.results && id !in rows.results ==>
      r.results[id].articleId == articleId && r.results[id].templateId == templateId
      && r.results[id].status == ResultStatus.Completed
  {
    var added := SplitRows(articleId, templateId, batch, resp);
    var appended := AppendRows(rows.results, rows.nextId, added);
    assert forall id :: id in appended && id !in rows.results ==> appended[id] == added[id - rows.nextId] by {
      forall id | id in appended && id !in rows.results ensures appended[id] == added[id - rows.nextId] {
        assert appended[rows.nextId + (id - rows.nextId)] == added[id - rows.nextId];
      }
    }
    Rows(appended, rows.nextId + |added|)
  }

  /** The template loop over `templateIds`, in order. */
  function RunTemplates(rows: Rows, articleId: nat, templateIds: seq<nat>, templates: map<nat, Template>, content: string,
      batchTime: nat -> nat, api: (string, string) -> Result<Claude.ApiReply, string>, parse: string -> Option<Json>): (r: Rows)
    requires Issued(rows)
    requires forall k :: 0 <= k < |templateIds| ==> templateIds[k] in templates
    ensures Issued(r) && rows.nextId <= r.nextId
    ensures forall id :: id in rows.results ==> id in r.results && r.results[id] == rows.results[id]
    ensures forall id :: id in r.results && id !in rows.results ==>
      rows.nextId <= id && r.results[id].articleId == articleId && r.results[id].templateId in templateIds
      && r.results[id].status == ResultStatus.Completed
    decreases |templateIds|
  {
    if templateIds == [] then rows
    else
      var step := TemplateRun(rows, articleId, templateIds[0], templates[templateIds[0]], content, batchTime, api, parse);
      assert forall k :: 1 <= k < |templateIds| ==> templateIds[k] == templateIds[1..][k - 1];
      RunTemplates(step, articleId, templateIds[1..], templates, content, batchTime, api, parse)
  }

  /** One template's turn: a template with rows is left as it was; otherwise
      it ends with exactly as many rows as its extraction yielded. */
  lemma TemplateRunRows(rows: Rows, articleId: nat, templateId: nat, t: Template, content: string, batchTime: nat -> nat,
      api: (string, string) -> Result<Claude.ApiReply, string>, parse: string -> Option<Json>)
    requires Issued(rows)
    ensures var r := TemplateRun(rows, articleId, templateId, t, content, batchTime, api, parse);
      HasRow(rows.results, articleId, templateId) ==> r == rows
    ensures var r := TemplateRun(rows, articleId, templateId, t, content, batchTime, api, parse);
      !HasRow(rows.results, articleId, templateId) ==>
        PairRows(r.results, articleId, templateId) == Range(rows.nextId, Produced(content, t, api, parse))
  {
    var r := TemplateRun(rows, articleId, templateId, t, content, batchTime, api, parse);
    if !HasRow(rows.results, articleId, templateId) {
      var n := Produced(content, t, api, parse);
      var got := PairRows(r.results, articleId, templateId);
      forall id ensures id in got <==> id in Range(rows.nextId, n) {
        if id in rows.results && rows.results[id].articleId == articleId {
          assert rows.results[id].templateId != templateId;
        }
      }
    }
  }

  /** One template's turn leaves the rows of every other template alone. */
  lemma TemplateRunLeavesOthers(rows: Rows, articleId: nat, templateId: nat, t: Template, content: string, batchTime: nat -> nat,
      api: (string, string) -> Result<Claude.ApiReply, string>, parse: string -> Option<Json>, other: nat)
    requires Issued(rows) && other != templateId
    ensures PairRows(TemplateRun(rows, articleId, templateId, t, content, batchTime, api, parse).results, articleId, other)
      == PairRows(rows.results, articleId, other)
  {
  }

  lemma {:induction false} RunTemplatesLeavesOthers(rows: Rows, articleId: nat, templateIds: seq<nat>, templates: map<nat, Template>,
      content: string, batchTime: nat -> nat, api: (string, string) -> Result<Claude.ApiReply, string>, parse: string -> Option<Json>, other: nat)
    requires Issued(rows)
    requires forall k :: 0 <= k < |templateIds| ==> templateIds[k] in templates
    requires other !in templateIds
    ensures PairRows(RunTemplates(rows, articleId, templateIds, templates, content, batchTime, api, parse).results, articleId, other)
      == PairRows(rows.results, articleId, other)
    decreases |templateIds|
  {
    if templateIds != [] {
      var step := TemplateRun(rows, articleId, templateIds[0], templates[templateIds[0]], content, batchTime, api, parse);
      TemplateRunLeavesOthers(rows, articleId, templateIds[0], templates[templateIds[0]], content, batchTime, api, parse, other);
      assert forall k :: 1 <= k < |templateIds| ==> templateIds[k] == templateIds[1..][k - 1];
      RunTemplatesLeavesOthers(step, articleId, templateIds[1..], templates, content, batchTime, api, parse, other);
    }
  }

  /** After the template loop, a listed template that already had rows for the
      article still has exactly those rows, and one that had none has exactly as
      many rows as its extraction yielded: no template is extracted twice. */
  lemma {:induction false} RunTemplatesRows(rows: Rows, articleId: nat, templateIds: seq<nat>, templates: map<nat, Template>,
      content: string, batchTime: nat -> nat, api: (string, string) -> Result<Claude.ApiReply, string>, parse: string -> Option<Json>, k: nat)
    requires Issued(rows)
    requires forall i :: 0 <= i < |templateIds| ==> templateIds[i] in templates
    requires forall i, j :: 0 <= i < j < |templateIds| ==> templateIds[i] != templateIds[j]
    requires k < |templateIds|
    ensures var r := RunTemplates(rows, articleId, templateIds, templates, content, batchTime, api, parse);
      HasRow(rows.results, articleId, templateIds[k]) ==>
        PairRows(r.results, articleId, templateIds[k]) == PairRows(rows.results, articleId, templateIds[k])
    ensures var r := RunTemplates(rows, articleId, templateIds, templates, content, batchTime, api, parse);
      !HasRow(rows.results, articleId, templateIds[k]) ==>
        |PairRows(r.results, articleId, templateIds[k])| == Produced(content, templates[templateIds[k]], api, parse)
    decreases |templateIds|
  {
    if k == 0 {
      RunTemplatesRowsFirst(rows, articleId, templateIds, templates, content, batchTime, api, parse);
    } else {
      var tid := templateIds[k];
      var step := TemplateRun(rows, articleId, templateIds[0], templates[templateIds[0]], content, batchTime, api, parse);
      assert forall i :: 1 <= i < |templateIds| ==> templateIds[i] == templateIds[1..][i - 1];
      TemplateRunLeavesOthers(rows, articleId, templateIds[0], templates[templateIds[0]], content, batchTime, api, parse, tid);
      HasRowIffPairRows(rows.results, articleId, tid);
      HasRowIffPairRows(step.results, articleId, tid);
      RunTemplatesRows(step, articleId, templateIds[1..], templates, content, batchTime, api, parse, k - 1);
    }
  }

  /** `RunTemplatesRows` for the first template of the loop: its own turn
      settles its rows, and the later turns leave them alone. */
  lemma RunTemplatesRowsFirst(rows: Rows, articleId: nat, templateIds: seq<nat>, templates: map<nat, Template>,
      content: string, batchTime: nat -> nat, api: (string, string) -> Result<Claude.ApiReply, string>, parse: string -> Option<Json>)
    requires Issued(rows)
    requires forall i :: 0 <= i < |templateIds| ==> templateIds[i] in templates
    requires forall i, j :: 0 <= i < j < |templateIds| ==> templateIds[i] != templateIds[j]
    requires templateIds != []
    ensures var r := RunTemplates(rows, articleId, templateIds, templates, content, batchTime, api, parse);
      HasRow(rows.results, articleId, templateIds[0]) ==>
        PairRows(r.results, articleId, templateIds[0]) == PairRows(rows.results, articleId, templateIds[0])
    ensures var r := RunTemplates(rows, articleId, templateIds, templates, content, batchTime, api, parse);
      !HasRow(rows.results, articleId, templateIds[0]) ==>
        |PairRows(r.results, articleId, templateIds[0])| == Produced(content, templates[templateIds[0]], api, parse)
  {
    var tid := templateIds[0];
    var step := TemplateRun(rows, articleId, tid, templates[tid], content, batchTime, api, parse);
    assert forall i :: 1 <= i < |templateIds| ==> templateIds[i] == templateIds[1..][i - 1];
    TemplateRunRows(rows, articleId, tid, templates[tid], content, batchTime, api, parse);
    RunTemplatesLeavesOthers(step, articleId, templateIds[1..], templates, content, batchTime, api, parse, tid);
  }

  lemma RunTemplatesUnfold(rows: Rows, articleId: nat, templateIds: seq<nat>, templates: map<nat, Template>, content: string,
      batchTime: nat -> nat, api: (string, string) -> Result<Claude.ApiReply, string>, parse: string -> Option<Json>)
    requires Issued(rows) && templateIds != []
    requires forall k :: 0 <= k < |templateIds| ==> templateIds[k] in templates
    ensures forall k :: 0 <= k < |templateIds[1..]| ==> templateIds[1..][k] in templates
    ensures RunTemplates(rows, articleId, templateIds, templates, content, batchTime, api, parse)
      == RunTemplates(TemplateRun(rows, articleId, templateIds[0], templates[templateIds[0]], content, batchTime, api, parse),
           articleId, templateIds[1..], templates, content, batchTime, api, parse)
  {
  }

  /** One turn of the template loop of the background task. */
  method RunTemplate(db: Database, articleId: nat, templateId: nat, content: string, batchTime: nat -> nat,
      api: (string, string) -> Result<Claude.ApiReply, string>, parse: string -> Option<Json>)
    requires db.Valid() && articleId in db.articles && templateId in db.templates
    modifies db
    ensures db.Valid()
    ensures Rows(db.results, db.nextId)
      == TemplateRun(Rows(old(db.results), old(db.nextId)), articleId, templateId, old(db.templates)[templateId], content, batchTime, api, parse)
    ensures db.accounts == old(db.accounts) && db.articles == old(db.articles) && db.templates == old(db.templates)
  {
    if !HasRow(db.results, articleId, templateId) {
      var reply := Claude.ExtractData(Request(content, db.templates[templateId]), api, parse);
      if reply.Ok? && reply.value.data != [] {
        var added := SplitRows(articleId, templateId, BatchId(articleId, templateId, batchTime(templateId)), reply.value);
        db.AddResults(added);
      }
    }
  }

  /** The template loop of the background task. */
  method RunLockedTemplates(db: Database, articleId: nat, templateIds: seq<nat>, content: string, batchTime: nat -> nat,
      api: (string, string) -> Result<Claude.ApiReply, string>, parse: string -> Option<Json>)
    requires db.Valid() && articleId in db.articles
    requires forall k :: 0 <= k < |templateIds| ==> templateIds[k] in db.templates
    modifies db
    ensures db.Valid()
    ensures Rows(db.results, db.nextId)
      == RunTemplates(Rows(old(db.results), old(db.nextId)), articleId, templateIds, old(db.templates), content, batchTime, api, parse)
    ensures db.accounts == old(db.accounts) && db.articles == old(db.articles) && db.templates == old(db.templates)
  {
    var i := 0;
    assert templateIds[i..] == templateIds;
    while i < |templateIds|
      invariant 0 <= i <= |templateIds|
      invariant db.Valid()
      invariant db.accounts == old(db.accounts) && db.articles == old(db.articles) && db.templates == old(db.templates)
      invariant RunTemplates(Rows(db.results, db.nextId), articleId, templateIds[i..], db.templates, content, batchTime, api, parse)
        == RunTemplates(Rows(old(db.results), old(db.nextId)), articleId, templateIds, old(db.templates), content, batchTime, api, parse)
    {
      var tid := templateIds[i];
      ghost var before := Rows(db.results, db.nextId);
      RunTemplatesUnfold(before, articleId, templateIds[i..], db.templates, content, batchTime, api, parse);
      assert templateIds[i..][0] == tid && templateIds[i..][1..] == templateIds[i + 1..];
      RunTemplate(db, articleId, tid, content, batchTime, api, parse);
      i := i + 1;
    }
  }

  /** What the background task leaves behind: the article and result tables,
      the id counter, and the statuses written to the article, in order. */
  datatype TaskState = TaskState(articles: map<nat, Article>, results: map<nat, ExtractionRow>, nextId: nat, statuses: seq<ArticleStatus>)

  /** The extraction half of the background job, once the crawler's data has been
      written as `d`: each locked template of the account is run over the
      content; the article ends `completed`, and when there were locked
      templates its extraction count is the number of result rows it has. */
  function Finished(articles: map<nat, Article>, templates: map<nat, Template>, results: map<nat, ExtractionRow>, nextId: nat,
      articleId: nat, d: Article, content: string, batchTime: nat -> nat,
      api: (string, string) -> Result<Claude.ApiReply, string>, parse: string -> Option<Json>): TaskState
    requires Issued(Rows(results, nextId))
  {
    var locked := LockedTemplates(templates, nextId, d.accountId);
    var statuses := [Downloading, ArticleStatus.Extracting, ArticleStatus.Completed];
    if locked == [] then
      TaskState(articles[articleId := d.(status := ArticleStatus.Completed)], results, nextId, statuses)
    else
      var run := RunTemplates(Rows(results, nextId), articleId, locked, templates, content, batchTime, api, parse);
      TaskState(articles[articleId := d.(status := ArticleStatus.Completed, extractionCount := |ArticleRows(run.results, articleId)|)],
        run.results, run.nextId, statuses)
  }

  /** The extraction half writes only its article, which ends `completed`
      with its account and URL, and only adds rows: completed rows of that
      article, for locked templates of the account, under fresh ids. */
  lemma FinishedSpec(articles: map<nat, Article>, templates: map<nat, Template>, results: map<nat, ExtractionRow>, nextId: nat,
      articleId: nat, d: Article, content: string, batchTime: nat -> nat,
      api: (string, string) -> Result<Claude.ApiReply, string>, parse: string -> Option<Json>)
    requires Issued(Rows(results, nextId))
    ensures var r := Finished(articles, templates, results, nextId, articleId, d, content, batchTime, api, parse);
      && r.articles.Keys == articles.Keys + {articleId}
      && (forall id :: id in articles && id != articleId ==> r.articles[id] == articles[id])
      && r.articles[articleId].status == ArticleStatus.Completed
      && r.articles[articleId].accountId == d.accountId && r.articles[articleId].url == d.url
      && Issued(Rows(r.results, r.nextId)) && nextId <= r.nextId
      && (forall id :: id in results ==> id in r.results && r.results[id] == results[id])
      && (forall id :: id in r.results && id !in results ==>
            nextId <= id && r.results[id].articleId == articleId && r.results[id].templateId in templates
            && templates[r.results[id].templateId].isLocked && r.results[id].status == ResultStatus.Completed)
  {
  }

  /** With no locked template for the account the extraction half leaves the
      result table alone: the article, as the crawler left it, just becomes
      `completed`, its extraction count untouched. */
  lemma FinishedWithoutTemplates(articles: map<nat, Article>, templates: map<nat, Template>, results: map<nat, ExtractionRow>, nextId: nat,
      articleId: nat, d: Article, content: string, batchTime: nat -> nat,
      api: (string, string) -> Result<Claude.ApiReply, string>, parse: string -> Option<Json>)
    requires Issued(Rows(results, nextId))
    requires LockedTemplates(templates, nextId, d.accountId) == []
    ensures var r := Finished(articles, templates, results, nextId, articleId, d, content, batchTime, api, parse);
      && r.results == results && r.nextId == nextId
      && r.articles == articles[articleId := d.(status := ArticleStatus.Completed)]
  {
  }

  /** With locked templates, the article's extraction count becomes the number
      of all its rows in the table afterwards: rows of any status, written by
      this run or earlier, placeholders and failed rows included. */
  lemma FinishedCountsEveryRow(articles: map<nat, Article>, templates: map<nat, Template>, results: map<nat, ExtractionRow>, nextId: nat,
      articleId: nat, d: Article, content: string, batchTime: nat -> nat,
      api: (string, string) -> Result<Claude.ApiReply, string>, parse: string -> Option<Json>)
    requires Issued(Rows(results, nextId))
    requires LockedTemplates(templates, nextId, d.accountId) != []
    ensures var r := Finished(articles, templates, results, nextId, articleId, d, content, batchTime, api, parse);
      && r.articles[articleId] == d.(status := ArticleStatus.Completed, extractionCount := |ArticleRows(r.results, articleId)|)
      && ArticleRows(results, articleId) <= ArticleRows(r.results, articleId)
  {
  }

  /** Every row the extraction half adds belongs to a locked template of the
      article's own account. */
  lemma FinishedRowsOfAccount(articles: map<nat, Article>, templates: map<nat, Template>, results: map<nat, ExtractionRow>, nextId: nat,
      articleId: nat, d: Article, content: string, batchTime: nat -> nat,
      api: (string, string) -> Result<Claude.ApiReply, string>, parse: string -> Option<Json>)
    requires Issued(Rows(results, nextId))
    ensures var r := Finished(articles, templates, results, nextId, articleId, d, content, batchTime, api, parse);
      forall id :: id in r.results && id !in results ==>
        r.results[id].templateId in templates && templates[r.results[id].templateId].accountId == d.accountId
        && templates[r.results[id].templateId].isLocked
  {
  }

  /** The background task for one article, as a function of the tables it
      starts from. The article goes to `downloading`; the crawler is called; on
      failure the article goes to `error` with the message and a title saying
      which step failed; on success the crawler's data is written, the article
      goes to `extracting`, and the extraction half runs. An article that no
      longer exists is left alone (the first update fails, and so does the one
      in the error handler). */
  function Task(articles: map<nat, Article>, templates: map<nat, Template>, results: map<nat, ExtractionRow>, nextId: nat,
      articleId: nat, url: string, fetch: (string, nat) -> Spider.FetchOutcome,
      api: (string, string) -> Result<Claude.ApiReply, string>, parse: string -> Option<Json>,
      stringify: RawContent -> string, batchTime: nat -> nat): (r: TaskState)
    requires Issued(Rows(results, nextId))
    ensures r.articles.Keys == articles.Keys
    ensures forall id :: id in articles && id != articleId ==> r.articles[id] == articles[id]
    ensures articleId in articles ==>
      && (r.articles[articleId].status == ArticleStatus.Completed || r.articles[articleId].status == Error)
      && r.articles[articleId].accountId == articles[articleId].accountId
      && r.articles[articleId].url == articles[articleId].url
    ensures articleId !in articles ==> r == TaskState(articles, results, nextId, [])
    ensures Issued(Rows(r.results, r.nextId)) && nextId <= r.nextId
    ensures forall id :: id in results ==> id in r.results && r.results[id] == results[id]
    ensures forall id :: id in r.results && id !in results ==>
      nextId <= id && r.results[id].articleId == articleId && r.results[id].templateId in templates
      && templates[r.results[id].templateId].isLocked && r.results[id].status == ResultStatus.Completed
  {
    if articleId !in articles then TaskState(articles, results, nextId, [])
    else
      var a := articles[articleId];
      match Spider.Fetched(fetch, url, Spider.DefaultRetries)
      case Err(message) =>
        TaskState(articles[articleId := a.(title := FailureTitle(message), status := Error, errorMessage := message)],
          results, nextId, [Downloading, Error])
      case Ok(resp) =>
        FinishedSpec(articles, templates, results, nextId, articleId, Downloaded(a, resp), Content(resp, stringify), batchTime, api, parse);
        Finished(articles, templates, results, nextId, articleId, Downloaded(a, resp), Content(resp, stringify), batchTime, api, parse)
  }

  /** The task ends in `error` exactly when the crawler gives up; the article
      then keeps everything but its title, which names the failed step, its
      status and its error message, which is the crawler's message, and the
      result table is untouched. When the crawler succeeds, the task is the
      extraction half run on the article with the crawler's data written. */
  lemma TaskOutcome(articles: map<nat, Article>, templates: map<nat, Template>, results: map<nat, ExtractionRow>, nextId: nat,
      articleId: nat, url: string, fetch: (string, nat) -> Spider.FetchOutcome,
      api: (string, string) -> Result<Claude.ApiReply, string>, parse: string -> Option<Json>,
      stringify: RawContent -> string, batchTime: nat -> nat)
    requires Issued(Rows(results, nextId)) && articleId in articles
    ensures var r := Task(articles, templates, results, nextId, articleId, url, fetch, api, parse, stringify, batchTime);
      var fetched := Spider.Fetched(fetch, url, Spider.DefaultRetries);
      && (r.articles[articleId].status == Error <==> fetched.Err?)
      && (fetched.Err? ==>
            && r.articles[articleId] == articles[articleId].(title := FailureTitle(fetched.error), status := Error, errorMessage := fetched.error)
            && r.results == results && r.nextId == nextId)
      && (fetched.Ok? ==>
            r == Finished(articles, templates, results, nextId, articleId, Downloaded(articles[articleId], fetched.value),
                   Content(fetched.value, stringify), batchTime, api, parse))
  {
    var fetched := Spider.Fetched(fetch, url, Spider.DefaultRetries);
    if fetched.Ok? {
      var d := Downloaded(articles[articleId], fetched.value);
      FinishedSpec(articles, templates, results, nextId, articleId, d, Content(fetched.value, stringify), batchTime, api, parse);
    }
  }

  /** The extraction half only writes the article it was given, so what the
      article held before does not matter. */
  lemma FinishedOverwritesArticle(articles: map<nat, Article>, templates: map<nat, Template>, results: map<nat, ExtractionRow>, nextId: nat,
      articleId: nat, d: Article, content: string, batchTime: nat -> nat,
      api: (string, string) -> Result<Claude.ApiReply, string>, parse: string -> Option<Json>, x: Article)
    requires Issued(Rows(results, nextId))
    ensures Finished(articles[articleId := x], templates, results, nextId, articleId, d, content, batchTime, api, parse)
      == Finished(articles, templates, results, nextId, articleId, d, content, batchTime, api, parse)
  {
    var locked := LockedTemplates(templates, nextId, d.accountId);
    if locked == [] {
      UpdateTwice(articles, articleId, x, d.(status := ArticleStatus.Completed));
    } else {
      var run := RunTemplates(Rows(results, nextId), articleId, locked, templates, content, batchTime, api, parse);
      UpdateTwice(articles, articleId, x, d.(status := ArticleStatus.Completed, extractionCount := |ArticleRows(run.results, articleId)|));
    }
  }

  lemma UpdateTwice<V>(m: map<nat, V>, k: nat, x: V, y: V)
    ensures m[k := x][k := y] == m[k := y]
  {
  }

  /** The extraction half of the background task. */
  method ExtractPhase(db: Database, articleId: nat, d: Article, content: string, batchTime: nat -> nat,
      api: (string, string) -> Result<Claude.ApiReply, string>, parse: string -> Option<Json>)
    requires db.Valid() && articleId in db.articles && d.accountId in db.accounts
    modifies db
    ensures db.Valid()
    ensures db.accounts == old(db.accounts) && db.templates == old(db.templates)
    ensures TaskState(db.articles, db.results, db.nextId, [Downloading, ArticleStatus.Extracting, ArticleStatus.Completed])
      == Finished(old(db.articles), old(db.templates), old(db.results), old(db.nextId), articleId, d, content, batchTime, api, parse)
  {
    var locked := LockedTemplates(db.templates, db.nextId, d.accountId);
    if locked == [] {
      db.PutArticle(articleId, d.(status := ArticleStatus.Completed));
    } else {
      RunLockedTemplates(db, articleId, locked, content, batchTime, api, parse);
      db.PutArticle(articleId, d.(status := ArticleStatus.Completed, extractionCount := |ArticleRows(db.results, articleId)|));
    }
  }

  /** `extractArticleContent(articleId, url)`: the whole task runs inside one
      slot of the limiter, which it gives back however the job ends; what the
      task does to the tables is `Task`. */
  method ExtractArticleContent(db: Database, limiter: Limiter.ConcurrencyLimiter, articleId: nat, url: string,
      fetch: (string, nat) -> Spider.FetchOutcome, api: (string, string) -> Result<Claude.ApiReply, string>,
      parse: string -> Option<Json>, stringify: RawContent -> string, batchTime: nat -> nat)
    returns (statuses: seq<ArticleStatus>)
    requires db.Valid() && limiter.Valid() && limiter.running < limiter.maxConcurrency
    modifies db, limiter
    ensures db.Valid() && limiter.Valid() && limiter.running == old(limiter.running)
    ensures db.accounts == old(db.accounts) && db.templates == old(db.templates)
    ensures TaskState(db.articles, db.results, db.nextId, statuses)
      == Task(old(db.articles), old(db.templates), old(db.results), old(db.nextId), articleId, url, fetch, api, parse, stringify, batchTime)
  {
    var admitted := limiter.TryAdmit();
    if articleId !in db.articles {
      limiter.Release();
      return [];
    }
    var a := db.articles[articleId];
    db.PutArticle(articleId, a.(status := Downloading, title := DownloadingTitle));
    var fetched, _, _ := Spider.ExtractArticle(fetch, url, Spider.DefaultRetries);
    if fetched.Err? {
      var message := fetched.error;
      db.PutArticle(articleId, db.articles[articleId].(title := FailureTitle(message), status := Error, errorMessage := message));
      statuses := [Downloading, Error];
      UpdateTwice(old(db.articles), articleId, a.(status := Downloading, title := DownloadingTitle), db.articles[articleId]);
      limiter.Release();
      return;
    }
    var resp := fetched.value;
    var d := Downloaded(db.articles[articleId], resp);
    assert d == Downloaded(a, resp);
    db.PutArticle(articleId, d);
    FinishedOverwritesArticle(old(db.articles), db.templates, db.results, db.nextId, articleId, d, Content(resp, stringify), batchTime, api, parse, d);
    FinishedOverwritesArticle(old(db.articles)[articleId := a.(status := Downloading, title := DownloadingTitle)], db.templates, db.results, db.nextId, articleId, d, Content(resp, stringify), batchTime, api, parse, d);
    UpdateTwice(old(db.articles), articleId, a.(status := Downloading, title := DownloadingTitle), d);
    ExtractPhase(db, articleId, d, Content(resp, stringify), batchTime, api, parse);
    statuses := [Downloading, ArticleStatus.Extracting, ArticleStatus.Completed];
    limiter.Release();
  }

  /** Every download that fails at the HTTP client titles the article
      "下载失败", since the rewrapped message names the crawler; a failure the
      crawler reports in its response body is titled "提取失败" unless its own
      text mentions the crawler. */
  lemma FailureTitles(fetch: (string, nat) -> Spider.FetchOutcome, url: string)
    requires Spider.Fetched(fetch, url, Spider.DefaultRetries).Err?
    ensures var last := fetch(url, Spider.DefaultRetries);
      var message := Spider.Fetched(fetch, url, Spider.DefaultRetries).error;
      && (last.AxiosFailure? ==> FailureTitle(message) == DownloadFailedTitle)
      && (last.Responded? && last.response.error != [] && !Contains(last.response.error, "爬虫") ==>
            FailureTitle(message) == ExtractFailedTitle)
  {
    var last := fetch(url, Spider.DefaultRetries);
    var message := Spider.Fetched(fetch, url, Spider.DefaultRetries).error;
    if last.AxiosFailure? {
      assert message == "爬虫API调用失败: " + last.message;
      assert OccursAt(message, "爬虫", 0);
    }
  }

  // ---------------------------------------------------------------------------
  // The queue

  /** The pending articles, oldest first. */
  function PendingQueue(articles: map<nat, Article>, bound: nat): (ids: seq<nat>)
    ensures forall k :: 0 <= k < |ids| ==> ids[k] in articles && articles[ids[k]].status == Pending
    ensures forall id :: id < bound && id in articles && articles[id].status == Pending ==> id in ids
    ensures forall j, k :: 0 <= j < k < |ids| ==> ids[j] < ids[k]
  {
    OldestFirst(articles, (a: Article) => a.status == Pending, bound)
  }

  /** The background task run for each article of `queue` in turn, each with
      the article's own URL. */
  function RunQueue(articles: map<nat, Article>, templates: map<nat, Template>, results: map<nat, ExtractionRow>, nextId: nat,
      queue: seq<nat>, fetch: (string, nat) -> Spider.FetchOutcome,
      api: (string, string) -> Result<Claude.ApiReply, string>, parse: string -> Option<Json>,
      stringify: RawContent -> string, batchTime: nat -> nat): (r: TaskState)
    requires Issued(Rows(results, nextId))
    requires forall k :: 0 <= k < |queue| ==> queue[k] in articles
    ensures r.articles.Keys == articles.Keys
    ensures forall id :: id in articles && id !in queue ==> r.articles[id] == articles[id]
    ensures Issued(Rows(r.results, r.nextId))
    decreases |queue|
  {
    if queue == [] then TaskState(articles, results, nextId, [])
    else
      var t := Task(articles, templates, results, nextId, queue[0], articles[queue[0]].url, fetch, api, parse, stringify, batchTime);
      assert forall k :: 1 <= k < |queue| ==> queue[k] == queue[1..][k - 1];
      var r := RunQueue(t.articles, templates, t.results, t.nextId, queue[1..], fetch, api, parse, stringify, batchTime);
      assert forall id :: id in queue[1..] ==> id in queue;
      r
  }

  predicate Settled(a: Article)
  {
    a.status == ArticleStatus.Completed || a.status == Error
  }

  /** The head of a queue is settled once its own task ran and the rest of
      the queue either settles it again or leaves it alone. */
  lemma SettledAfter(queue: seq<nat>, mid: map<nat, Article>, last: map<nat, Article>)
    requires queue != [] && queue[0] in mid && Settled(mid[queue[0]]) && last.Keys == mid.Keys
    requires forall id :: id in mid && id !in queue[1..] ==> last[id] == mid[id]
    requires forall k :: 0 <= k < |queue[1..]| ==> queue[1..][k] in last && Settled(last[queue[1..][k]])
    ensures forall k :: 0 <= k < |queue| ==> queue[k] in last && Settled(last[queue[k]])
  {
    forall k | 0 <= k < |queue| ensures queue[k] in last && Settled(last[queue[k]]) {
      if k > 0 {
        assert queue[k] == queue[1..][k - 1];
      } else if queue[0] in queue[1..] {
        var j :| 0 <= j < |queue[1..]| && queue[1..][j] == queue[0];
      }
    }
  }

  /** Every article of the queue ends `completed` or `error`, including one
      listed twice. */
  lemma {:induction false} RunQueueSettles(articles: map<nat, Article>, templates: map<nat, Template>, results: map<nat, ExtractionRow>, nextId: nat,
      queue: seq<nat>, fetch: (string, nat) -> Spider.FetchOutcome,
      api: (string, string) -> Result<Claude.ApiReply, string>, parse: string -> Option<Json>,
      stringify: RawContent -> string, batchTime: nat -> nat)
    requires Issued(Rows(results, nextId))
    requires forall k :: 0 <= k < |queue| ==> queue[k] in articles
    ensures var r := RunQueue(articles, templates, results, nextId, queue, fetch, api, parse, stringify, batchTime);
      forall k :: 0 <= k < |queue| ==> queue[k] in r.articles && Settled(r.articles[queue[k]])
    decreases |queue|
  {
    if queue != [] {
      var t := Task(articles, templates, results, nextId, queue[0], articles[queue[0]].url, fetch, api, parse, stringify, batchTime);
      var rest := queue[1..];
      assert forall k :: 1 <= k < |queue| ==> queue[k] == rest[k - 1];
      RunQueueSettles(t.articles, templates, t.results, t.nextId, rest, fetch, api, parse, stringify, batchTime);
      var r := RunQueue(t.articles, templates, t.results, t.nextId, rest, fetch, api, parse, stringify, batchTime);
      SettledAfter(queue, t.articles, r.articles);
    }
  }

  /** After the queue has run, no article that was pending is still pending:
      each ended `completed` or `error`. Articles that were not pending are as
      they were. */
  lemma QueueSettlesPending(articles: map<nat, Article>, templates: map<nat, Template>, results: map<nat, ExtractionRow>, nextId: nat,
      fetch: (string, nat) -> Spider.FetchOutcome, api: (string, string) -> Result<Claude.ApiReply, string>,
      parse: string -> Option<Json>, stringify: RawContent -> string, batchTime: nat -> nat)
    requires Issued(Rows(results, nextId))
    requires forall id :: id in articles ==> id < nextId
    ensures var r := RunQueue(articles, templates, results, nextId, PendingQueue(articles, nextId), fetch, api, parse, stringify, batchTime);
      && r.articles.Keys == articles.Keys
      && (forall id :: id in articles && articles[id].status == Pending ==>
            r.articles[id].status == ArticleStatus.Completed || r.articles[id].status == Error)
      && (forall id :: id in articles && articles[id].status != Pending ==> r.articles[id] == articles[id])
  {
    var queue := PendingQueue(articles, nextId);
    var r := RunQueue(articles, templates, results, nextId, queue, fetch, api, parse, stringify, batchTime);
    RunQueueSettles(articles, templates, results, nextId, queue, fetch, api, parse, stringify, batchTime);
    forall id | id in articles && articles[id].status == Pending
      ensures r.articles[id].status == ArticleStatus.Completed || r.articles[id].status == Error
    {
      assert id in queue;
      var k :| 0 <= k < |queue| && queue[k] == id;
    }
  }

  /** `processExtractionQueue()`: the background task for every pending
      article, oldest first, one after another. */
  method ProcessExtractionQueue(db: Database, limiter: Limiter.ConcurrencyLimiter,
      fetch: (string, nat) -> Spider.FetchOutcome, api: (string, string) -> Result<Claude.ApiReply, string>,
      parse: string -> Option<Json>, stringify: RawContent -> string, batchTime: nat -> nat)
    returns (queue: seq<nat>)
    requires db.Valid() && limiter.Valid() && limiter.running < limiter.maxConcurrency
    modifies db, limiter
    ensures db.Valid() && limiter.Valid() && limiter.running == old(limiter.running)
    ensures queue == PendingQueue(old(db.articles), old(db.nextId))
    ensures db.accounts == old(db.accounts) && db.templates == old(db.templates)
    ensures var r := RunQueue(old(db.articles), old(db.templates), old(db.results), old(db.nextId), queue, fetch, api, parse, stringify, batchTime);
      db.articles == r.articles && db.results == r.results && db.nextId == r.nextId
  {
    queue := PendingQueue(db.articles, db.nextId);
    var i := 0;
    assert queue[i..] == queue;
    while i < |queue|
      invariant 0 <= i <= |queue|
      invariant db.Valid() && limiter.Valid() && limiter.running == old(limiter.running)
      invariant db.accounts == old(db.accounts) && db.templates == old(db.templates)
      invariant db.articles.Keys == old(db.articles).Keys
      invariant var r := RunQueue(db.articles, db.templates, db.results, db.nextId, queue[i..], fetch, api, parse, stringify, batchTime);
        var goal := RunQueue(old(db.articles), old(db.templates), old(db.results), old(db.nextId), queue, fetch, api, parse, stringify, batchTime);
        r.articles == goal.articles && r.results == goal.results && r.nextId == goal.nextId
    {
      var id := queue[i];
      assert queue[i..][0] == id && queue[i..][1..] == queue[i + 1..];
      var _ := ExtractArticleContent(db, limiter, id, db.articles[id].url, fetch, api, parse, stringify, batchTime);
      i := i + 1;
    }
  }

  // ---------------------------------------------------------------------------
  // Reading articles

  /** `findOne(id, userId)`: a missing article is NotFound, then the account's
      ownership gate decides. */
  function FindOne(accounts: map<nat, Account>, articles: map<nat, Article>, id: nat, userId: nat): (r: Result<Article, Exception>)
    ensures r == Err(NotFound(ArticleMissing)) <==> id !in articles
    ensures r.Ok? <==> id in articles && Accounts.FindOne(accounts, articles[id].accountId, userId).Ok?
    ensures r.Ok? ==> r.value == articles[id]
    ensures id in articles && r.Err? ==> r.error == Accounts.FindOne(accounts, articles[id].accountId, userId).error
  {
    if id !in articles then Err(NotFound(ArticleMissing))
    else match Accounts.FindOne(accounts, articles[id].accountId, userId)
      case Err(e) => Err(e)
      case Ok(_) => Ok(articles[id])
  }

  /** `skip: (page - 1) * pageSize, take: pageSize`: None when the store refuses
      the paging, which it does for a negative skip. A non-negative take reads
      forward from the skipped rows; a negative take reads backward: the store
      skips `skip` rows from the end of the list and returns the `-take` rows
      before them, in list order. */
  function Page<T>(xs: seq<T>, page: int, pageSize: int): (r: Option<seq<T>>)
    ensures r.None? <==> (page - 1) * pageSize < 0
    ensures r.Some? && pageSize >= 0 ==>
      var skip := (page - 1) * pageSize;
      && |r.value| == (if skip >= |xs| then 0 else if pageSize < |xs| - skip then pageSize else |xs| - skip)
      && forall k :: 0 <= k < |r.value| ==> r.value[k] == xs[skip + k]
    ensures r.Some? && pageSize < 0 ==>
      var skip := (page - 1) * pageSize;
      var end := if skip >= |xs| then 0 else |xs| - skip;
      && |r.value| == (if -pageSize < end then -pageSize else end)
      && forall k :: 0 <= k < |r.value| ==> r.value[k] == xs[end - |r.value| + k]
  {
    var skip := (page - 1) * pageSize;
    if skip < 0 then None
    else if pageSize >= 0 then
      if skip >= |xs| then Some([])
      else if pageSize < |xs| - skip then Some(xs[skip..skip + pageSize])
      else Some(xs[skip..])
    else
      var end := if skip >= |xs| then 0 else |xs| - skip;
      if -pageSize < end then Some(xs[end + pageSize..end]) else Some(xs[..end])
  }

  /** Where a page starts in the list it was cut from. */
  function PageBase(n: nat, page: int, pageSize: int, length: nat): int
  {
    var skip := (page - 1) * pageSize;
    if pageSize >= 0 then skip else (if skip >= n then 0 else n - skip) - length
  }

  /** A page is a run of consecutive elements of the list. */
  lemma PageIsRun<T>(xs: seq<T>, page: int, pageSize: int)
    requires Page(xs, page, pageSize).Some?
    ensures var p := Page(xs, page, pageSize).value; var base := PageBase(|xs|, page, pageSize, |p|);
      forall k :: 0 <= k < |p| ==> 0 <= base + k < |xs| && p[k] == xs[base + k]
  {
  }

  /** A negative page size on the first page reads the last rows of the list:
      `take: -n` with no skip returns the final `n` elements, where a
      non-negative size would return the first ones. */
  lemma NegativeTakeReadsFromEnd<T>(xs: seq<T>, n: nat)
    requires 0 < n <= |xs|
    ensures Page(xs, 1, -(n as int)) == Some(xs[|xs| - n..])
  {
    assert (1 - 1) * -(n as int) == 0;
    if n == |xs| {
      assert xs[..|xs|] == xs[|xs| - n..];
    } else {
      assert xs[|xs| - n..|xs|] == xs[|xs| - n..];
    }
  }

  /** Paging covers the list: with a positive page size, the element at index
      `k` is on page `k / pageSize + 1`, at position `k % pageSize`. */
  lemma PagesCoverList<T>(xs: seq<T>, pageSize: int, k: nat)
    requires pageSize > 0 && k < |xs|
    ensures var p := Page(xs, k / pageSize + 1, pageSize);
      p.Some? && k % pageSize < |p.value| && p.value[k % pageSize] == xs[k]
  {
    var skip := (k / pageSize) * pageSize;
    assert k == skip + k % pageSize;
    assert (k / pageSize + 1 - 1) * pageSize == skip;
  }

  datatype ArticleList = ArticleList(items: seq<nat>, total: nat, page: int, pageSize: int)

  /** The `where` of the list query. */
  datatype Scope = Everything | OfAccount(accountId: nat) | OfAccounts(accountIds: seq<nat>)

  predicate InScope(scope: Scope, a: Article)
  {
    match scope
    case Everything => true
    case OfAccount(id) => a.accountId == id
    case OfAccounts(ids) => a.accountId in ids
  }

  function Keep(scope: Scope): Article -> bool
  {
    a => InScope(scope, a)
  }

  /** The list query once its scope is fixed: the articles in scope, newest
      first, one page of them, and how many there are in all. */
  function ListWhere(articles: map<nat, Article>, bound: nat, scope: Scope, page: int, pageSize: int): (r: Result<ArticleList, Exception>)
    ensures r.Err? <==> (page - 1) * pageSize < 0
    ensures r.Err? ==> r.error == Thrown(PagingRejected)
    ensures r.Ok? ==> r.value.page == page && r.value.pageSize == pageSize
    ensures r.Ok? ==> forall k :: 0 <= k < |r.value.items| ==>
      r.value.items[k] < bound && r.value.items[k] in articles && InScope(scope, articles[r.value.items[k]])
    ensures r.Ok? ==> forall j, k :: 0 <= j < k < |r.value.items| ==> r.value.items[j] > r.value.items[k]
  {
    var matching := NewestFirst(articles, Keep(scope), bound);
    match Page(matching, page, pageSize)
    case None => Err(Thrown(PagingRejected))
    case Some(items) =>
      PageIsRun(matching, page, pageSize);
      Ok(ArticleList(items, |matching|, page, pageSize))
  }

  /** The total counts every article in scope, each once: with a page large
      enough, the first page lists exactly the articles in scope. */
  lemma ListWhereTotal(articles: map<nat, Article>, bound: nat, scope: Scope, pageSize: int)
    requires pageSize >= bound
    ensures var r := ListWhere(articles, bound, scope, 1, pageSize);
      && r.Ok? && |r.value.items| == r.value.total
      && forall id :: id < bound && id in articles && InScope(scope, articles[id]) ==> id in r.value.items
  {
    var matching := NewestFirst(articles, Keep(scope), bound);
    var r := ListWhere(articles, bound, scope, 1, pageSize);
    DistinctBelow(matching, bound);
    assert r.value.items == matching[0..|matching|];
  }

  /** A list of distinct numbers below `bound` is no longer than `bound`. */
  lemma DistinctBelow(xs: seq<nat>, bound: nat)
    requires forall k :: 0 <= k < |xs| ==> xs[k] < bound
    requires forall j, k :: 0 <= j < k < |xs| ==> xs[j] > xs[k]
    ensures |xs| <= bound
  {
    var s := set k | 0 <= k < |xs| :: xs[k];
    assert s <= Range(0, bound);
    assert |s| == |xs| by {
      SizeOfImage(xs);
    }
    SubsetSize(s, Range(0, bound));
  }

  lemma {:induction false} SizeOfImage(xs: seq<nat>)
    requires forall j, k :: 0 <= j < k < |xs| ==> xs[j] > xs[k]
    ensures |set k | 0 <= k < |xs| :: xs[k]| == |xs|
  {
    if xs != [] {
      var rest := xs[1..];
      SizeOfImage(rest);
      var a := set k | 0 <= k < |xs| :: xs[k];
      var b := set k | 0 <= k < |rest| :: rest[k];
      assert a == b + {xs[0]} by {
        forall x | x in a ensures x in b + {xs[0]} {
          var k :| 0 <= k < |xs| && xs[k] == x;
          if k > 0 {
            assert rest[k - 1] == x;
          }
        }
      }
      assert xs[0] !in b;
    }
  }

  lemma SubsetSize(a: set<nat>, b: set<nat>)
    requires a <= b
    ensures |a| <= |b|
  {
    assert b == a + (b - a);
  }

  /** `findAll(userId, accountId, page, pageSize)` as written: with an account
      id, the ownership gate and then that account's articles; without one, an
      empty list for a user with no active account, and otherwise the scope is
      dropped and the articles of every account are listed. */
  function FindAllAsWritten(accounts: map<nat, Account>, articles: map<nat, Article>, bound: nat, userId: nat,
      accountId: Option<nat>, page: int, pageSize: int): (r: Result<ArticleList, Exception>)
    ensures accountId.Some? && Accounts.FindOne(accounts, accountId.value, userId).Err? ==>
      r == Err(Accounts.FindOne(accounts, accountId.value, userId).error)
    ensures accountId.Some? && Accounts.FindOne(accounts, accountId.value, userId).Ok? ==>
      r == ListWhere(articles, bound, OfAccount(accountId.value), page, pageSize)
    ensures accountId.None? && Accounts.FindAll(accounts, bound, userId) == [] ==> r == Ok(ArticleList([], 0, page, pageSize))
    ensures accountId.None? && Accounts.FindAll(accounts, bound, userId) != [] ==> r == ListWhere(articles, bound, Everything, page, pageSize)
  {
    match accountId
    case Some(aid) =>
      (match Accounts.FindOne(accounts, aid, userId)
       case Err(e) => Err(e)
       case Ok(_) => ListWhere(articles, bound, OfAccount(aid), page, pageSize))
    case None =>
      if Accounts.FindAll(accounts, bound, userId) == [] then Ok(ArticleList([], 0, page, pageSize))
      else ListWhere(articles, bound, Everything, page, pageSize)
  }

  /** The list without an account id shows another user's article: user 1 owns
      account 0, user 2 owns account 1, and article 2 of account 1 is listed
      for user 1. */
  lemma FindAllAsWrittenShowsOtherUsersArticles()
    ensures var accounts := map[0 := Account(1, "a", "", "", "", "", JNull, true), 1 := Account(2, "b", "", "", "", "", JNull, true)];
      var articles := map[2 := Fresh(1, "https://mp.weixin.qq.com/s/x", "x", ExtractingTitle, ArticleStatus.Extracting)];
      var r := FindAllAsWritten(accounts, articles, 3, 1, None, 1, 20);
      && r.Ok? && 2 in r.value.items
      && Accounts.FindOne(accounts, articles[2].accountId, 1).Err?
  {
    var accounts := map[0 := Account(1, "a", "", "", "", "", JNull, true), 1 := Account(2, "b", "", "", "", "", JNull, true)];
    var articles := map[2 := Fresh(1, "https://mp.weixin.qq.com/s/x", "x", ExtractingTitle, ArticleStatus.Extracting)];
    assert 0 in Accounts.FindAll(accounts, 3, 1);
    ListWhereTotal(articles, 3, Everything, 20);
  }

  /** `findAll` as intended: without an account id, the articles of the
      caller's active accounts. */
  function FindAll(accounts: map<nat, Account>, articles: map<nat, Article>, bound: nat, userId: nat,
      accountId: Option<nat>, page: int, pageSize: int): (r: Result<ArticleList, Exception>)
    ensures accountId.Some? && Accounts.FindOne(accounts, accountId.value, userId).Err? ==>
      r == Err(Accounts.FindOne(accounts, accountId.value, userId).error)
    ensures accountId.Some? && Accounts.FindOne(accounts, accountId.value, userId).Ok? ==>
      r == ListWhere(articles, bound, OfAccount(accountId.value), page, pageSize)
    ensures accountId.None? && Accounts.FindAll(accounts, bound, userId) == [] ==> r == Ok(ArticleList([], 0, page, pageSize))
    ensures r.Ok? ==> forall k :: 0 <= k < |r.value.items| ==>
      r.value.items[k] in articles && Accounts.FindOne(accounts, articles[r.value.items[k]].accountId, userId).Ok?
  {
    match accountId
    case Some(aid) =>
      (match Accounts.FindOne(accounts, aid, userId)
       case Err(e) => Err(e)
       case Ok(_) => ListWhere(articles, bound, OfAccount(aid), page, pageSize))
    case None =>
      var owned := Accounts.FindAll(accounts, bound, userId);
      if owned == [] then Ok(ArticleList([], 0, page, pageSize))
      else ListWhere(articles, bound, OfAccounts(owned), page, pageSize)
  }

  /** Without an account id, a large enough first page lists every article of
      every active account the caller owns. */
  lemma FindAllListsAllOwnArticles(accounts: map<nat, Account>, articles: map<nat, Article>, bound: nat, userId: nat, pageSize: int)
    requires pageSize >= bound
    ensures var r := FindAll(accounts, articles, bound, userId, None, 1, pageSize);
      && r.Ok?
      && forall id :: id < bound && id in articles && articles[id].accountId < bound && articles[id].accountId in accounts
           && accounts[articles[id].accountId].userId == userId && accounts[articles[id].accountId].isActive
           ==> id in r.value.items
  {
    var owned := Accounts.FindAll(accounts, bound, userId);
    if owned != [] {
      ListWhereTotal(articles, bound, OfAccounts(owned), pageSize);
    }
  }
}
