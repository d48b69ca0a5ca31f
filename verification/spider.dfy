/**
 * The fetch collaborator adapter of backend/src/spider/spider.service.ts:
 * `extractArticle` posts the URL to the crawler service, retrying with a
 * linear backoff, and rewraps the last error; `extractArticles` fetches a list
 * of URLs.
 *
 * The HTTP call is an oracle `fetch(url, attempt)`: what the attempt-th POST
 * for `url` produced. The sleeps between attempts are returned as the list of
 * their durations in milliseconds.
 */
module Spider {
  import opened Common

  /** The `data` object of a crawler response: the members the pipeline reads,
      and the rest of the object kept as one JSON value. */
  datatype SpiderData = SpiderData(
    title: string,
    newsUrl: string,
    newsId: string,
    authorName: string,
    publishTime: string,
    others: Json)

  /** A crawler response body; an `error` of null is written "". */
  datatype SpiderResponse = SpiderResponse(status: string, data: SpiderData, markdown: string, error: string)

  /** What one POST produced: a response body, an error raised by the HTTP
      client (an axios error), or any other error. */
  datatype FetchOutcome =
    | Responded(response: SpiderResponse)
    | AxiosFailure(message: string)
    | OtherFailure(message: string)

  /** The error caught for a failed attempt. */
  datatype AttemptError = AttemptError(fromAxios: bool, message: string)

  /** The parameter's default: two retries, so three attempts. */
  const DefaultRetries: nat := 2

  /** One attempt: a body whose status is not "success" counts as a failure
      with its own error text, or "文章提取失败" when it has none. */
  function Attempt(o: FetchOutcome): (r: Result<SpiderResponse, AttemptError>)
    ensures r.Ok? <==> o.Responded? && o.response.status == "success"
    ensures r.Ok? ==> r.value == o.response
    ensures r.Err? && o.Responded? ==>
      r.error == AttemptError(false, if o.response.error == "" then "文章提取失败" else o.response.error)
    ensures r.Err? && !o.Responded? ==> r.error == AttemptError(o.AxiosFailure?, o.message)
  {
    match o
    case Responded(resp) =>
      if resp.status == "success" then Ok(resp)
      else Err(AttemptError(false, if resp.error != "" then resp.error else "文章提取失败"))
    case AxiosFailure(m) => Err(AttemptError(true, m))
    case OtherFailure(m) => Err(AttemptError(false, m))
  }

  /** The error thrown once every attempt has failed: an axios error is
      rewrapped with the "爬虫API调用失败: " prefix, any other error is rethrown. */
  function FinalMessage(e: AttemptError): string
  {
    if e.fromAxios then "爬虫API调用失败: " + e.message else e.message
  }

  /** The pause after failed attempt `k` (counted from 0): 2 s, 4 s, ... */
  function Backoff(k: nat): (ms: nat)
    ensures ms >= 2000 && ms % 2000 == 0
    ensures ms / 2000 > k
  {
    (k + 1) * 2000
  }

  /** The pauses after the first `n` failed attempts together: 1000·n·(n+1)
      ms, so 6 s for the default two retries. */
  function TotalBackoff(n: nat): (ms: nat)
    ensures ms == 1000 * n * (n + 1)
  {
    if n == 0 then 0
    else
      var m := n - 1;
      assert 1000 * m * (m + 1) + (m + 1) * 2000 == 1000 * n * (n + 1) by {
        assert 1000 * m * (m + 1) + (m + 1) * 2000 == 1000 * (m + 1) * (m + 2);
      }
      TotalBackoff(m) + Backoff(m)
  }

  /** The first attempt among `from..retries` that succeeds. */
  function FirstSuccess(fetch: (string, nat) -> FetchOutcome, url: string, from: nat, retries: nat): (r: Option<nat>)
    ensures r.Some? ==> from <= r.value <= retries && Attempt(fetch(url, r.value)).Ok?
    ensures r.Some? ==> forall k :: from <= k < r.value ==> Attempt(fetch(url, k)).Err?
    ensures r.None? <==> forall k :: from <= k <= retries ==> Attempt(fetch(url, k)).Err?
    decreases retries + 1 - from
  {
    if from > retries then None
    else if Attempt(fetch(url, from)).Ok? then Some(from)
    else FirstSuccess(fetch, url, from + 1, retries)
  }

  /** What `extractArticle(url, retries)` settles with. */
  function Fetched(fetch: (string, nat) -> FetchOutcome, url: string, retries: nat): Result<SpiderResponse, string>
  {
    match FirstSuccess(fetch, url, 0, retries)
    case Some(k) => Ok(Attempt(fetch(url, k)).value)
    case None => Err(FinalMessage(Attempt(fetch(url, retries)).error))
  }

  /** `extractArticle`: at most `retries + 1` attempts; the first successful
      response is returned at once; after every failed attempt but the last
      there is a pause of `(k + 1) * 2000` ms; when all fail, the last error is
      rethrown (rewrapped if it came from the HTTP client). */
  method ExtractArticle(fetch: (string, nat) -> FetchOutcome, url: string, retries: nat)
    returns (r: Result<SpiderResponse, string>, attempts: nat, waits: seq<nat>)
    ensures 1 <= attempts <= retries + 1
    ensures r == Fetched(fetch, url, retries)
    ensures r.Ok? ==>
      attempts == FirstSuccess(fetch, url, 0, retries).value + 1 && r.value == Attempt(fetch(url, attempts - 1)).value
    ensures r.Err? ==>
      attempts == retries + 1 && forall k :: 0 <= k < attempts ==> Attempt(fetch(url, k)).Err?
    ensures |waits| == attempts - 1
    ensures forall k :: 0 <= k < |waits| ==> waits[k] == Backoff(k)
  {
    var lastError := AttemptError(false, "");
    var attempt: nat := 0;
    waits := [];
    while attempt <= retries
      invariant attempt <= retries + 1
      invariant forall k :: 0 <= k < attempt ==> Attempt(fetch(url, k)).Err?
      invariant attempt > 0 ==> lastError == Attempt(fetch(url, attempt - 1)).error
      invariant |waits| == if attempt <= retries then attempt else retries
      invariant forall k :: 0 <= k < |waits| ==> waits[k] == Backoff(k)
    {
      var outcome := Attempt(fetch(url, attempt));
      if outcome.Ok? {
        assert FirstSuccess(fetch, url, 0, retries) == Some(attempt);
        return Ok(outcome.value), attempt + 1, waits;
      }
      lastError := outcome.error;
      if attempt < retries {
        waits := waits + [Backoff(attempt)];
      }
      attempt := attempt + 1;
    }
    assert FirstSuccess(fetch, url, 0, retries).None?;
    r := Err(FinalMessage(lastError));
    attempts := retries + 1;
  }

  /** What `extractArticles(urls)` settles with: every response, in URL order,
      or the error of a URL that failed (here the first such URL in the list). */
  function AllFetched(fetch: (string, nat) -> FetchOutcome, urls: seq<string>): (r: Result<seq<SpiderResponse>, string>)
    ensures r.Ok? <==> forall i :: 0 <= i < |urls| ==> Fetched(fetch, urls[i], DefaultRetries).Ok?
    ensures r.Ok? ==>
      |r.value| == |urls| && forall i :: 0 <= i < |urls| ==> r.value[i] == Fetched(fetch, urls[i], DefaultRetries).value
    ensures r.Err? ==> exists i :: 0 <= i < |urls| && Fetched(fetch, urls[i], DefaultRetries) == Err(r.error)
  {
    if urls == [] then Ok([])
    else
      var first := Fetched(fetch, urls[0], DefaultRetries);
      if first.Err? then Err(first.error)
      else
        var rest := AllFetched(fetch, urls[1..]);
        assert forall i :: 1 <= i < |urls| ==> urls[i] == urls[1..][i - 1];
        if rest.Err? then Err(rest.error) else Ok([first.value] + rest.value)
  }

  /** `extractArticles`: one fetch per URL with the default retries; one
      response per URL, in URL order. */
  method ExtractArticles(fetch: (string, nat) -> FetchOutcome, urls: seq<string>)
    returns (r: Result<seq<SpiderResponse>, string>)
    ensures r == AllFetched(fetch, urls)
  {
    var responses: seq<SpiderResponse> := [];
    var failure: Option<string> := None;
    var i := 0;
    assert urls[i..] == urls;
    GlueNothing(AllFetched(fetch, urls));
    while i < |urls|
      invariant 0 <= i <= |urls|
      invariant failure.None? ==> AllFetched(fetch, urls) == Glue(responses, AllFetched(fetch, urls[i..]))
      invariant failure.Some? ==> AllFetched(fetch, urls) == Err(failure.value)
    {
      var response, _, _ := ExtractArticle(fetch, urls[i], DefaultRetries);
      AllFetchedUnfold(fetch, urls[i..]);
      assert urls[i..][1..] == urls[i + 1..];
      if failure.None? && response.Ok? {
        GlueStep(responses, response.value, AllFetched(fetch, urls[i + 1..]));
      }
      if failure.None? {
        if response.Err? {
          failure := Some(response.error);
        } else {
          responses := responses + [response.value];
        }
      }
      i := i + 1;
    }
    assert urls[i..] == [];
    assert responses + [] == responses;
    r := if failure.Some? then Err(failure.value) else Ok(responses);
  }

  lemma AllFetchedUnfold(fetch: (string, nat) -> FetchOutcome, urls: seq<string>)
    requires urls != []
    ensures var first := Fetched(fetch, urls[0], DefaultRetries);
      AllFetched(fetch, urls) == if first.Err? then Err(first.error) else Glue([first.value], AllFetched(fetch, urls[1..]))
  {
  }

  lemma GlueNothing(r: Result<seq<SpiderResponse>, string>)
    ensures Glue([], r) == r
  {
    if r.Ok? {
      assert [] + r.value == r.value;
    }
  }

  lemma GlueStep(done: seq<SpiderResponse>, x: SpiderResponse, rest: Result<seq<SpiderResponse>, string>)
    ensures Glue(done, Glue([x], rest)) == Glue(done + [x], rest)
  {
    if rest.Ok? {
      assert done + ([x] + rest.value) == (done + [x]) + rest.value;
    }
  }

  /** Responses already gathered, followed by the outcome for the remaining URLs. */
  function Glue(done: seq<SpiderResponse>, rest: Result<seq<SpiderResponse>, string>): Result<seq<SpiderResponse>, string>
  {
    if rest.Err? then rest else Ok(done + rest.value)
  }
}
