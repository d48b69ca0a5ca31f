# wechat-reader: the article pipeline, modelled in Dafny

wechat-reader collects WeChat official-account articles and extracts structured
records from them with an AI model. A user owns official accounts. Each account has
articles, fetched from the WeChat site by a crawler service. It also has dimension
templates: field schemas with a prompt and a model preference. Extracting an
article with a template produces extraction-result rows, one per record the model
returns.

This project models the backend core of that pipeline over in-memory tables:

- `Store`: the database. The `Database` class holds the account, article, template
  and result tables as maps, plus one id counter that issues ids in creation order.
  Ordering by `createdAt` is therefore ordering by id.
- `Limiter`: the bounded task gate `ConcurrencyLimiter`, as a class. Its admission
  and release are also replayed as interleaved traces.
- `Accounts`: the ownership gate `findOne`, and account create, list, update and
  soft delete.
- `Spider`: the crawler call, with its retry loop, backoff schedule and error
  rewrapping.
- `Claude`: model selection, prompt assembly, JSON-candidate slicing of the reply,
  and normalising the reply to a list of records.
- `Dimensions`: the template service. It covers:
  - the generated default prompt and the sort position of a new template;
  - the lock/unlock state machine and the ban on editing fields while locked;
  - append-only `addFields`, soft delete and reorder;
  - the duplicate-name check of AI-generated fields.
- `Articles`: the article service. It covers:
  - deriving the news id from a URL, and single and batch intake;
  - the background task that downloads an article and runs every locked template
    over it;
  - the queue of pending articles, article lookup and the paged article list.
- `Extractions`: the extraction service. It covers:
  - extraction with one template: a placeholder row, then a background run that
    settles it;
  - the fan-out over every locked template;
  - the paged, keyword-searchable list of a template's rows with its statistics.
- `UrlScan`: the URL scan of `backend/extract_urls.py` and its one-URL-per-line
  output.

External services are inputs:

- the crawler: `fetch(url, attempt)`;
- the AI service: `api(modelId, prompt)`;
- `JSON.parse` and `JSON.stringify`: `parse` and `stringify`;
- the `URL` constructor: `parseUrl`;
- the clock readings that enter batch ids.

Code launched without being awaited is modelled as a separate, later call: the
background run after `extractForArticle`, and the article task after `create`.

## Model

| member | source | states |
|---|---|---|
| Limiter.ConcurrencyLimiter.TryAdmit | backend/src/common/concurrency-limiter.ts:15-19 | a task is admitted iff `running < maxConcurrency`, and admission raises the counter by exactly one |
| Limiter.ConcurrencyLimiter.Release | backend/src/common/concurrency-limiter.ts:22-24 | the `finally` lowers the counter by exactly one and keeps it within the bound |
| Limiter.ConcurrencyLimiter.GetRunningCount | backend/src/common/concurrency-limiter.ts:30-32 | reports the counter, which is at most `maxConcurrency`, and changes nothing |
| Limiter.ConcurrencyLimiter.Run | backend/src/common/concurrency-limiter.ts:14-25 | returns (or rethrows) the awaited function's own outcome unchanged, and the counter is back where it was |
| Limiter.ConcurrencyLimiter.RunBatch | backend/src/common/concurrency-limiter.ts:37-46 | the outcome is `BatchOutcome`: the tasks run in list order, and the counter is restored |
| Limiter.BatchOutcome | backend/src/common/concurrency-limiter.ts:37-46 | all results, same length and order as the tasks, iff no task throws; otherwise the message of the first task that throws |
| Limiter.BatchOutcomeAtFirstThrow | backend/src/common/concurrency-limiter.ts:40-42 | the batch rethrows exactly the first throwing task's error |
| Limiter.BatchOutcomeAllReturned | backend/src/common/concurrency-limiter.ts:40-45 | when no task throws, the result list is the tasks' values in order |
| Limiter.ReplayKeepsInvariant | backend/src/common/concurrency-limiter.ts:7-24 | over any interleaving of polls and finishes from a valid gate, the counter equals the number of admitted, unfinished tasks and never exceeds the bound |
| Limiter.Replay | backend/src/common/concurrency-limiter.ts:14-24 | along any trace, a task gets inside the gate only by a poll of its own and leaves it only by its own finish |
| Limiter.AdmissionAndRelease | backend/src/common/concurrency-limiter.ts:15-24 | a poll admits iff the counter is below the bound and adds one; the finish of an admitted task restores the gate, and a second finish changes nothing |
| Accounts.FindOne | backend/src/accounts/accounts.service.ts:51-73 | NotFound iff the id is missing, Forbidden iff another user owns it, otherwise the account itself |
| Accounts.ApplyPatch | backend/src/accounts/accounts.service.ts:75-81 | every column the body gives (name, description, avatar URL, WeChat id, biz, reserved fields, active flag, owner) replaces the stored one and every absent one is kept; an empty patch changes nothing |
| Accounts.FindAll | backend/src/accounts/accounts.service.ts:36-49 | exactly the caller's active accounts, newest first |
| Accounts.Create | backend/src/accounts/accounts.service.ts:27-34 | one new row, `NewRow`, under a fresh id; every other row and table untouched |
| Accounts.NewRow | backend/src/accounts/accounts.service.ts:27-34 | the row belongs to the body's `userId` when it carries one and to the caller otherwise; it is active unless the body says `isActive: false`; the other columns are the body's |
| Accounts.CreatedAccountOwner | backend/src/accounts/accounts.service.ts:27-73 | the creator passes the ownership gate on the new account iff the body names no other owner; the owner it names always passes |
| Accounts.Update | backend/src/accounts/accounts.service.ts:75-82 | a caller refused by the gate changes nothing; an owner gets the patched account stored |
| Accounts.UpdateHandsOver | backend/src/accounts/accounts.service.ts:51-82 | after an update the caller still passes the gate iff the body names no other owner; an owner the body names passes |
| Accounts.Remove | backend/src/accounts/accounts.service.ts:84-91 | after the gate, only `isActive` is cleared |
| Accounts.RemovedAccountIsHiddenNotGone | backend/src/accounts/accounts.service.ts:84-91 | a removed account leaves its owner's list but still passes the ownership gate |
| Accounts.ListedAccountsPassTheGate | backend/src/accounts/accounts.service.ts:36-73 | every listed account is one the gate lets the caller reach |
| Spider.Attempt | backend/src/spider/spider.service.ts:66-68 | an attempt succeeds iff a body with status "success" came back; otherwise its error, or "文章提取失败" when the body has none |
| Spider.FirstSuccess | backend/src/spider/spider.service.ts:48-71 | the first successful attempt within `0..retries`, all earlier ones failed; none iff every attempt fails |
| Spider.ExtractArticle | backend/src/spider/spider.service.ts:45-90 | between 1 and `retries + 1` attempts; stops at the first success; on total failure rethrows the last error, prefixed "爬虫API调用失败: " when it came from the HTTP client; waits `(k+1)*2000` ms after failed attempt k except the last |
| Spider.Backoff | backend/src/spider/spider.service.ts:77-80 | the pause after failed attempt k is a whole number of 2 s steps, more than k of them |
| Spider.TotalBackoff | backend/src/spider/spider.service.ts:77-80 | the pauses after the first n failed attempts add up to 1000·n·(n+1) ms: 6 s for the default two retries |
| Spider.AllFetched | backend/src/spider/spider.service.ts:95-98 | one response per URL in URL order iff every URL succeeds; otherwise the error of a failing URL |
| Spider.ExtractArticles | backend/src/spider/spider.service.ts:95-98 | the loop's outcome is `AllFetched` of the URLs |
| Common.ReplaceFirstSpec | backend/src/claude/claude.service.ts:210 | `replace` with a string pattern rewrites only the first occurrence and keeps the rest verbatim; with no occurrence the text is unchanged |
| Claude.Descriptions | backend/src/claude/claude.service.ts:153-160 | one description per field, in field order |
| Claude.MarkFollowsRequired | backend/src/claude/claude.service.ts:155-157 | a field is marked "(必填)" iff required and "(可选)" iff not, right after its label and name |
| Claude.ExampleOnlyWhenPresent | backend/src/claude/claude.service.ts:156-159 | the example line appears only for a field with a non-empty example, and then ends the entry |
| Claude.FieldsDescriptionAppend | backend/src/claude/claude.service.ts:153-161 | the field list keeps field order, with entries separated by one blank line |
| Claude.FieldsDescription | backend/src/claude/claude.service.ts:153-161 | the field list is empty iff there are no fields, and otherwise opens with the first field's entry |
| Claude.BuildExtractionPrompt | backend/src/claude/claude.service.ts:163-223 | in every branch (default prompt, custom prompt with or without `{content}`) the prompt contains the whole article text |
| Claude.DefaultPromptEmbeds | backend/src/claude/claude.service.ts:163-223 | with no custom prompt, the default prompt holds the whole field list and then the whole article text |
| Claude.CustomPromptSubstitutesFirstPlaceholders | backend/src/claude/claude.service.ts:206-220 | for a custom prompt `A{fields}B{content}C` where `A` holds no `{fields}` and `A`, the field list and `B` hold no `{content}`: only those first placeholders are replaced; `C`, later placeholders included, is kept |
| Claude.CustomPromptAppendsContent | backend/src/claude/claude.service.ts:206-220 | for `A{fields}B` where `A` holds no `{fields}` and `A`, the field list and `B` hold no `{content}`: the field list replaces the placeholder and the text is appended after "\n\n文章内容:\n" |
| Claude.CustomPromptWithoutPlaceholders | backend/src/claude/claude.service.ts:206-220 | a custom prompt with neither placeholder is kept and the article text is appended |
| Claude.CandidateFrom | backend/src/claude/claude.service.ts:232 | the leftmost start of `{…}` or `[…]` whose closer occurs later, ending at the last such closer; none iff no position opens a match |
| Claude.ParseJsonResponse | backend/src/claude/claude.service.ts:229-239 | parses the candidate span, or the whole text when there is none, and returns exactly that parse; a failure reports "JSON解析失败: " plus the whole text |
| Claude.ExtractData | backend/src/claude/claude.service.ts:46-93 | haiku unless sonnet is asked for; tokens are input plus output; an array is the data, an object a one-record list, anything else or a non-text reply no records; failures rethrown with "Claude API调用失败: " |
| Dimensions.GeneratedPromptLayout | backend/src/dimensions/dimensions.service.ts:69-93 | the generated prompt is its head, the field list (as in the extraction prompt) and the instructions, in that order and nothing else |
| Dimensions.PromptHeadLayout | backend/src/dimensions/dimensions.service.ts:78-80 | the head names the template, and carries the "维度说明: " paragraph iff there is a description |
| Dimensions.GenerateDefaultPrompt | backend/src/dimensions/dimensions.service.ts:69-93 | the generated prompt opens with "请从以下文章内容中提取" and the template's name, and ends with the extraction instructions |
| Dimensions.MaxSortOrder | backend/src/dimensions/dimensions.service.ts:50-54 | the largest sort position of the account's templates, reached by one of them; none iff the account has no template |
| Dimensions.NextSortOrderIsAfterAll | backend/src/dimensions/dimensions.service.ts:50-61 | a new template's position is after every template of its account: one more than the maximum, or 1 when there is none |
| Dimensions.FindOne | backend/src/dimensions/dimensions.service.ts:139-160 | NotFound for a missing template; otherwise the account gate's verdict; found iff the template's account belongs to the caller |
| Dimensions.ActiveOf | backend/src/dimensions/dimensions.service.ts:123-124 | exactly the account's active templates, each once |
| Dimensions.ActiveInOrder | backend/src/dimensions/dimensions.service.ts:123-125 | the same templates, sorted by sort position ascending |
| Dimensions.ActiveInOrderSpec | backend/src/dimensions/dimensions.service.ts:119-134 | the list holds only and all the active templates of the account, each once, with sort positions ascending |
| Dimensions.FindAll | backend/src/dimensions/dimensions.service.ts:119-134 | the account gate's error, or `ActiveInOrder` |
| Dimensions.Create | backend/src/dimensions/dimensions.service.ts:35-64 | after the gate, one new row, `NewRow` with the next sort position, under a fresh id; nothing else changes |
| Dimensions.NewRow | backend/src/dimensions/dimensions.service.ts:35-64 | the body's columns; the given prompt or the generated one; haiku by default; locked iff the body says `isLocked: true`, active unless it says `isActive: false`; the next sort position whatever the body says |
| Dimensions.ApplyPatch | backend/src/dimensions/dimensions.service.ts:173-186 | every column the body gives (name, description, fields, model, prompt, active flag, lock, sort position) replaces the stored one and every absent one is kept; the account never changes |
| Dimensions.UpdateOutcome | backend/src/dimensions/dimensions.service.ts:165-187 | the gate's error; refused with "维度模板已锁定,无法修改字段定义" iff the template is locked and the request carries fields; succeeds with `ApplyPatch` iff the gate passes and that refusal does not apply; a locked template stays locked unless the body says `isLocked: false` |
| Dimensions.Update | backend/src/dimensions/dimensions.service.ts:165-187 | stores `UpdateOutcome` on success and nothing on failure |
| Dimensions.LockOutcome | backend/src/dimensions/dimensions.service.ts:192-219 | lock (unlock) fails on an already locked (unlocked) template; otherwise only `isLocked` flips |
| Dimensions.Lock | backend/src/dimensions/dimensions.service.ts:192-203 | stores the locked template, or changes nothing |
| Dimensions.Unlock | backend/src/dimensions/dimensions.service.ts:208-219 | stores the unlocked template, or changes nothing |
| Dimensions.LockThenUnlock | backend/src/dimensions/dimensions.service.ts:192-219 | unlocking a freshly locked template gives back the original template |
| Dimensions.AddFieldsOutcome | backend/src/dimensions/dimensions.service.ts:224-238 | the gate's error; refused iff the template is unlocked; succeeds iff the gate passes and the template is locked, and then the new list is the old list followed by the new fields |
| Dimensions.AddFields | backend/src/dimensions/dimensions.service.ts:224-238 | stores `AddFieldsOutcome` on success and nothing on failure |
| Dimensions.LockedFieldsOnlyGrow | backend/src/dimensions/dimensions.service.ts:165-238 | through any sequence of updates and field additions up to the first update that says `isLocked: false`, a locked template stays locked and its old fields stay a prefix |
| Dimensions.FirstUnlock | backend/src/dimensions/dimensions.service.ts:165-187 | the position of the first update in a sequence that says `isLocked: false`, or the length when there is none |
| Dimensions.UnlockThenReplaceFields | backend/src/dimensions/dimensions.service.ts:165-187 | an update `{isLocked: false}` and then an update with fields replace a locked template's fields: the lock alone does not protect them |
| Dimensions.Remove | backend/src/dimensions/dimensions.service.ts:319-326 | after the gate, only `isActive` is cleared |
| Dimensions.RemovedTemplateLeavesList | backend/src/dimensions/dimensions.service.ts:319-326 | a removed template leaves the account's list but keeps its fields and lock |
| Dimensions.Reordered | backend/src/dimensions/dimensions.service.ts:336-341 | the id set of the table is unchanged |
| Dimensions.ReorderedKeepsRows | backend/src/dimensions/dimensions.service.ts:336-341 | reordering changes only sort positions |
| Dimensions.ReorderedLeavesOthers | backend/src/dimensions/dimensions.service.ts:336-341 | templates not listed are untouched |
| Dimensions.ReorderedPlacesListed | backend/src/dimensions/dimensions.service.ts:336-341 | the i-th listed id gets sort position i (the last write wins for a repeated id) |
| Dimensions.ApplyOrder | backend/src/dimensions/dimensions.service.ts:336-343 | the updates leave the templates as `Reordered` says; some update fails iff some listed id has no template; no other table changes |
| Dimensions.Reorder | backend/src/dimensions/dimensions.service.ts:331-346 | after the gate, positions are rewritten by list index; it reports success iff every listed id exists, and otherwise fails with the update error |
| Dimensions.ObjectSpan | backend/src/dimensions/dimensions.service.ts:292 | from the first `{` to the last `}` after it; none iff no `{` is followed by a `}` |
| Dimensions.CheckGeneratedField | backend/src/dimensions/dimensions.service.ts:289-313 | a generated field is accepted iff the reply is text holding an object that parses to a field whose name no existing field has, and then the parsed field is returned; a duplicate is rejected with its name in the message; every failure is a BadRequest prefixed "AI生成失败: " |
| Articles.FirstPathMatch | backend/src/articles/articles.service.ts:53 | the first position of `/s/` followed by an id character |
| Articles.IdRunEnd | backend/src/articles/articles.service.ts:53 | the end of the maximal run of `[a-zA-Z0-9_-]` |
| Articles.SnParam | backend/src/articles/articles.service.ts:59 | the value of the first `sn` query parameter; none iff there is no `sn` |
| Articles.ExtractNewsId | backend/src/articles/articles.service.ts:47-68 | the maximal id run after the first `/s/`; failing that, a non-empty `sn` value; otherwise BadRequest "无效的微信文章URL"; never an empty id |
| Articles.ShortLinkRoundTrip | backend/src/articles/articles.service.ts:53-56 | a short link `/s/<id>` gives back exactly `<id>` |
| Articles.LongLinkUsesSn | backend/src/articles/articles.service.ts:59-62 | a link without `/s/` gives its `sn` value when non-empty, and is refused otherwise |
| Articles.IntakeCheck | backend/src/articles/articles.service.ts:78-99 | an accepted URL carries the news id derived from it |
| Articles.IntakeCheckMessages | backend/src/articles/articles.service.ts:78-99 | refused as an invalid URL iff no news id derives; as a duplicate news id iff one derives and the account already has it; as a duplicate URL iff neither, but some article has the URL; so accepted iff all three checks pass |
| Articles.IntakeKeepsUrlsUnique | backend/src/articles/articles.service.ts:81-111 | inserting an accepted article keeps URLs unique and its news id unique in its account |
| Articles.Create | backend/src/articles/articles.service.ts:73-119 | after the gate and the checks, exactly one row "正在提取..." with status `extracting`; a refusal writes nothing |
| Articles.IntakeStep | backend/src/articles/articles.service.ts:446-489 | one report line for the URL, appended to the report so far; old rows kept |
| Articles.StepRefusesRepeat | backend/src/articles/articles.service.ts:452-472 | after a step for a URL, that URL fails the checks: it was refused, or its article now exists |
| Articles.BatchIntake | backend/src/articles/articles.service.ts:446-490 | one report line per URL, after the report so far; the counter only grows; existing rows untouched |
| Articles.BatchIntakeUrls | backend/src/articles/articles.service.ts:446-490 | the report is in URL order: line k names URL k |
| Articles.IntakeCheckStaysFailed | backend/src/articles/articles.service.ts:452-472 | a URL refused before is still refused after any further intake |
| Articles.StaysRejected | backend/src/articles/articles.service.ts:446-490 | a URL already refused at the start is reported as failed, whatever comes before it |
| Articles.RepeatedUrlRejected | backend/src/articles/articles.service.ts:464-472 | a second copy of a URL in the same batch is reported as failed |
| Articles.BatchReportAddsUp | backend/src/articles/articles.service.ts:497-502 | `success + failed` equals the number of lines |
| Articles.CreateBatch | backend/src/articles/articles.service.ts:439-503 | after the gate, `total` is the URL count, success and failure counts come from `BatchIntake`, and accepted rows are stored `pending` |
| Articles.Downloaded | backend/src/articles/articles.service.ts:145-169 | the crawler's data is written; the account, URL and count are kept; the status is `extracting`; a publish time iff one was given |
| Articles.Content | backend/src/articles/articles.service.ts:197-198 | the markdown when it is not empty, otherwise the serialised crawler data |
| Articles.LockedTemplates | backend/src/articles/articles.service.ts:177-182 | exactly the account's locked templates, each once |
| Articles.SumOfShares | backend/src/articles/articles.service.ts:244-245 | rows carrying the same share add up to the share times their number |
| Articles.ShareBounds | backend/src/articles/articles.service.ts:244-245 | a floor share times n loses less than n |
| Articles.SplitRowsShares | backend/src/articles/articles.service.ts:236-250 | the n rows' tokens and times add up to at most the call's, losing less than one per row |
| Articles.TemplateRun | backend/src/articles/articles.service.ts:201-256 | one template's step keeps old rows, and adds only `completed` rows of this article and template |
| Articles.RunTemplates | backend/src/articles/articles.service.ts:201-256 | the loop over the templates keeps old rows and adds only `completed` rows of the listed templates |
| Articles.TemplateRunRows | backend/src/articles/articles.service.ts:205-250 | a pair that has a row is skipped untouched; otherwise its new rows are exactly one per record the model returned (none on failure or no record) |
| Articles.TemplateRunLeavesOthers | backend/src/articles/articles.service.ts:201-256 | one template's step leaves other templates' rows of the article untouched |
| Articles.RunTemplatesLeavesOthers | backend/src/articles/articles.service.ts:201-256 | the loop leaves rows of unlisted templates untouched |
| Articles.RunTemplatesRows | backend/src/articles/articles.service.ts:201-256 | each template ends with its own outcome whatever the others did: one template's failure never stops the rest |
| Articles.RunTemplate | backend/src/articles/articles.service.ts:201-256 | the database step equals `TemplateRun` |
| Articles.RunLockedTemplates | backend/src/articles/articles.service.ts:200-256 | the database loop equals `RunTemplates` |
| Articles.FinishedSpec | backend/src/articles/articles.service.ts:173-267 | the extraction half writes only its article, which ends `completed` with account and URL kept; it only adds rows, all `completed` rows of that article for locked templates, under fresh ids |
| Articles.FinishedWithoutTemplates | backend/src/articles/articles.service.ts:175-191 | with no locked template for the account, no row is added and only the status becomes `completed` |
| Articles.FinishedCountsEveryRow | backend/src/articles/articles.service.ts:258-265 | with locked templates, the article's count is the number of all its rows, failed and placeholder rows included, and its old rows are kept |
| Articles.FinishedRowsOfAccount | backend/src/articles/articles.service.ts:175-181 | every new row's template belongs to the article's account and is locked |
| Articles.Task | backend/src/articles/articles.service.ts:125-286 | the background job only changes its article, which ends `completed` or `error` with account and URL kept; new rows are `completed` rows of locked templates |
| Articles.TaskOutcome | backend/src/articles/articles.service.ts:125-286 | status `error` iff the download fails, and then the title from `FailureTitle`, the thrown message as `errorMessage` and no new rows; otherwise `Finished` on the downloaded article and its content |
| Articles.ExtractPhase | backend/src/articles/articles.service.ts:158-267 | writes `extracting` then `completed`, with the results of `Finished` |
| Articles.ExtractArticleContent | backend/src/articles/articles.service.ts:125-286 | under the limiter, the tables and status writes equal `Task`, and the limiter's counter is restored |
| Articles.FailureTitles | backend/src/articles/articles.service.ts:272-283 | a download that failed in the HTTP client gets "下载失败"; a crawler refusal without "爬虫" in its message gets "提取失败" |
| Articles.FailureTitle | backend/src/articles/articles.service.ts:279 | the title is "下载失败" iff the message mentions "爬虫", and "提取失败" otherwise |
| Articles.PendingQueue | backend/src/articles/articles.service.ts:510-513 | exactly the `pending` articles, oldest first |
| Articles.RunQueue | backend/src/articles/articles.service.ts:522-527 | no article is added or removed; articles not in the queue are untouched; ids stay below the counter |
| Articles.RunQueueSettles | backend/src/articles/articles.service.ts:522-527 | every queued article ends `completed` or `error`, one listed twice included |
| Articles.QueueSettlesPending | backend/src/articles/articles.service.ts:508-530 | after the queue, every article that was `pending` is `completed` or `error`, and every other article is unchanged |
| Articles.ProcessExtractionQueue | backend/src/articles/articles.service.ts:508-530 | the queue is `PendingQueue` and the tables end as `RunQueue` says |
| Articles.FindOne | backend/src/articles/articles.service.ts:343-364 | NotFound iff missing; otherwise the gate on its account decides |
| Articles.Page | backend/src/articles/articles.service.ts:309-313 | refused iff skip is negative; a non-negative take gives up to `take` elements from `skip`; a negative take gives up to `-take` elements ending `skip` elements before the end |
| Articles.PageIsRun | backend/src/articles/articles.service.ts:309-313 | a page is a run of consecutive elements of the list |
| Articles.NegativeTakeReadsFromEnd | backend/src/articles/articles.service.ts:309-313 | the first page with page size -n is the last n elements |
| Articles.PagesCoverList | backend/src/articles/articles.service.ts:312-313 | with a positive page size, element k is on page `k / pageSize + 1` at position `k % pageSize` |
| Articles.ListWhere | backend/src/articles/articles.service.ts:307-337 | a page of the articles in scope, newest first, with page and size echoed |
| Articles.ListWhereTotal | backend/src/articles/articles.service.ts:307-337 | when the page is at least as large as the id bound, the first page holds every article in scope and the total is its length |
| Articles.FindAllAsWritten | backend/src/articles/articles.service.ts:291-338 | without an account id, a user with accounts gets the list over every article; with an account id the caller owns, exactly the list of that account's articles |
| Articles.FindAllAsWrittenShowsOtherUsersArticles | backend/src/articles/articles.service.ts:296-307 | a user with an account is shown another user's article, which the ownership gate refuses |
| Articles.FindAll | backend/src/articles/articles.service.ts:291-338 | every listed article belongs to one of the caller's accounts; with an account id the caller owns, exactly the list of that account's articles |
| Articles.FindAllListsAllOwnArticles | backend/src/articles/articles.service.ts:291-338 | with a large enough page, every article of the caller's active accounts is listed |
| Extractions.Admission | backend/src/extractions/extractions.service.ts:19-38 | admitted iff the article is the caller's and not `error`, the template is the caller's, and the pair has no row; each refusal in the source's order with its message |
| Extractions.ExtractForArticle | backend/src/extractions/extractions.service.ts:19-61 | an admitted request creates exactly one `extracting` placeholder with empty data and returns its id; a refused one writes nothing |
| Extractions.SecondRequestRefused | backend/src/extractions/extractions.service.ts:31-53 | once the placeholder exists, the same request is refused as already extracted |
| Extractions.RecordsShares | backend/src/extractions/extractions.service.ts:103-116 | tokens are shared with floor division, but every row carries the whole call's time |
| Extractions.ArticleContent | backend/src/extractions/extractions.service.ts:70-71 | the stored markdown when it is not empty, otherwise the serialised raw content |
| Extractions.ContentAgrees | backend/src/extractions/extractions.service.ts:70-71 | re-extracting a downloaded article gives the model the same text as the download's own run did |
| Extractions.Performed | backend/src/extractions/extractions.service.ts:66-147 | failure: only the placeholder changes, to `failed` with the message; n records: n `completed` rows of the batch, placeholder deleted, count + n, article `completed` (n = 0 included) |
| Extractions.PerformExtraction | backend/src/extractions/extractions.service.ts:66-147 | the database run equals `Performed` on the model's answer for the article's content |
| Extractions.Settle | backend/src/extractions/extractions.service.ts:84-146 | the writes after the answer equal `Performed` |
| Extractions.Complete | backend/src/extractions/extractions.service.ts:101-134 | the writes after a reply equal `Performed` with that reply |
| Extractions.PerformedKeepsCount | backend/src/extractions/extractions.service.ts:87-134 | the article's count stays equal to its number of `completed` rows, whatever the model answered |
| Extractions.OneTemplateSettles | backend/src/extractions/extractions.service.ts:19-147 | request plus run leaves no `extracting` row for the pair: one `failed` row after a failure, exactly n rows after n records |
| Extractions.Report | backend/src/extractions/extractions.service.ts:208-215 | `total` is the number of lines and `started + skipped = total` |
| Extractions.LockedOnly | backend/src/extractions/extractions.service.ts:156-157 | exactly the locked templates of the list, each once |
| Extractions.ExistingStatus | backend/src/extractions/extractions.service.ts:172-196 | the status of an existing row of the pair |
| Extractions.LaunchOne | backend/src/extractions/extractions.service.ts:170-206 | one line per template; a skipped line carries "已提取过" and the existing row's status; new rows belong to the pair |
| Extractions.LaunchAll | backend/src/extractions/extractions.service.ts:170-206 | one line per template in order; old rows kept |
| Extractions.LaunchOneLeavesOtherPairs | backend/src/extractions/extractions.service.ts:170-206 | a step for one template does not change whether other templates have rows |
| Extractions.LaunchAllOutcome | backend/src/extractions/extractions.service.ts:170-206 | line k is for template k; it is started iff the pair had no row, and skipped with "已提取过" otherwise; none is refused |
| Extractions.ExtractAll | backend/src/extractions/extractions.service.ts:152-216 | the gate's error, or refused with "该公众号没有已锁定的维度模板"; otherwise the article is marked `extracting` and `started + skipped = total` |
| Extractions.LockedListed | backend/src/extractions/extractions.service.ts:155-157 | the templates fanned over are exactly the account's locked, active ones, each once |
| Extractions.LockedRunReport | backend/src/extractions/extractions.service.ts:170-215 | the fan-out has one line per locked, active template of the account and no other, each once; none is refused, and a line is started iff its pair had no row |
| Extractions.ExtractAllOutcome | backend/src/extractions/extractions.service.ts:152-216 | refused iff the account has no locked, active template; otherwise one line per such template, started iff its pair had no row |
| Extractions.LaunchStep | backend/src/extractions/extractions.service.ts:172-205 | the database step equals `LaunchOne` |
| Extractions.LaunchTemplates | backend/src/extractions/extractions.service.ts:170-206 | the database loop equals `LaunchAll` |
| Extractions.ExtractAllForArticle | backend/src/extractions/extractions.service.ts:152-216 | the database operation equals `ExtractAll` and writes nothing when refused |
| Extractions.Selected | backend/src/extractions/extractions.service.ts:253-274 | exactly the rows that pass the filter, newest first |
| Extractions.SearchFilterMeaning | backend/src/extractions/extractions.service.ts:247-274 | with a non-blank keyword, only `completed` rows whose lower-cased serialised data contains the trimmed, lower-cased keyword; otherwise every row of the template |
| Extractions.SearchFilter | backend/src/extractions/extractions.service.ts:249-250 | the filter is for the requested template; it matches a needle iff the trimmed keyword is not empty, and the needle is that keyword lower-cased |
| Extractions.SearchPage | backend/src/extractions/extractions.service.ts:278-354 | a search matching nothing gives an empty page with total 0; otherwise a page of selected rows, newest first, or the paging error for a negative skip |
| Extractions.FindByTemplate | backend/src/extractions/extractions.service.ts:239-355 | the template gate's error, or `SearchPage` with the keyword's filter and the template's statistics |
| Extractions.FirstPageListsSelection | backend/src/extractions/extractions.service.ts:309-341 | when the page is at least as large as the id bound, the first page lists exactly the rows that pass the filter, and the total is their number |
| Extractions.TemplateStats | backend/src/extractions/extractions.service.ts:282-292 | the `completed` and `failed` counts plus the `extracting` rows add up to the template's row count |
| UrlScan.RunEnd | backend/extract_urls.py:9 | the end of the maximal run of admissible characters |
| UrlScan.MatchAtIsMatch | backend/extract_urls.py:9 | a match is the scheme followed by a maximal, non-empty run of admissible characters |
| UrlScan.IsMatchMatchAt | backend/extract_urls.py:9 | every match of the pattern is found by the scanner at its start, with the same end |
| UrlScan.ScanFrom | backend/extract_urls.py:10 | the matches are well formed, in text order and do not overlap |
| UrlScan.ExtractedUrlsAreWellFormed | backend/extract_urls.py:9-10 | every URL starts with `http://` or `https://`, holds no white space, quote, comma (ASCII or full-width), `]` or `)`, and cannot be extended |
| UrlScan.ScanSkipsNoMatch | backend/extract_urls.py:10 | no position between where the scan starts and its first match is itself a match, for the scanner or for the pattern: the scan skips no URL |
| UrlScan.LinesRoundTrip | backend/extract_urls.py:13-15 | reading the written file line by line gives the URLs back in order |
| UrlScan.NoNewlineInUrls | backend/extract_urls.py:9 | no URL contains a newline |
| UrlScan.WriteLines | backend/extract_urls.py:13-15 | the file holds each URL followed by a newline, in order |
| UrlScan.ExtractUrls | backend/extract_urls.py:3-17 | the count is the number of matches, and the written lines are exactly the URLs found |

## Left out

- Concurrency: `Promise.all` fan-outs and launches that are not awaited are modelled as sequential calls.
  - A background run is a separate, later call.
  - The limiter's 100 ms polling wait is not modelled; `Run` requires a free slot.
  - Interleavings are modelled only for the limiter's counter (`Limiter.Replay`).
  - Two queue scans can both pick up the same `pending` article. A sequential model cannot show this race.
- The 3-second startup delay of `onModuleInit` and the manual `resumePendingTasks` entry are not modelled; both only call `processExtractionQueue`.
- Network, AI and library calls are inputs rather than code: the crawler's HTTP call, the AI service, `JSON.parse`, `JSON.stringify` and the `URL` constructor.
  - A reply's records are kept as JSON values.
  - JavaScript's special replacement patterns (`$&` and the like) are not modelled; replacement is literal.
- Dates are opaque: `Date.now()` in batch ids, elapsed times, and `new Date(publish_time)`, which is kept as its input string.
- Articles.TaskOutcome: a non-empty `publish_time` that is not a date makes `new Date` an invalid date, Prisma then refuses the article update, and the task ends `error` titled "提取失败" although the download succeeded. With dates kept as strings the model cannot reach this path, so its "error iff the download fails" holds only for well-formed dates.
- Prisma specifics are not modelled: joins, `_count`, cascades, transactions, and the failure of a write to a row deleted in between.
  - The driver and the fan-out list templates with `findMany` and no `orderBy`. They are taken in id order.
  - `findMany({ take: 1 })` without an order is taken to return the oldest row.
- Articles.Page: Prisma's exact message for a negative skip is not modelled; the model uses one fixed message, `PagingRejected`.
- Request bodies are typed by interfaces, which the validation pipe does not check, so a body may carry keys beyond its declared members; the model carries the ones the services' spreads make matter: `userId` and `isActive` on account create, `userId` on account update, `isLocked`, `isActive` and `sortOrder` on template create, and `isLocked` and `sortOrder` on template update.
  - Accounts.NewRow: other extra keys (`id`, `createdAt`, unknown names) are not modelled; they either set that column or make Prisma throw.
  - Accounts.ApplyPatch: a `userId` naming no user, which makes Prisma's foreign-key check throw, is not modelled.
  - Dimensions.NewRow: other extra keys are not modelled, as for accounts.
  - Dimensions.ApplyPatch: other extra keys are not modelled, as for accounts.
- Extractions.SearchFilterMeaning: `toLowerCase` is modelled on ASCII letters only.
- Common.Trim: only the white space JavaScript's `trim` removes is modelled, as a fixed character class.
- Extractions.PerformExtraction: it requires the placeholder, the article and the template to exist. Its only caller creates the placeholder just before. A row deleted in between, which would make the source's final update throw, is not modelled.
- Articles.Task: the driver also overwrites `newsId` with the crawler's value, which the model keeps in the downloaded data rather than rechecking for duplicates.
- Articles.LockedTemplates: the driver's query does not filter on `isActive`, so soft-deleted locked templates still run. The model follows the code.
- Claude.ExtractData: a stored model preference other than "haiku" or "sonnet" (the body is not validated), which leaves the model id undefined, and a reply with an empty `content` list, whose `TypeError` is rethrown with the "Claude API调用失败: " prefix, are not modelled: a preference is one of the two values and a reply always has a first block.
- Dimensions.CheckGeneratedField: when `JSON.parse` fails, the model reports the fixed text "JSON parse error" after the "AI生成失败: " prefix instead of the engine's own `SyntaxError` message.
- `aiGenerateField`'s prompt text and the call to the AI service are not modelled. Only the reply check (`Dimensions.CheckGeneratedField`) is.
- `createFromImage` and `extractFieldsFromImage` (image recognition) are not modelled.
- `exportByTemplate` is not modelled. It filters on status "success", which no code path writes, so it always returns an empty list.
- `ExtractionsService.remove`, `findByArticle`, `ArticlesService.getContent`, `remove` and `batchDelete` are not modelled. Each is the ownership gate followed by a single read or delete.
- Users, authentication, controllers, modules, configuration and the frontend are not part of this model.
- `extract_urls.py`'s file reading and its two `print` lines are not modelled, except for the count it prints.
- Integer widths: counts and token totals are unbounded integers. JavaScript numbers lose precision only far beyond any realistic count.

Behaviours the model follows although they may surprise:

- `extractAllForArticle` marks the article `extracting` before it makes the requests. Its check that refuses failed articles therefore never applies there. `Extractions.ExtractAllOutcome` states that no request is refused.
- A failed background run leaves the article's status alone. After `extractAllForArticle` the article therefore stays `extracting`.
- A body `userId` creates an account for another user, or hands an account over on update (`Accounts.CreatedAccountOwner`, `Accounts.UpdateHandsOver`).
- An update body `{isLocked: false}` unlocks a template, and a later update may then replace its fields (`Dimensions.UnlockThenReplaceFields`). The lock protects the fields only up to such an update (`Dimensions.LockedFieldsOnlyGrow`).
- A negative page size reads from the end of the list instead of being refused (`Articles.NegativeTakeReadsFromEnd`).

## Findings

| source | as written | input that shows it | evidently intended | confidence | as-written member | corrected member |
|---|---|---|---|---|---|---|
| backend/src/articles/articles.service.ts:296-307 | without an account id, `findAll` collects the caller's account ids, then sets `accountId = undefined` and queries with an empty `where`, so it lists every user's articles | user 1 owns account 0 and user 2 owns account 1, which has article 2; `findAll(1)` lists article 2, which `findOne(2, 1)` refuses | restrict the query to the caller's account ids (`accountId in accountIds`) | not executed | Articles.FindAllAsWritten, shown by Articles.FindAllAsWrittenShowsOtherUsersArticles | Articles.FindAll, with Articles.FindAllListsAllOwnArticles |
