/**
 * The pure parts of the AI extraction collaborator
 * (backend/src/claude/claude.service.ts): choosing the model, assembling the
 * prompt, finding and parsing the JSON in the reply, and normalising it to a
 * list of records. The call to the AI service itself is an oracle
 * `api(modelId, prompt)`, and `JSON.parse` is an oracle `parse(text)`.
 */
module Claude {
  import opened Common

  /** A field of a dimension template's schema; an absent `example` is "". */
  datatype Field = Field(name: string, labelText: string, kind: string, description: string, required: bool, example: string)

  datatype ModelPreference = Haiku | Sonnet

  const HaikuModel := "claude-haiku-4-5-20251001"
  const SonnetModel := "claude-sonnet-4-5-20250929"

  /** `models[preference || 'haiku']`. */
  function ModelId(preference: Option<ModelPreference>): string
  {
    if preference == Some(Sonnet) then SonnetModel else HaikuModel
  }

  /** The name a template stores for its preference. */
  function PreferenceName(p: ModelPreference): string
  {
    match p
    case Haiku => "haiku"
    case Sonnet => "sonnet"
  }

  // ---------------------------------------------------------------------------
  // Field descriptions

  function RequiredMark(f: Field): string
  {
    if f.required then "(必填)" else "(可选)"
  }

  function ExampleLine(f: Field): string
  {
    if f.example != "" then "\n  示例: " + f.example else ""
  }

  /** The text that comes before a field's mark. */
  function FieldHead(f: Field): string
  {
    "- " + f.labelText + " (" + f.name + ") "
  }

  /** One field's entry in a prompt. The dimension service writes the same entry
      (backend/src/dimensions/dimensions.service.ts:72-74). */
  function FieldDescription(f: Field): string
  {
    FieldHead(f) + RequiredMark(f) + "\n  类型: " + f.kind + "\n  说明: " + f.description + ExampleLine(f)
  }

  function Descriptions(fields: seq<Field>): (ds: seq<string>)
    ensures |ds| == |fields|
    ensures forall i :: 0 <= i < |fields| ==> ds[i] == FieldDescription(fields[i])
  {
    seq(|fields|, i requires 0 <= i < |fields| => FieldDescription(fields[i]))
  }

  /** The field list of a prompt: the entries in field order, separated by a
      blank line. It is empty only for no fields, and opens with the first
      field's entry. */
  function FieldsDescription(fields: seq<Field>): (r: string)
    ensures r == "" <==> fields == []
    ensures fields != [] ==> OccursAt(r, FieldDescription(fields[0]), 0)
  {
    var ds := Descriptions(fields);
    if |ds| > 1 then
      assert Join(ds, "\n\n")[..|ds[0]|] == ds[0];
      Join(ds, "\n\n")
    else
      Join(ds, "\n\n")
  }

  /** A field's entry is marked "(必填)" exactly when the field is required and
      "(可选)" exactly when it is not; the mark follows the label and the name. */
  lemma MarkFollowsRequired(f: Field)
    ensures var d := FieldDescription(f); var p := |FieldHead(f)|;
      |d| >= p + 4 && (d[p..p + 4] == "(必填)" <==> f.required) && (d[p..p + 4] == "(可选)" <==> !f.required)
  {
    var d := FieldDescription(f);
    var p := |FieldHead(f)|;
    assert d[p..p + 4] == RequiredMark(f);
    assert "(必填)" != "(可选)" by { assert "(必填)"[1] != "(可选)"[1]; }
  }

  /** An example line is shown only for a field that has an example: the entry
      of a field without one ends with its description. */
  lemma ExampleOnlyWhenPresent(f: Field)
    ensures f.example == "" ==> FieldDescription(f) == FieldHead(f) + RequiredMark(f) + "\n  类型: " + f.kind + "\n  说明: " + f.description
    ensures f.example != "" ==> |FieldDescription(f)| > |f.example| && FieldDescription(f)[|FieldDescription(f)| - |f.example|..] == f.example
  {
  }

  /** The field list keeps the fields' order: the list for `fields + [f]` is the
      list for `fields`, a blank line, and the entry for `f`. */
  lemma FieldsDescriptionAppend(fields: seq<Field>, f: Field)
    requires fields != []
    ensures FieldsDescription(fields + [f]) == FieldsDescription(fields) + "\n\n" + FieldDescription(f)
  {
    assert Descriptions(fields + [f]) == Descriptions(fields) + Descriptions([f]);
    JoinAppend(Descriptions(fields), Descriptions([f]), "\n\n");
  }

  // ---------------------------------------------------------------------------
  // Prompt assembly

  const PromptHead := "请从以下文章内容中提取指定的字段信息。\n\n需要提取的字段:\n"

  /** The heading in front of the article text, in the default prompt and when
      the text is appended to a custom prompt. */
  const ContentHeading := "\n\n文章内容:\n"

  /** The instructions that close the field list; the dimension service's
      generated prompt ends with the same text. */
  const Instructions :=
    "\n\n" +
    "请仔细阅读文章内容,提取上述字段的值。如果某个字段在文章中找不到对应信息,请填写null。\n" +
    "\n" +
    "返回格式要求:\n" +
    "1. 必须返回JSON数组格式,即使只有一条数据也要放在数组中\n" +
    "2. 如果文章中有多条符合条件的数据,请全部提取并放入数组\n" +
    "3. 每个数组元素是一个对象,包含所有字段\n" +
    "4. JSON的key必须使用字段的name属性(英文名)\n" +
    "5. 数值类型的字段请返回数字,不要包含单位和逗号\n" +
    "6. 日期类型的字段请尽量统一格式为YYYY-MM或YYYY-MM-DD\n" +
    "7. 不要返回任何其他说明文字,只返回JSON数组"

  const ReturnExamples :=
    "\n\n" +
    "示例返回格式(单条数据):\n" +
    "[\n" +
    "  {\n" +
    "    \"field_name1\": \"value1\",\n" +
    "    \"field_name2\": 123456,\n" +
    "    \"field_name3\": \"2025-10\"\n" +
    "  }\n" +
    "]\n" +
    "\n" +
    "示例返回格式(多条数据):\n" +
    "[\n" +
    "  {\n" +
    "    \"field_name1\": \"value1\",\n" +
    "    \"field_name2\": 123456,\n" +
    "    \"field_name3\": \"2025-10\"\n" +
    "  },\n" +
    "  {\n" +
    "    \"field_name1\": \"value2\",\n" +
    "    \"field_name2\": 234567,\n" +
    "    \"field_name3\": \"2025-11\"\n" +
    "  }\n" +
    "]"

  const FieldsPlaceholder := "{fields}"
  const ContentPlaceholder := "{content}"

  /** An extraction request; an absent or null custom prompt is "". */
  datatype ExtractionRequest = ExtractionRequest(
    content: string,
    fields: seq<Field>,
    modelPreference: Option<ModelPreference>,
    customPrompt: string)

  function DefaultPrompt(fieldsDesc: string, content: string): string
  {
    PromptHead + fieldsDesc + ContentHeading + content + Instructions + ReturnExamples
  }

  /** `buildExtractionPrompt`: whichever prompt is used, the article text
      reaches the model in full. */
  function BuildExtractionPrompt(request: ExtractionRequest): (r: string)
    ensures Contains(r, request.content)
  {
    var fieldsDesc := FieldsDescription(request.fields);
    if request.customPrompt == "" then
      var p := DefaultPrompt(fieldsDesc, request.content);
      assert p == (PromptHead + fieldsDesc + ContentHeading) + request.content + (Instructions + ReturnExamples);
      OccursInMiddle(PromptHead + fieldsDesc + ContentHeading, request.content, Instructions + ReturnExamples);
      p
    else
      var withFields := ReplaceFirst(request.customPrompt, FieldsPlaceholder, fieldsDesc);
      if Contains(withFields, ContentPlaceholder) then
        var i := IndexOf(withFields, ContentPlaceholder).value;
        OccursInMiddle(withFields[..i], request.content, withFields[i + |ContentPlaceholder|..]);
        ReplaceFirst(withFields, ContentPlaceholder, request.content)
      else
        OccursInMiddle(withFields + ContentHeading, request.content, "");
        assert withFields + ContentHeading + request.content + "" == withFields + ContentHeading + request.content;
        withFields + ContentHeading + request.content
  }

  /** The middle part of a concatenation occurs in it. */
  lemma OccursInMiddle(a: string, b: string, c: string)
    ensures OccursAt(a + b + c, b, |a|) && Contains(a + b + c, b)
  {
    assert (a + b + c)[|a|..|a| + |b|] == b;
    assert OccursAt(a + b + c, b, |a|);
  }

  /** Without a custom prompt the default prompt is used, and it holds the field
      list and then the article text, each in full. */
  lemma DefaultPromptEmbeds(request: ExtractionRequest)
    requires request.customPrompt == ""
    ensures var p := BuildExtractionPrompt(request); var fd := FieldsDescription(request.fields);
      && OccursAt(p, fd, |PromptHead|)
      && OccursAt(p, request.content, |PromptHead| + |fd| + |ContentHeading|)
  {
    PartsOccur(PromptHead, FieldsDescription(request.fields), ContentHeading, request.content, Instructions, ReturnExamples);
  }

  /** In a concatenation of six parts, the second and the fourth sit where the
      lengths of the parts before them say. */
  lemma PartsOccur(a: string, b: string, c: string, d: string, e: string, f: string)
    ensures OccursAt(a + b + c + d + e + f, b, |a|)
    ensures OccursAt(a + b + c + d + e + f, d, |a| + |b| + |c|)
  {
    var s := a + b + c + d + e + f;
    assert s[|a|..|a| + |b|] == b;
    assert s[|a| + |b| + |c|..|a| + |b| + |c| + |d|] == d;
  }

  /** A pattern whose only opening brace is its first character, absent from
      `x`, cannot start inside `x` when a copy of it follows `x`: such a start
      would put the copy's opening brace inside the pattern. */
  lemma NotBeforeCopy(x: string, pat: string, y: string)
    requires pat != [] && pat[0] == '{' && '{' !in pat[1..]
    requires forall j: nat :: !OccursAt(x, pat, j)
    ensures forall j: nat :: j < |x| ==> !OccursAt(x + pat + y, pat, j)
  {
    var s := x + pat + y;
    forall j: nat | j < |x| ensures !OccursAt(s, pat, j) {
      if j + |pat| <= |x| {
        assert s[j..j + |pat|] == x[j..j + |pat|];
        assert !OccursAt(x, pat, j);
      } else {
        var d := |x| - j;
        assert pat[d] == pat[1..][d - 1] != '{';
        assert s[j..j + |pat|][d] == s[|x|] == '{';
        assert s[j..j + |pat|] != pat;
      }
    }
  }

  /** Replacing the first placeholder of `x + pat + y`, where `x` holds no
      placeholder, keeps `x` and `y` and puts `rep` between them. */
  lemma ReplaceAfterFree(x: string, pat: string, y: string, rep: string)
    requires pat != [] && pat[0] == '{' && '{' !in pat[1..]
    requires forall j: nat :: !OccursAt(x, pat, j)
    ensures IndexOf(x + pat + y, pat) == Some(|x|)
    ensures ReplaceFirst(x + pat + y, pat, rep) == x + rep + y
  {
    var s := x + pat + y;
    assert OccursAt(s, pat, |x|) by { assert s[|x|..|x| + |pat|] == pat; }
    NotBeforeCopy(x, pat, y);
    assert s[..|x|] == x;
    assert s[|x| + |pat|..] == y;
  }

  /** A custom prompt `A{fields}B{content}C` becomes `A`, the field list, `B`,
      the article text, `C`, when `A` holds no `{fields}` and neither `A`, the
      field list nor `B` holds `{content}`: only the first of each placeholder is
      replaced, and whatever `C` holds, later placeholders included, is kept as
      it is. */
  lemma CustomPromptSubstitutesFirstPlaceholders(request: ExtractionRequest, a: string, b: string, c: string)
    requires request.customPrompt == a + FieldsPlaceholder + b + ContentPlaceholder + c
    requires forall j: nat :: !OccursAt(a, FieldsPlaceholder, j)
    requires forall j: nat :: !OccursAt(a + FieldsDescription(request.fields) + b, ContentPlaceholder, j)
    ensures BuildExtractionPrompt(request) == a + FieldsDescription(request.fields) + b + request.content + c
  {
    var fd := FieldsDescription(request.fields);
    FieldsStep(a, b, c, fd);
    assert ContentPlaceholder[1..] == "content}";
    ReplaceAfterFree(a + fd + b, ContentPlaceholder, c, request.content);
    CustomPromptUnfold(request);
  }

  /** The first step of a two-placeholder prompt: the field list takes the
      place of the first `{fields}`. */
  lemma FieldsStep(a: string, b: string, c: string, fd: string)
    requires forall j: nat :: !OccursAt(a, FieldsPlaceholder, j)
    ensures ReplaceFirst(a + FieldsPlaceholder + b + ContentPlaceholder + c, FieldsPlaceholder, fd)
      == (a + fd + b) + ContentPlaceholder + c
  {
    var rest := b + ContentPlaceholder + c;
    assert a + FieldsPlaceholder + b + ContentPlaceholder + c == a + FieldsPlaceholder + rest;
    assert FieldsPlaceholder[1..] == "fields}";
    ReplaceAfterFree(a, FieldsPlaceholder, rest, fd);
    assert a + fd + rest == (a + fd + b) + ContentPlaceholder + c;
  }

  /** The custom branch of `BuildExtractionPrompt`, spelled out. */
  lemma CustomPromptUnfold(request: ExtractionRequest)
    requires request.customPrompt != ""
    ensures var withFields := ReplaceFirst(request.customPrompt, FieldsPlaceholder, FieldsDescription(request.fields));
      BuildExtractionPrompt(request) ==
        if Contains(withFields, ContentPlaceholder) then ReplaceFirst(withFields, ContentPlaceholder, request.content)
        else withFields + ContentHeading + request.content
  {
  }

  /** A custom prompt `A{fields}B` without a content placeholder in `A`, the
      field list or `B` gets the field list in place of its first `{fields}`,
      then the article text appended after the "文章内容" heading. */
  lemma CustomPromptAppendsContent(request: ExtractionRequest, a: string, b: string)
    requires request.customPrompt == a + FieldsPlaceholder + b
    requires forall j: nat :: !OccursAt(a, FieldsPlaceholder, j)
    requires forall j: nat :: !OccursAt(a + FieldsDescription(request.fields) + b, ContentPlaceholder, j)
    ensures BuildExtractionPrompt(request) == a + FieldsDescription(request.fields) + b + ContentHeading + request.content
  {
    var fd := FieldsDescription(request.fields);
    assert FieldsPlaceholder[1..] == "fields}";
    ReplaceAfterFree(a, FieldsPlaceholder, b, fd);
    CustomPromptUnfold(request);
  }

  /** A custom prompt with neither placeholder is kept and the article text is
      appended after the "文章内容" heading. */
  lemma CustomPromptWithoutPlaceholders(request: ExtractionRequest)
    requires request.customPrompt != ""
    requires forall j: nat :: !OccursAt(request.customPrompt, FieldsPlaceholder, j)
    requires forall j: nat :: !OccursAt(request.customPrompt, ContentPlaceholder, j)
    ensures BuildExtractionPrompt(request) == request.customPrompt + ContentHeading + request.content
  {
    ReplaceFirstSpec(request.customPrompt, FieldsPlaceholder, FieldsDescription(request.fields));
  }

  // ---------------------------------------------------------------------------
  // Reading the reply

  /** The regular expression /\{[\s\S]*\}|\[[\s\S]*\]/ can start a match at `i`:
      an opening brace (bracket) with a closing brace (bracket) somewhere after it. */
  predicate Opens(text: string, i: nat)
  {
    i < |text| &&
    ((text[i] == '{' && '}' in text[i + 1..]) || (text[i] == '[' && ']' in text[i + 1..]))
  }

  function Closer(open: char): char
  {
    if open == '{' then '}' else ']'
  }

  /** The last index of `c` in `text`, which occurs there. */
  function LastIndex(text: string, c: char): (k: nat)
    requires c in text
    ensures k < |text| && text[k] == c && c !in text[k + 1..]
  {
    if text[|text| - 1] == c then |text| - 1
    else
      assert c in text[..|text| - 1] by {
        var j :| 0 <= j < |text| && text[j] == c;
        assert text[..|text| - 1][j] == c;
      }
      var k := LastIndex(text[..|text| - 1], c);
      assert text[k + 1..] == text[..|text| - 1][k + 1..] + [text[|text| - 1]];
      k
  }

  /** The slice `[start, end)` of `text` that the regular expression matches. */
  datatype Slice = Slice(start: nat, end: nat)

  /** The leftmost position from `from` on where a match starts; the greedy
      `[\s\S]*` then runs to the last closing brace (bracket) of the text. */
  function CandidateFrom(text: string, from: nat): (r: Option<Slice>)
    ensures r.Some? ==>
      && from <= r.value.start < r.value.end <= |text|
      && Opens(text, r.value.start)
      && (forall i :: from <= i < r.value.start ==> !Opens(text, i))
      && text[r.value.end - 1] == Closer(text[r.value.start])
      && Closer(text[r.value.start]) !in text[r.value.end..]
    ensures r.None? ==> forall i :: from <= i ==> !Opens(text, i)
    decreases |text| - from
  {
    if from >= |text| then None
    else if Opens(text, from) then
      var k := LastIndex(text, Closer(text[from]));
      assert Closer(text[from]) in text[from + 1..];
      assert k > from by {
        var j :| 0 <= j < |text[from + 1..]| && text[from + 1..][j] == Closer(text[from]);
        assert text[from + 1 + j] == Closer(text[from]);
      }
      Some(Slice(from, k + 1))
    else CandidateFrom(text, from + 1)
  }

  /** `text.match(/\{[\s\S]*\}|\[[\s\S]*\]/)`: the leftmost span that starts with
      `{` and ends at the last `}`, or starts with `[` and ends at the last `]`. */
  function JsonCandidate(text: string): Option<Slice>
  {
    CandidateFrom(text, 0)
  }

  /** `parseJsonResponse`: parse the candidate span, or the whole text when there
      is none; a failure to parse reports the whole text. */
  function ParseJsonResponse(text: string, parse: string -> Option<Json>): (r: Result<Json, string>)
    ensures r.Err? ==> r.error == "JSON解析失败: " + text
    ensures JsonCandidate(text).None? ==> r == (if parse(text).Some? then Ok(parse(text).value) else Err("JSON解析失败: " + text))
    ensures JsonCandidate(text).Some? ==>
      var sl := JsonCandidate(text).value;
      && (r.Ok? <==> parse(text[sl.start..sl.end]).Some?)
      && (r.Ok? ==> r.value == parse(text[sl.start..sl.end]).value)
  {
    var attempt := match JsonCandidate(text)
      case Some(sl) => parse(text[sl.start..sl.end])
      case None => parse(text);
    if attempt.Some? then Ok(attempt.value) else Err("JSON解析失败: " + text)
  }

  /** The records of a parsed reply: an array as it is, an object as a list of
      one, anything else as no records. */
  function ToRecords(parsed: Json): seq<Json>
  {
    match parsed
    case JArray(items) => items
    case JObject(_) => [parsed]
    case _ => []
  }

  /** The first content block of a reply. */
  datatype ContentBlock = TextBlock(text: string) | OtherBlock

  /** What the AI service returned for one call, with the time the call took. */
  datatype ApiReply = ApiReply(inputTokens: nat, outputTokens: nat, first: ContentBlock, elapsed: nat)

  datatype ExtractionResponse = ExtractionResponse(data: seq<Json>, modelUsed: string, tokensUsed: nat, extractionTime: nat)

  /** `extractData`: call the model named by the preference with the assembled
      prompt, and read the reply. Any failure, of the call or of the parse, is
      rethrown with the "Claude API调用失败: " prefix. */
  function ExtractData(request: ExtractionRequest, api: (string, string) -> Result<ApiReply, string>, parse: string -> Option<Json>)
    : (r: Result<ExtractionResponse, string>)
    ensures var call := api(ModelId(request.modelPreference), BuildExtractionPrompt(request));
      call.Err? ==> r == Err("Claude API调用失败: " + call.error)
    ensures var call := api(ModelId(request.modelPreference), BuildExtractionPrompt(request));
      r.Ok? ==>
        && call.Ok?
        && r.value.modelUsed == (if request.modelPreference == Some(Sonnet) then SonnetModel else HaikuModel)
        && r.value.tokensUsed == call.value.inputTokens + call.value.outputTokens
        && r.value.extractionTime == call.value.elapsed
    ensures var call := api(ModelId(request.modelPreference), BuildExtractionPrompt(request));
      call.Ok? && call.value.first.OtherBlock? ==> r.Ok? && r.value.data == []
    ensures var call := api(ModelId(request.modelPreference), BuildExtractionPrompt(request));
      call.Ok? && call.value.first.TextBlock? ==>
        match ParseJsonResponse(call.value.first.text, parse)
        case Err(e) => r == Err("Claude API调用失败: " + e)
        case Ok(JArray(items)) => r.Ok? && r.value.data == items
        case Ok(JObject(m)) => r.Ok? && r.value.data == [JObject(m)]
        case Ok(_) => r.Ok? && r.value.data == []
  {
    var modelId := ModelId(request.modelPreference);
    ReadReply(api(modelId, BuildExtractionPrompt(request)), modelId, parse)
  }

  /** The second half of `extractData`, once the call to `modelId` has
      returned `call`. */
  function ReadReply(call: Result<ApiReply, string>, modelId: string, parse: string -> Option<Json>): (r: Result<ExtractionResponse, string>)
    ensures call.Err? ==> r == Err("Claude API调用失败: " + call.error)
    ensures r.Ok? ==>
      && call.Ok? && r.value.modelUsed == modelId
      && r.value.tokensUsed == call.value.inputTokens + call.value.outputTokens
      && r.value.extractionTime == call.value.elapsed
    ensures call.Ok? && call.value.first.OtherBlock? ==> r.Ok? && r.value.data == []
    ensures call.Ok? && call.value.first.TextBlock? ==>
      match ParseJsonResponse(call.value.first.text, parse)
      case Err(e) => r == Err("Claude API调用失败: " + e)
      case Ok(JArray(items)) => r.Ok? && r.value.data == items
      case Ok(JObject(m)) => r.Ok? && r.value.data == [JObject(m)]
      case Ok(_) => r.Ok? && r.value.data == []
  {
    match call
    case Err(e) => Err("Claude API调用失败: " + e)
    case Ok(reply) =>
      var parsed := match reply.first
        case OtherBlock => Ok(JArray([]))
        case TextBlock(t) => ParseJsonResponse(t, parse);
      match parsed
      case Err(e) => Err("Claude API调用失败: " + e)
      case Ok(v) =>
        Ok(ExtractionResponse(ToRecords(v), modelId, reply.inputTokens + reply.outputTokens, reply.elapsed))
  }
}
