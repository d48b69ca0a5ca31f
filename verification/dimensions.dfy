/**
 * The dimension-template service (backend/src/dimensions/dimensions.service.ts):
 * templates are created with the next sort position and a generated prompt when
 * none is given, edited freely while unlocked, and once locked their field list
 * only grows. Every operation passes the account ownership gate first.
 */
module Dimensions {
  import opened Common
  import opened Store
  import Accounts
  import Claude

  const TemplateMissing := "维度模板不存在"
  const FieldsLocked := "维度模板已锁定,无法修改字段定义"
  const AlreadyLocked := "维度模板已经是锁定状态"
  const AlreadyUnlocked := "维度模板已经是解锁状态"
  const AddToUnlocked := "只能向已锁定的模板添加新字段"
  const MissingRecord := "Record to update not found."

  // ---------------------------------------------------------------------------
  // The generated prompt

  const PromptOpening := "请从以下文章内容中提取"
  const PromptNameTail := "相关的数据。\n\n"
  const FieldsHeading := "需要提取的字段:\n"

  const DescriptionLabel := "维度说明: "

  function DescriptionParagraph(description: string): string
  {
    if description != "" then DescriptionLabel + description + "\n\n" else ""
  }

  /** What the generated prompt says before the field list. */
  function PromptHead(name: string, description: string): string
  {
    PromptOpening + name + PromptNameTail + DescriptionParagraph(description) + FieldsHeading
  }

  /** `generateDefaultPrompt(name, description, fields)`. */
  function GenerateDefaultPrompt(name: string, description: string, fields: seq<Claude.Field>): (p: string)
    ensures OccursAt(p, PromptOpening + name, 0)
    ensures |p| >= |Claude.Instructions| && p[|p| - |Claude.Instructions|..] == Claude.Instructions
  {
    var h := PromptHead(name, description);
    var rest := PromptNameTail + DescriptionParagraph(description) + FieldsHeading;
    assert h == (PromptOpening + name) + rest;
    var p := h + Claude.FieldsDescription(fields) + Claude.Instructions;
    assert p[..|PromptOpening + name|] == PromptOpening + name;
    p
  }

  /** The generated prompt is its head, then the field list (in order, each
      field marked required or optional, as in the extraction prompt), then the
      extraction instructions, which end it. */
  lemma GeneratedPromptLayout(name: string, description: string, fields: seq<Claude.Field>)
    ensures var p := GenerateDefaultPrompt(name, description, fields);
      var listAt := |PromptHead(name, description)|;
      && OccursAt(p, PromptHead(name, description), 0)
      && OccursAt(p, Claude.FieldsDescription(fields), listAt)
      && OccursAt(p, Claude.Instructions, listAt + |Claude.FieldsDescription(fields)|)
      && listAt + |Claude.FieldsDescription(fields)| + |Claude.Instructions| == |p|
  {
    Layout(PromptHead(name, description), Claude.FieldsDescription(fields), Claude.Instructions);
  }

  /** The head names the dimension, and carries a description paragraph exactly
      when there is a description, with the description whole. */
  lemma PromptHeadLayout(name: string, description: string)
    ensures var h := PromptHead(name, description); var at := |PromptOpening| + |name| + |PromptNameTail|;
      && OccursAt(h, name, |PromptOpening|)
      && (description != "" <==> OccursAt(h, DescriptionLabel, at))
      && (description != "" ==> OccursAt(h, description, at + |DescriptionLabel|))
  {
    var front := PromptOpening + name + PromptNameTail;
    Layout(PromptOpening, name, PromptNameTail + DescriptionParagraph(description) + FieldsHeading);
    if description != "" {
      Layout(front, DescriptionLabel, description + "\n\n" + FieldsHeading);
      Layout(front + DescriptionLabel, description, "\n\n" + FieldsHeading);
    } else {
      Layout(front, FieldsHeading, []);
      assert FieldsHeading[0] != DescriptionLabel[0];
    }
  }

  /** Where the parts of `a + b + c` sit. */
  lemma Layout(a: string, b: string, c: string)
    ensures var s := a + b + c;
      && OccursAt(s, a, 0) && OccursAt(s, b, |a|) && OccursAt(s, c, |a| + |b|) && |s| == |a| + |b| + |c|
      && s[|a|..|a| + |b|] == b
      && (|b| > 0 ==> s[|a|] == b[0])
  {
    var s := a + b + c;
    assert s[..|a|] == a;
    assert s[|a|..|a| + |b|] == b;
    assert s[|a| + |b|..|a| + |b| + |c|] == c;
  }

  // ---------------------------------------------------------------------------
  // Sort positions

  /** The largest sort position among the templates of `accountId` listed in
      `ids` (`findFirst` ordered by sortOrder descending), inactive ones included. */
  function MaxSortOrder(templates: map<nat, Template>, accountId: nat, ids: seq<nat>): (r: Option<int>)
    ensures r.None? <==> forall k :: 0 <= k < |ids| ==> ids[k] !in templates || templates[ids[k]].accountId != accountId
    ensures r.Some? ==>
      exists k :: 0 <= k < |ids| && ids[k] in templates && templates[ids[k]].accountId == accountId && templates[ids[k]].sortOrder == r.value
    ensures r.Some? ==>
      forall k :: 0 <= k < |ids| && ids[k] in templates && templates[ids[k]].accountId == accountId ==> templates[ids[k]].sortOrder <= r.value
  {
    if ids == [] then None
    else
      var rest := MaxSortOrder(templates, accountId, ids[1..]);
      assert forall k :: 1 <= k < |ids| ==> ids[k] == ids[1..][k - 1];
      if ids[0] in templates && templates[ids[0]].accountId == accountId then
        var here := templates[ids[0]].sortOrder;
        if rest.Some? && rest.value > here then rest else Some(here)
      else rest
  }

  /** The ids of every template below `bound`. */
  function AllIds(templates: map<nat, Template>, bound: nat): (ids: seq<nat>)
    ensures forall id :: id in templates && id < bound ==> id in ids
  {
    OldestFirst(templates, (t: Template) => true, bound)
  }

  /** `(maxOrder?.sortOrder || 0) + 1`: no template or a maximum of 0 both give 1. */
  function NextSortOrder(templates: map<nat, Template>, bound: nat, accountId: nat): int
  {
    match MaxSortOrder(templates, accountId, AllIds(templates, bound))
    case None => 1
    case Some(m) => (if m == 0 then 0 else m) + 1
  }

  /** The new template goes after every template of its account: its position
      is one more than the largest, or 1 when the account has none. */
  lemma NextSortOrderIsAfterAll(templates: map<nat, Template>, bound: nat, accountId: nat)
    requires forall id :: id in templates ==> id < bound
    ensures forall id :: id in templates && templates[id].accountId == accountId ==>
      templates[id].sortOrder < NextSortOrder(templates, bound, accountId)
    ensures (forall id :: id in templates ==> templates[id].accountId != accountId) ==> NextSortOrder(templates, bound, accountId) == 1
    ensures NextSortOrder(templates, bound, accountId) == 1 ||
      exists id :: id in templates && templates[id].accountId == accountId && templates[id].sortOrder == NextSortOrder(templates, bound, accountId) - 1
  {
    var ids := AllIds(templates, bound);
    var next := NextSortOrder(templates, bound, accountId);
    var m := MaxSortOrder(templates, accountId, ids);
    forall id | id in templates && templates[id].accountId == accountId
      ensures templates[id].sortOrder < next
    {
      MaxCoversListed(templates, accountId, ids, id);
    }
    if m.Some? && next != 1 {
      var k := MaxIsReached(templates, accountId, ids);
      assert templates[ids[k]].sortOrder == next - 1;
    }
  }

  lemma MaxCoversListed(templates: map<nat, Template>, accountId: nat, ids: seq<nat>, id: nat)
    requires id in ids && id in templates && templates[id].accountId == accountId
    ensures MaxSortOrder(templates, accountId, ids).Some?
    ensures templates[id].sortOrder <= MaxSortOrder(templates, accountId, ids).value
  {
    var k :| 0 <= k < |ids| && ids[k] == id;
  }

  lemma MaxIsReached(templates: map<nat, Template>, accountId: nat, ids: seq<nat>) returns (k: nat)
    requires MaxSortOrder(templates, accountId, ids).Some?
    ensures k < |ids| && ids[k] in templates && templates[ids[k]].accountId == accountId
    ensures templates[ids[k]].sortOrder == MaxSortOrder(templates, accountId, ids).value
  {
    k :| 0 <= k < |ids| && ids[k] in templates && templates[ids[k]].accountId == accountId
      && templates[ids[k]].sortOrder == MaxSortOrder(templates, accountId, ids).value;
  }

  // ---------------------------------------------------------------------------
  // Reading templates

  /** `findOne(id, userId)`: a missing template is NotFound; otherwise the
      ownership gate decides on the template's account. */
  function FindOne(accounts: map<nat, Account>, templates: map<nat, Template>, id: nat, userId: nat): (r: Result<Template, Exception>)
    ensures id !in templates ==> r == Err(NotFound(TemplateMissing))
    ensures id in templates ==> match Accounts.FindOne(accounts, templates[id].accountId, userId)
      case Ok(_) => r == Ok(templates[id])
      case Err(e) => r == Err(e)
    ensures r.Ok? <==> id in templates && templates[id].accountId in accounts && accounts[templates[id].accountId].userId == userId
  {
    if id !in templates then Err(NotFound(TemplateMissing))
    else match Accounts.FindOne(accounts, templates[id].accountId, userId)
      case Err(e) => Err(e)
      case Ok(_) => Ok(templates[id])
  }

  /** The sort key of `orderBy: { sortOrder: 'asc' }`. */
  function OrderKey(templates: map<nat, Template>): nat -> int
  {
    (id: nat) => if id in templates then templates[id].sortOrder else 0
  }

  /** The account's active templates below `bound`, oldest first. */
  function ActiveOf(templates: map<nat, Template>, bound: nat, accountId: nat): (ids: seq<nat>)
    ensures forall k :: 0 <= k < |ids| ==> ids[k] in templates && templates[ids[k]].accountId == accountId && templates[ids[k]].isActive
    ensures forall id :: id < bound && id in templates && templates[id].accountId == accountId && templates[id].isActive ==> id in ids
    ensures forall j, k :: 0 <= j < k < |ids| ==> ids[j] != ids[k]
  {
    OldestFirst(templates, (t: Template) => t.accountId == accountId && t.isActive, bound)
  }

  /** `findAll(userId, accountId)`, after the gate: the account's active
      templates, by sort position, ties by age. */
  function ActiveInOrder(templates: map<nat, Template>, bound: nat, accountId: nat): (ids: seq<nat>)
    ensures forall id :: id in ids <==> id in ActiveOf(templates, bound, accountId)
    ensures SortedBy(OrderKey(templates), ids)
  {
    var selected := ActiveOf(templates, bound, accountId);
    var ids := SortByKey(OrderKey(templates), selected);
    SameMembers(ids, selected);
    ids
  }

  /** The list holds exactly the account's active templates, each once, in
      ascending sort position. */
  lemma ActiveInOrderSpec(templates: map<nat, Template>, bound: nat, accountId: nat)
    ensures var ids := ActiveInOrder(templates, bound, accountId);
      && (forall k :: 0 <= k < |ids| ==> ids[k] in templates && templates[ids[k]].accountId == accountId && templates[ids[k]].isActive)
      && (forall id :: id < bound && id in templates && templates[id].accountId == accountId && templates[id].isActive ==> id in ids)
      && (forall j, k :: 0 <= j < k < |ids| ==> templates[ids[j]].sortOrder <= templates[ids[k]].sortOrder && ids[j] != ids[k])
  {
    var ids := ActiveInOrder(templates, bound, accountId);
    var key := OrderKey(templates);
    forall k | 0 <= k < |ids|
      ensures ids[k] in templates && templates[ids[k]].accountId == accountId && templates[ids[k]].isActive
    {
      assert ids[k] in ActiveOf(templates, bound, accountId);
    }
    forall j, k | 0 <= j < k < |ids|
      ensures templates[ids[j]].sortOrder <= templates[ids[k]].sortOrder && ids[j] != ids[k]
    {
      assert Before(key, ids[j], ids[k]);
      assert key(ids[j]) == templates[ids[j]].sortOrder;
      assert key(ids[k]) == templates[ids[k]].sortOrder;
    }
  }

  lemma SameMembers(a: seq<nat>, b: seq<nat>)
    requires multiset(a) == multiset(b)
    ensures forall x :: x in a <==> x in b
  {
    forall x ensures x in a <==> x in b {
      assert x in a <==> x in multiset(a);
      assert x in b <==> x in multiset(b);
    }
  }

  function FindAll(accounts: map<nat, Account>, templates: map<nat, Template>, bound: nat, userId: nat, accountId: nat)
    : (r: Result<seq<nat>, Exception>)
    ensures r.Err? <==> Accounts.FindOne(accounts, accountId, userId).Err?
    ensures r.Err? ==> r.error == Accounts.FindOne(accounts, accountId, userId).error
    ensures r.Ok? ==> r.value == ActiveInOrder(templates, bound, accountId)
  {
    match Accounts.FindOne(accounts, accountId, userId)
    case Err(e) => Err(e)
    case Ok(_) => Ok(ActiveInOrder(templates, bound, accountId))
  }

  // ---------------------------------------------------------------------------
  // Writing templates

  /** The body of a create request; an absent member is "" or None. The
      request types are interfaces, so the global validation pipe checks nothing
      and strips nothing: a body may also carry the row's `isLocked`,
      `isActive` and `sortOrder` columns. The spread writes the first two; the
      sort position written after the spread overrides the third. */
  datatype NewTemplate = NewTemplate(
    accountId: nat,
    name: string,
    description: string,
    fields: seq<Claude.Field>,
    promptTemplate: string,
    modelPreference: Option<Claude.ModelPreference>,
    isLocked: Option<bool>,
    isActive: Option<bool>,
    sortOrder: Option<int>)

  /** The template `create` stores for a request, given the next sort position. */
  function NewRow(dto: NewTemplate, sortOrder: int): (t: Template)
    ensures t.accountId == dto.accountId && t.name == dto.name && t.description == dto.description
    ensures t.fields == dto.fields && t.sortOrder == sortOrder
    ensures dto.promptTemplate != "" ==> t.promptTemplate == dto.promptTemplate
    ensures dto.promptTemplate == "" ==> t.promptTemplate == GenerateDefaultPrompt(dto.name, dto.description, dto.fields)
    ensures t.modelPreference == if dto.modelPreference.Some? then dto.modelPreference.value else Claude.Haiku
    ensures t.isLocked <==> dto.isLocked == Some(true)
    ensures t.isActive <==> dto.isActive != Some(false)
  {
    var prompt := if dto.promptTemplate != "" then dto.promptTemplate else GenerateDefaultPrompt(dto.name, dto.description, dto.fields);
    var preference := if dto.modelPreference.Some? then dto.modelPreference.value else Claude.Haiku;
    Template(dto.accountId, dto.name, dto.description, dto.fields, prompt, preference,
      Accounts.Pick(dto.isLocked, false), Accounts.Pick(dto.isActive, true), sortOrder)
  }

  /** `create(userId, dto)`: after the gate, one new template placed after every
      template of the account, whatever sort position the body names, with the
      generated prompt when none was given; it is unlocked and active unless the
      body says otherwise. */
  method Create(db: Database, userId: nat, dto: NewTemplate) returns (r: Result<nat, Exception>)
    requires db.Valid()
    modifies db
    ensures db.Valid()
    ensures Accounts.FindOne(old(db.accounts), dto.accountId, userId).Err? ==>
      r == Err(Accounts.FindOne(old(db.accounts), dto.accountId, userId).error) && db.templates == old(db.templates)
    ensures Accounts.FindOne(old(db.accounts), dto.accountId, userId).Ok? ==>
      && r.Ok? && r.value !in old(db.templates)
      && db.templates == old(db.templates)[r.value := NewRow(dto, NextSortOrder(old(db.templates), old(db.nextId), dto.accountId))]
    ensures db.accounts == old(db.accounts) && db.articles == old(db.articles) && db.results == old(db.results)
  {
    var owned := Accounts.FindOne(db.accounts, dto.accountId, userId);
    if owned.Err? {
      return Err(owned.error);
    }
    var sortOrder := NextSortOrder(db.templates, db.nextId, dto.accountId);
    var id := db.NewId();
    db.templates := db.templates[id := NewRow(dto, sortOrder)];
    r := Ok(id);
  }

  /** The body of an update request: only the members present are written. A
      body may also carry the row's `isLocked`, `sortOrder` and `accountId`
      columns; `update` deletes `accountId` and writes the other two. */
  datatype TemplatePatch = TemplatePatch(
    name: Option<string>,
    description: Option<string>,
    fields: Option<seq<Claude.Field>>,
    modelPreference: Option<Claude.ModelPreference>,
    promptTemplate: Option<string>,
    isActive: Option<bool>,
    isLocked: Option<bool>,
    sortOrder: Option<int>,
    accountId: Option<nat>)

  /** Writing an update request onto a template: a present member replaces its
      column and an absent one leaves it; the account never moves. */
  function ApplyPatch(t: Template, patch: TemplatePatch): (r: Template)
    ensures r.accountId == t.accountId
    ensures patch.name.Some? ==> r.name == patch.name.value
    ensures patch.name.None? ==> r.name == t.name
    ensures patch.description.Some? ==> r.description == patch.description.value
    ensures patch.description.None? ==> r.description == t.description
    ensures patch.fields.Some? ==> r.fields == patch.fields.value
    ensures patch.fields.None? ==> r.fields == t.fields
    ensures patch.modelPreference.Some? ==> r.modelPreference == patch.modelPreference.value
    ensures patch.modelPreference.None? ==> r.modelPreference == t.modelPreference
    ensures patch.promptTemplate.Some? ==> r.promptTemplate == patch.promptTemplate.value
    ensures patch.promptTemplate.None? ==> r.promptTemplate == t.promptTemplate
    ensures patch.isActive.Some? ==> r.isActive == patch.isActive.value
    ensures patch.isActive.None? ==> r.isActive == t.isActive
    ensures patch.isLocked.Some? ==> r.isLocked == patch.isLocked.value
    ensures patch.isLocked.None? ==> r.isLocked == t.isLocked
    ensures patch.sortOrder.Some? ==> r.sortOrder == patch.sortOrder.value
    ensures patch.sortOrder.None? ==> r.sortOrder == t.sortOrder
    ensures patch.(accountId := None) == TemplatePatch(None, None, None, None, None, None, None, None, None) ==> r == t
  {
    Template(
      t.accountId,
      Accounts.Pick(patch.name, t.name),
      Accounts.Pick(patch.description, t.description),
      Accounts.Pick(patch.fields, t.fields),
      Accounts.Pick(patch.promptTemplate, t.promptTemplate),
      Accounts.Pick(patch.modelPreference, t.modelPreference),
      Accounts.Pick(patch.isLocked, t.isLocked),
      Accounts.Pick(patch.isActive, t.isActive),
      Accounts.Pick(patch.sortOrder, t.sortOrder))
  }

  /** What `update` settles with: the gate's error, the lock's refusal of any
      request that carries `fields`, or the patched template. */
  function UpdateOutcome(accounts: map<nat, Account>, templates: map<nat, Template>, id: nat, userId: nat, patch: TemplatePatch)
    : (r: Result<Template, Exception>)
    ensures FindOne(accounts, templates, id, userId).Err? ==> r == Err(FindOne(accounts, templates, id, userId).error)
    ensures r == Err(BadRequest(FieldsLocked)) <==>
      FindOne(accounts, templates, id, userId).Ok? && templates[id].isLocked && patch.fields.Some?
    ensures r.Ok? <==> FindOne(accounts, templates, id, userId).Ok? && !(templates[id].isLocked && patch.fields.Some?)
    ensures r.Ok? ==> id in templates && r.value == ApplyPatch(templates[id], patch)
    ensures r.Ok? && templates[id].isLocked ==> r.value.fields == templates[id].fields
    ensures r.Ok? && templates[id].isLocked && patch.isLocked != Some(false) ==> r.value.isLocked
  {
    match FindOne(accounts, templates, id, userId)
    case Err(e) => Err(e)
    case Ok(t) =>
      if t.isLocked && patch.fields.Some? then Err(BadRequest(FieldsLocked))
      else Ok(ApplyPatch(t, patch))
  }

  /** `update(id, userId, dto)`. */
  method Update(db: Database, id: nat, userId: nat, patch: TemplatePatch) returns (r: Result<Template, Exception>)
    requires db.Valid()
    modifies db
    ensures db.Valid()
    ensures r == UpdateOutcome(old(db.accounts), old(db.templates), id, userId, patch)
    ensures r.Ok? ==> db.templates == old(db.templates)[id := r.value]
    ensures r.Err? ==> db.templates == old(db.templates)
    ensures db.accounts == old(db.accounts) && db.articles == old(db.articles) && db.results == old(db.results)
    ensures db.nextId == old(db.nextId)
  {
    r := UpdateOutcome(db.accounts, db.templates, id, userId, patch);
    if r.Ok? {
      db.templates := db.templates[id := r.value];
    }
  }

  /** What `lock` (`locking`) or `unlock` (not `locking`) settles with. */
  function LockOutcome(accounts: map<nat, Account>, templates: map<nat, Template>, id: nat, userId: nat, locking: bool)
    : (r: Result<Template, Exception>)
    ensures FindOne(accounts, templates, id, userId).Err? ==> r == Err(FindOne(accounts, templates, id, userId).error)
    ensures FindOne(accounts, templates, id, userId).Ok? && templates[id].isLocked == locking ==>
      r == Err(BadRequest(if locking then AlreadyLocked else AlreadyUnlocked))
    ensures r.Ok? <==> FindOne(accounts, templates, id, userId).Ok? && templates[id].isLocked != locking
    ensures r.Ok? ==> r.value == templates[id].(isLocked := locking)
  {
    match FindOne(accounts, templates, id, userId)
    case Err(e) => Err(e)
    case Ok(t) =>
      if locking && t.isLocked then Err(BadRequest(AlreadyLocked))
      else if !locking && !t.isLocked then Err(BadRequest(AlreadyUnlocked))
      else Ok(t.(isLocked := locking))
  }

  /** `lock(id, userId)`: an unlocked template becomes locked; locking a locked
      template is refused. */
  method Lock(db: Database, id: nat, userId: nat) returns (r: Result<Template, Exception>)
    requires db.Valid()
    modifies db
    ensures db.Valid()
    ensures r == LockOutcome(old(db.accounts), old(db.templates), id, userId, true)
    ensures r.Ok? ==> db.templates == old(db.templates)[id := r.value]
    ensures r.Err? ==> db.templates == old(db.templates)
    ensures db.accounts == old(db.accounts) && db.articles == old(db.articles) && db.results == old(db.results)
    ensures db.nextId == old(db.nextId)
  {
    r := LockOutcome(db.accounts, db.templates, id, userId, true);
    if r.Ok? {
      db.templates := db.templates[id := r.value];
    }
  }

  /** `unlock(id, userId)`: a locked template becomes unlocked; unlocking an
      unlocked template is refused. */
  method Unlock(db: Database, id: nat, userId: nat) returns (r: Result<Template, Exception>)
    requires db.Valid()
    modifies db
    ensures db.Valid()
    ensures r == LockOutcome(old(db.accounts), old(db.templates), id, userId, false)
    ensures r.Ok? ==> db.templates == old(db.templates)[id := r.value]
    ensures r.Err? ==> db.templates == old(db.templates)
    ensures db.accounts == old(db.accounts) && db.articles == old(db.articles) && db.results == old(db.results)
    ensures db.nextId == old(db.nextId)
  {
    r := LockOutcome(db.accounts, db.templates, id, userId, false);
    if r.Ok? {
      db.templates := db.templates[id := r.value];
    }
  }

  /** Lock and unlock undo each other: locking an unlocked template and then
      unlocking it gives back the template as it was. */
  lemma LockThenUnlock(accounts: map<nat, Account>, templates: map<nat, Template>, id: nat, userId: nat)
    requires LockOutcome(accounts, templates, id, userId, true).Ok?
    ensures var locked := templates[id := LockOutcome(accounts, templates, id, userId, true).value];
      LockOutcome(accounts, locked, id, userId, false) == Ok(templates[id])
  {
  }

  /** What `addFields` settles with: only a locked template takes new fields,
      which go after the existing ones. */
  function AddFieldsOutcome(accounts: map<nat, Account>, templates: map<nat, Template>, id: nat, userId: nat, newFields: seq<Claude.Field>)
    : (r: Result<Template, Exception>)
    ensures FindOne(accounts, templates, id, userId).Err? ==> r == Err(FindOne(accounts, templates, id, userId).error)
    ensures r == Err(BadRequest(AddToUnlocked)) <==> FindOne(accounts, templates, id, userId).Ok? && !templates[id].isLocked
    ensures r.Ok? <==> FindOne(accounts, templates, id, userId).Ok? && templates[id].isLocked
    ensures r.Ok? ==> r.value == templates[id].(fields := templates[id].fields + newFields)
  {
    match FindOne(accounts, templates, id, userId)
    case Err(e) => Err(e)
    case Ok(t) =>
      if !t.isLocked then Err(BadRequest(AddToUnlocked))
      else Ok(t.(fields := t.fields + newFields))
  }

  /** `addFields(id, userId, newFields)`. */
  method AddFields(db: Database, id: nat, userId: nat, newFields: seq<Claude.Field>) returns (r: Result<Template, Exception>)
    requires db.Valid()
    modifies db
    ensures db.Valid()
    ensures r == AddFieldsOutcome(old(db.accounts), old(db.templates), id, userId, newFields)
    ensures r.Ok? ==> db.templates == old(db.templates)[id := r.value]
    ensures r.Err? ==> db.templates == old(db.templates)
    ensures db.accounts == old(db.accounts) && db.articles == old(db.articles) && db.results == old(db.results)
    ensures db.nextId == old(db.nextId)
  {
    r := AddFieldsOutcome(db.accounts, db.templates, id, userId, newFields);
    if r.Ok? {
      db.templates := db.templates[id := r.value];
    }
  }

  /** A sequence of edits to one template: updates and field additions. */
  datatype Edit = UpdateWith(patch: TemplatePatch) | AddWith(newFields: seq<Claude.Field>)

  function ApplyEdits(accounts: map<nat, Account>, templates: map<nat, Template>, id: nat, userId: nat, edits: seq<Edit>)
    : map<nat, Template>
    decreases |edits|
  {
    if edits == [] then templates
    else
      var r := match edits[0]
        case UpdateWith(p) => UpdateOutcome(accounts, templates, id, userId, p)
        case AddWith(fs) => AddFieldsOutcome(accounts, templates, id, userId, fs);
      var next := if r.Ok? then templates[id := r.value] else templates;
      ApplyEdits(accounts, next, id, userId, edits[1..])
  }

  /** The number of edits before the first update whose body carries
      `isLocked: false`. */
  function FirstUnlock(edits: seq<Edit>): (n: nat)
    ensures n <= |edits|
    ensures forall k :: 0 <= k < n ==> !(edits[k].UpdateWith? && edits[k].patch.isLocked == Some(false))
    ensures n < |edits| ==> edits[n].UpdateWith? && edits[n].patch.isLocked == Some(false)
  {
    if edits == [] then 0
    else if edits[0].UpdateWith? && edits[0].patch.isLocked == Some(false) then 0
    else 1 + FirstUnlock(edits[1..])
  }

  /** Once a template is locked its fields only grow: through any sequence of
      updates and field additions, up to the first update whose body unlocks it,
      the template stays locked and the fields it had stay an unchanged prefix. */
  lemma {:induction false} LockedFieldsOnlyGrow(accounts: map<nat, Account>, templates: map<nat, Template>, id: nat, userId: nat, edits: seq<Edit>)
    requires id in templates && templates[id].isLocked
    ensures var after := ApplyEdits(accounts, templates, id, userId, edits[..FirstUnlock(edits)]);
      id in after && after[id].isLocked && templates[id].fields <= after[id].fields
    decreases |edits|
  {
    var n := FirstUnlock(edits);
    if n > 0 {
      var r := match edits[0]
        case UpdateWith(p) => UpdateOutcome(accounts, templates, id, userId, p)
        case AddWith(fs) => AddFieldsOutcome(accounts, templates, id, userId, fs);
      var next := if r.Ok? then templates[id := r.value] else templates;
      assert next[id].isLocked && templates[id].fields <= next[id].fields;
      assert edits[..n][1..] == edits[1..][..FirstUnlock(edits[1..])];
      LockedFieldsOnlyGrow(accounts, next, id, userId, edits[1..]);
    }
  }

  /** The lock guards the fields against one request only: an update whose body
      carries `isLocked: false` (and no `fields`) passes the lock check and
      unlocks the template, after which a second update replaces its fields. */
  lemma UnlockThenReplaceFields(accounts: map<nat, Account>, templates: map<nat, Template>, id: nat, userId: nat, fields: seq<Claude.Field>)
    requires FindOne(accounts, templates, id, userId).Ok? && templates[id].isLocked
    ensures var unlock := TemplatePatch(None, None, None, None, None, None, Some(false), None, None);
      var replace := TemplatePatch(None, None, Some(fields), None, None, None, None, None, None);
      var after := ApplyEdits(accounts, templates, id, userId, [UpdateWith(unlock), UpdateWith(replace)]);
      id in after && after[id].fields == fields && !after[id].isLocked
  {
    var unlock := TemplatePatch(None, None, None, None, None, None, Some(false), None, None);
    var replace := TemplatePatch(None, None, Some(fields), None, None, None, None, None, None);
    var mid := templates[id := ApplyPatch(templates[id], unlock)];
    assert FindOne(accounts, mid, id, userId).Ok?;
    assert [UpdateWith(unlock), UpdateWith(replace)][1..] == [UpdateWith(replace)];
    assert ApplyEdits(accounts, templates, id, userId, [UpdateWith(unlock), UpdateWith(replace)])
      == ApplyEdits(accounts, mid, id, userId, [UpdateWith(replace)]);
    var last := mid[id := ApplyPatch(mid[id], replace)];
    assert [UpdateWith(replace)][1..] == [];
    assert ApplyEdits(accounts, mid, id, userId, [UpdateWith(replace)]) == ApplyEdits(accounts, last, id, userId, []);
  }

  /** `remove(id, userId)`: after the gate, a soft delete that only clears
      `isActive`. */
  method Remove(db: Database, id: nat, userId: nat) returns (r: Result<Template, Exception>)
    requires db.Valid()
    modifies db
    ensures db.Valid()
    ensures FindOne(old(db.accounts), old(db.templates), id, userId).Err? ==>
      r == Err(FindOne(old(db.accounts), old(db.templates), id, userId).error) && db.templates == old(db.templates)
    ensures FindOne(old(db.accounts), old(db.templates), id, userId).Ok? ==>
      r == Ok(old(db.templates)[id].(isActive := false)) && db.templates == old(db.templates)[id := r.value]
    ensures db.accounts == old(db.accounts) && db.articles == old(db.articles) && db.results == old(db.results)
    ensures db.nextId == old(db.nextId)
  {
    var found := FindOne(db.accounts, db.templates, id, userId);
    if found.Err? {
      return Err(found.error);
    }
    r := Ok(found.value.(isActive := false));
    db.templates := db.templates[id := r.value];
  }

  /** A removed template leaves the account's list but keeps its row, its lock
      and its fields. */
  lemma RemovedTemplateLeavesList(templates: map<nat, Template>, bound: nat, id: nat)
    requires id in templates
    ensures var after := templates[id := templates[id].(isActive := false)];
      id !in ActiveInOrder(after, bound, templates[id].accountId)
      && id in after && after[id].isLocked == templates[id].isLocked && after[id].fields == templates[id].fields
  {
  }

  /** The templates after the first `n` updates of `reorder`, issued in list
      order: the template at position `i` gets sort position `i`; an id with no
      template changes nothing. */
  function Reordered(templates: map<nat, Template>, templateIds: seq<nat>, n: nat): (r: map<nat, Template>)
    requires n <= |templateIds|
    ensures r.Keys == templates.Keys
  {
    if n == 0 then templates
    else
      var before := Reordered(templates, templateIds, n - 1);
      var id := templateIds[n - 1];
      if id in before then before[id := before[id].(sortOrder := n - 1)] else before
  }

  /** Reordering keeps the set of templates and changes only sort positions. */
  lemma {:induction false} ReorderedKeepsRows(templates: map<nat, Template>, templateIds: seq<nat>, n: nat)
    requires n <= |templateIds|
    ensures var r := Reordered(templates, templateIds, n);
      r.Keys == templates.Keys && forall id :: id in r ==> r[id] == templates[id].(sortOrder := r[id].sortOrder)
  {
    if n > 0 {
      ReorderedKeepsRows(templates, templateIds, n - 1);
    }
  }

  /** A template whose id is not in the list keeps its row. */
  lemma {:induction false} ReorderedLeavesOthers(templates: map<nat, Template>, templateIds: seq<nat>, n: nat, id: nat)
    requires n <= |templateIds| && id in templates && id !in templateIds[..n]
    ensures id in Reordered(templates, templateIds, n) && Reordered(templates, templateIds, n)[id] == templates[id]
  {
    if n > 0 {
      assert templateIds[..n] == templateIds[..n - 1] + [templateIds[n - 1]];
      ReorderedLeavesOthers(templates, templateIds, n - 1, id);
    }
  }

  /** A template whose id is in the list gets the position of its last
      appearance. */
  lemma {:induction false} ReorderedPlacesListed(templates: map<nat, Template>, templateIds: seq<nat>, n: nat, k: nat)
    requires k < n <= |templateIds| && templateIds[k] in templates && templateIds[k] !in templateIds[k + 1..n]
    ensures Reordered(templates, templateIds, n)[templateIds[k]] == templates[templateIds[k]].(sortOrder := k)
  {
    ReorderedKeepsRows(templates, templateIds, n);
    if k < n - 1 {
      assert templateIds[k + 1..n] == templateIds[k + 1..n - 1] + [templateIds[n - 1]];
      ReorderedPlacesListed(templates, templateIds, n - 1, k);
      ReorderedKeepsRows(templates, templateIds, n - 1);
    } else {
      ReorderedKeepsRows(templates, templateIds, n - 1);
    }
  }

  /** One of the first `n` listed ids has no template. */
  ghost predicate SomeMissing(templates: map<nat, Template>, templateIds: seq<nat>, n: nat)
    requires n <= |templateIds|
  {
    exists k :: 0 <= k < n && templateIds[k] !in templates
  }

  lemma SomeMissingStep(templates: map<nat, Template>, templateIds: seq<nat>, n: nat)
    requires n < |templateIds|
    ensures SomeMissing(templates, templateIds, n + 1) <==> SomeMissing(templates, templateIds, n) || templateIds[n] !in templates
  {
    if SomeMissing(templates, templateIds, n + 1) && templateIds[n] in templates {
      var k :| 0 <= k < n + 1 && templateIds[k] !in templates;
      assert k < n;
    }
  }

  /** `reorder(userId, accountId, templateIds)`: after the gate on the account,
      every update is issued in list order. The ids are not checked against the
      account, and an id with no template makes the call fail without undoing the
      other updates. */
  method Reorder(db: Database, userId: nat, accountId: nat, templateIds: seq<nat>) returns (r: Result<bool, Exception>)
    requires db.Valid()
    modifies db
    ensures db.Valid()
    ensures Accounts.FindOne(old(db.accounts), accountId, userId).Err? ==>
      r == Err(Accounts.FindOne(old(db.accounts), accountId, userId).error) && db.templates == old(db.templates)
    ensures Accounts.FindOne(old(db.accounts), accountId, userId).Ok? ==>
      && db.templates == Reordered(old(db.templates), templateIds, |templateIds|)
      && (r.Ok? <==> forall k :: 0 <= k < |templateIds| ==> templateIds[k] in old(db.templates))
      && (r.Err? ==> r.error == Thrown(MissingRecord))
    ensures db.accounts == old(db.accounts) && db.articles == old(db.articles) && db.results == old(db.results)
    ensures db.nextId == old(db.nextId)
  {
    var owned := Accounts.FindOne(db.accounts, accountId, userId);
    if owned.Err? {
      return Err(owned.error);
    }
    var missing := ApplyOrder(db, templateIds);
    r := if missing then Err(Thrown(MissingRecord)) else Ok(true);
  }

  /** The update loop of `reorder`: every listed id in turn; `missing` tells
      whether some update found no template. */
  method ApplyOrder(db: Database, templateIds: seq<nat>) returns (missing: bool)
    requires db.Valid()
    modifies db
    ensures db.Valid()
    ensures db.templates == Reordered(old(db.templates), templateIds, |templateIds|)
    ensures missing <==> exists k :: 0 <= k < |templateIds| && templateIds[k] !in old(db.templates)
    ensures db.accounts == old(db.accounts) && db.articles == old(db.articles) && db.results == old(db.results)
    ensures db.nextId == old(db.nextId)
  {
    ghost var start := db.templates;
    missing := false;
    for i := 0 to |templateIds|
      invariant db.Valid() && db.accounts == old(db.accounts) && db.articles == old(db.articles)
        && db.results == old(db.results) && db.nextId == old(db.nextId)
      invariant db.templates == Reordered(start, templateIds, i)
      invariant missing <==> SomeMissing(start, templateIds, i)
    {
      SomeMissingStep(start, templateIds, i);
      var found := PlaceTemplate(db, start, templateIds, i);
      missing := missing || !found;
    }
    SomeMissingAll(start, templateIds);
  }

  lemma SomeMissingAll(templates: map<nat, Template>, templateIds: seq<nat>)
    ensures SomeMissing(templates, templateIds, |templateIds|) <==> exists k :: 0 <= k < |templateIds| && templateIds[k] !in templates
  {
  }

  /** Update `n` of `reorder`: the template listed at `n`, when there is one,
      gets position `n`; `found` tells whether there was one. */
  method PlaceTemplate(db: Database, ghost start: map<nat, Template>, templateIds: seq<nat>, n: nat) returns (found: bool)
    requires db.Valid() && n < |templateIds| && db.templates == Reordered(start, templateIds, n)
    modifies db
    ensures db.Valid()
    ensures found == (templateIds[n] in start)
    ensures db.templates == Reordered(start, templateIds, n + 1)
    ensures db.accounts == old(db.accounts) && db.articles == old(db.articles) && db.results == old(db.results)
    ensures db.nextId == old(db.nextId)
  {
    var id := templateIds[n];
    found := id in db.templates;
    if found {
      db.PutTemplate(id, db.templates[id].(sortOrder := n));
    }
  }

  // ---------------------------------------------------------------------------
  // AI-generated fields

  const GenerationFailed := "AI生成失败: "
  const ReplyNotText := "AI响应格式错误"
  const ReplyNotObject := "AI返回格式错误"

  /** The span `/\{[\s\S]*\}/` matches: from the first `{` that has a `}` after
      it to the last `}`. */
  function ObjectSpan(text: string): (r: Option<Claude.Slice>)
    ensures r.Some? ==> r.value.start < r.value.end <= |text| && text[r.value.start] == '{' && text[r.value.end - 1] == '}'
    ensures r.Some? ==> '{' !in text[..r.value.start] && '}' !in text[r.value.end..]
    ensures r.None? <==> forall i, j :: 0 <= i < j < |text| ==> !(text[i] == '{' && text[j] == '}')
  {
    match FirstIndexOf(text, '{')
    case None => None
    case Some(i) =>
      if '}' in text[i + 1..] then
        var k := Claude.LastIndex(text, '}');
        assert k > i by {
          var j :| 0 <= j < |text[i + 1..]| && text[i + 1..][j] == '}';
          assert text[i + 1 + j] == '}';
        }
        Some(Claude.Slice(i, k + 1))
      else
        assert forall a, b :: 0 <= a < b < |text| && text[a] == '{' ==> text[b] != '}' by {
          forall a, b | 0 <= a < b < |text| && text[a] == '{' ensures text[b] != '}' {
            if a >= i {
              assert text[i + 1..][b - i - 1] == text[b];
            }
          }
        }
        None
  }

  /** The index of the first `c` in `text`. */
  function FirstIndexOf(text: string, c: char): (r: Option<nat>)
    ensures r.Some? ==> r.value < |text| && text[r.value] == c && c !in text[..r.value]
    ensures r.None? ==> c !in text
  {
    if text == [] then None
    else if text[0] == c then Some(0)
    else match FirstIndexOf(text[1..], c)
      case None => None
      case Some(k) => assert text[..k + 1] == [text[0]] + text[1..][..k]; Some(k + 1)
  }

  /** What `aiGenerateField` makes of the AI service's reply: the first content
      block must be text holding an object, and the parsed field must not reuse
      an existing field's name. Every failure, the duplicate name included, is
      rethrown as BadRequest with the "AI生成失败: " prefix. */
  function CheckGeneratedField(existing: seq<Claude.Field>, reply: Result<Claude.ContentBlock, string>, parseField: string -> Option<Claude.Field>)
    : (r: Result<Claude.Field, Exception>)
    ensures r.Ok? ==> forall k :: 0 <= k < |existing| ==> existing[k].name != r.value.name
    ensures r.Err? ==> r.error.BadRequest? && GenerationFailed <= r.error.message
    ensures reply.Ok? && reply.value.TextBlock? && ObjectSpan(reply.value.text).Some? ==>
      var sl := ObjectSpan(reply.value.text).value;
      var parsed := parseField(reply.value.text[sl.start..sl.end]);
      parsed.Some? ==>
        ((exists k :: 0 <= k < |existing| && existing[k].name == parsed.value.name) <==>
          r == Err(BadRequest(GenerationFailed + "字段名 " + parsed.value.name + " 已存在,请修改需求重试")))
    ensures r.Ok? <==>
      && reply.Ok? && reply.value.TextBlock? && ObjectSpan(reply.value.text).Some?
      && var sl := ObjectSpan(reply.value.text).value;
         var parsed := parseField(reply.value.text[sl.start..sl.end]);
         && parsed.Some?
         && !(exists k :: 0 <= k < |existing| && existing[k].name == parsed.value.name)
    ensures r.Ok? ==>
      var sl := ObjectSpan(reply.value.text).value;
      r.value == parseField(reply.value.text[sl.start..sl.end]).value
  {
    match reply
    case Err(m) => Err(BadRequest(GenerationFailed + m))
    case Ok(OtherBlock) => Err(BadRequest(GenerationFailed + ReplyNotText))
    case Ok(TextBlock(text)) =>
      match ObjectSpan(text)
      case None => Err(BadRequest(GenerationFailed + ReplyNotObject))
      case Some(sl) =>
        match parseField(text[sl.start..sl.end])
        case None => Err(BadRequest(GenerationFailed + "JSON parse error"))
        case Some(field) =>
          if exists k :: 0 <= k < |existing| && existing[k].name == field.name then
            Err(BadRequest(GenerationFailed + "字段名 " + field.name + " 已存在,请修改需求重试"))
          else Ok(field)
  }
}
