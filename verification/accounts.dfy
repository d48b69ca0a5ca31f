/**
 * The official-account service (backend/src/accounts/accounts.service.ts):
 * the ownership gate `findOne` that every other service calls before touching a
 * user's data, and the account rows' create, list, update and soft delete.
 */
module Accounts {
  import opened Common
  import opened Store

  const AccountMissing := "公众号不存在"
  const AccountForbidden := "无权访问该公众号"

  /** `findOne(id, userId)`: a missing account is NotFound, somebody else's
      account is Forbidden, and only the owner gets the account. An inactive
      account is still found. */
  function FindOne(accounts: map<nat, Account>, id: nat, userId: nat): (r: Result<Account, Exception>)
    ensures r.Ok? <==> id in accounts && accounts[id].userId == userId
    ensures r.Ok? ==> r.value == accounts[id]
    ensures r == Err(NotFound(AccountMissing)) <==> id !in accounts
    ensures r == Err(Forbidden(AccountForbidden)) <==> id in accounts && accounts[id].userId != userId
  {
    if id !in accounts then Err(NotFound(AccountMissing))
    else if accounts[id].userId != userId then Err(Forbidden(AccountForbidden))
    else Ok(accounts[id])
  }

  /** The body of a create request; an absent member is "" (JSON null for the
      reserved fields). The request types are interfaces, so the global
      validation pipe checks nothing and strips nothing: a body may also carry
      the row's `userId` and `isActive` columns, and the spread writes them. */
  datatype NewAccount = NewAccount(
    name: string,
    description: string,
    avatarUrl: string,
    wechatId: string,
    biz: string,
    reservedFields: Json,
    userId: Option<nat>,
    isActive: Option<bool>)

  /** The body of an update request: only the members present are written. As
      with creation, a body may also carry `userId`, and it is written too. */
  datatype AccountPatch = AccountPatch(
    name: Option<string>,
    description: Option<string>,
    avatarUrl: Option<string>,
    wechatId: Option<string>,
    biz: Option<string>,
    reservedFields: Option<Json>,
    isActive: Option<bool>,
    userId: Option<nat>)

  function Pick<T>(patch: Option<T>, current: T): T
  {
    if patch.Some? then patch.value else current
  }

  /** The account `create` stores: the caller owns it and it is active, unless
      the body says otherwise, because the body is spread after those. */
  function NewRow(userId: nat, dto: NewAccount): (r: Account)
    ensures r.userId == (if dto.userId.Some? then dto.userId.value else userId)
    ensures r.isActive == (dto.isActive.None? || dto.isActive.value)
    ensures r.name == dto.name && r.description == dto.description && r.avatarUrl == dto.avatarUrl
    ensures r.wechatId == dto.wechatId && r.biz == dto.biz && r.reservedFields == dto.reservedFields
  {
    Account(Pick(dto.userId, userId), dto.name, dto.description, dto.avatarUrl, dto.wechatId, dto.biz,
      dto.reservedFields, Pick(dto.isActive, true))
  }

  /** Writing an update request onto an account: a member that is present
      replaces the column and an absent one leaves it. The owner is one of those
      columns: it changes exactly when the body names one. */
  function ApplyPatch(a: Account, patch: AccountPatch): (r: Account)
    ensures patch.userId.Some? ==> r.userId == patch.userId.value
    ensures patch.userId.None? ==> r.userId == a.userId
    ensures patch.name.Some? ==> r.name == patch.name.value
    ensures patch.name.None? ==> r.name == a.name
    ensures patch.description.Some? ==> r.description == patch.description.value
    ensures patch.description.None? ==> r.description == a.description
    ensures patch.avatarUrl.Some? ==> r.avatarUrl == patch.avatarUrl.value
    ensures patch.avatarUrl.None? ==> r.avatarUrl == a.avatarUrl
    ensures patch.wechatId.Some? ==> r.wechatId == patch.wechatId.value
    ensures patch.wechatId.None? ==> r.wechatId == a.wechatId
    ensures patch.biz.Some? ==> r.biz == patch.biz.value
    ensures patch.biz.None? ==> r.biz == a.biz
    ensures patch.reservedFields.Some? ==> r.reservedFields == patch.reservedFields.value
    ensures patch.reservedFields.None? ==> r.reservedFields == a.reservedFields
    ensures patch.isActive.Some? ==> r.isActive == patch.isActive.value
    ensures patch.isActive.None? ==> r.isActive == a.isActive
    ensures patch == AccountPatch(None, None, None, None, None, None, None, None) ==> r == a
  {
    Account(
      Pick(patch.userId, a.userId),
      Pick(patch.name, a.name),
      Pick(patch.description, a.description),
      Pick(patch.avatarUrl, a.avatarUrl),
      Pick(patch.wechatId, a.wechatId),
      Pick(patch.biz, a.biz),
      Pick(patch.reservedFields, a.reservedFields),
      Pick(patch.isActive, a.isActive))
  }

  /** `findAll(userId)`: the caller's active accounts, newest first. */
  function FindAll(accounts: map<nat, Account>, bound: nat, userId: nat): (ids: seq<nat>)
    ensures forall k :: 0 <= k < |ids| ==> ids[k] in accounts && accounts[ids[k]].userId == userId && accounts[ids[k]].isActive
    ensures forall id :: id < bound && id in accounts && accounts[id].userId == userId && accounts[id].isActive ==> id in ids
    ensures forall j, k :: 0 <= j < k < |ids| ==> ids[j] > ids[k]
  {
    NewestFirst(accounts, (a: Account) => a.userId == userId && a.isActive, bound)
  }

  /** `create(userId, dto)`: one new account, stored as `NewRow` builds it. */
  method Create(db: Database, userId: nat, dto: NewAccount) returns (id: nat)
    requires db.Valid()
    modifies db
    ensures db.Valid()
    ensures id !in old(db.accounts)
    ensures db.accounts == old(db.accounts)[id := NewRow(userId, dto)]
    ensures db.articles == old(db.articles) && db.templates == old(db.templates) && db.results == old(db.results)
  {
    id := db.NewId();
    db.accounts := db.accounts[id := NewRow(userId, dto)];
  }

  /** `update(id, userId, dto)`: the ownership gate first; a caller who does not
      own the account changes nothing. */
  method Update(db: Database, id: nat, userId: nat, patch: AccountPatch) returns (r: Result<Account, Exception>)
    requires db.Valid()
    modifies db
    ensures db.Valid()
    ensures FindOne(old(db.accounts), id, userId).Err? ==>
      r == Err(FindOne(old(db.accounts), id, userId).error) && db.accounts == old(db.accounts)
    ensures FindOne(old(db.accounts), id, userId).Ok? ==>
      r == Ok(ApplyPatch(old(db.accounts)[id], patch)) && db.accounts == old(db.accounts)[id := r.value]
    ensures db.articles == old(db.articles) && db.templates == old(db.templates) && db.results == old(db.results)
    ensures db.nextId == old(db.nextId)
  {
    var owned := FindOne(db.accounts, id, userId);
    if owned.Err? {
      return Err(owned.error);
    }
    var updated := ApplyPatch(owned.value, patch);
    db.accounts := db.accounts[id := updated];
    r := Ok(updated);
  }

  /** `remove(id, userId)`: the ownership gate first, then a soft delete that
      only clears `isActive`. */
  method Remove(db: Database, id: nat, userId: nat) returns (r: Result<Account, Exception>)
    requires db.Valid()
    modifies db
    ensures db.Valid()
    ensures FindOne(old(db.accounts), id, userId).Err? ==>
      r == Err(FindOne(old(db.accounts), id, userId).error) && db.accounts == old(db.accounts)
    ensures FindOne(old(db.accounts), id, userId).Ok? ==>
      r == Ok(old(db.accounts)[id].(isActive := false)) && db.accounts == old(db.accounts)[id := r.value]
    ensures db.articles == old(db.articles) && db.templates == old(db.templates) && db.results == old(db.results)
    ensures db.nextId == old(db.nextId)
  {
    var owned := FindOne(db.accounts, id, userId);
    if owned.Err? {
      return Err(owned.error);
    }
    var removed := owned.value.(isActive := false);
    db.accounts := db.accounts[id := removed];
    r := Ok(removed);
  }

  /** Who reaches a new account: its creator passes the ownership gate unless
      the body named another owner, and whoever the body named passes it. */
  lemma CreatedAccountOwner(accounts: map<nat, Account>, id: nat, userId: nat, dto: NewAccount)
    requires id !in accounts
    ensures var after := accounts[id := NewRow(userId, dto)];
      && (FindOne(after, id, userId).Ok? <==> dto.userId.None? || dto.userId.value == userId)
      && (dto.userId.Some? ==> FindOne(after, id, dto.userId.value).Ok?)
  {
  }

  /** An update that names an owner hands the account over: the caller keeps
      access exactly when the body names no owner or names the caller, and the
      named owner gains access. */
  lemma UpdateHandsOver(accounts: map<nat, Account>, id: nat, userId: nat, patch: AccountPatch)
    requires FindOne(accounts, id, userId).Ok?
    ensures var after := accounts[id := ApplyPatch(accounts[id], patch)];
      && (FindOne(after, id, userId).Ok? <==> patch.userId.None? || patch.userId.value == userId)
      && (patch.userId.Some? ==> FindOne(after, id, patch.userId.value).Ok?)
  {
  }

  /** A removed account drops out of its owner's list, yet the ownership gate
      still lets its owner reach it: the delete is soft. */
  lemma RemovedAccountIsHiddenNotGone(accounts: map<nat, Account>, bound: nat, id: nat, userId: nat)
    requires FindOne(accounts, id, userId).Ok?
    ensures var after := accounts[id := accounts[id].(isActive := false)];
      id !in FindAll(after, bound, userId) && FindOne(after, id, userId).Ok?
  {
  }

  /** Listing is a view of the gate: every account the list shows is one the
      gate lets the caller reach. */
  lemma ListedAccountsPassTheGate(accounts: map<nat, Account>, bound: nat, userId: nat)
    ensures forall k :: 0 <= k < |FindAll(accounts, bound, userId)| ==>
      FindOne(accounts, FindAll(accounts, bound, userId)[k], userId).Ok?
  {
  }
}
