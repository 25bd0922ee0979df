/** The permission hierarchy of accounts, and links from actions to permissions. */
module Permissions {
  import opened Wrappers

  type Account = nat

  type Name = string

  const OWNER := "owner"
  const ACTIVE := "active"
  const ANY := "eosio.any"

  /** `parent` is the identifier of another permission, or 0 for none; `auth` is the authority itself. */
  datatype Permission = Permission(parent: nat, owner: Account, name: Name, auth: nat)

  datatype Level = Level(actor: Account, permission: Name)

  datatype LinkKey = LinkKey(account: Account, code: Account, action: Name)

  /** Permissions by identifier, their index by owner and name, the links, and the existing accounts. */
  datatype Db = Db(permissions: map<nat, Permission>, byOwner: map<Level, nat>, nextId: nat, links: map<LinkKey, Name>,
                   accounts: set<Account>)

  datatype AuthError =
    | EmptyName | ReservedName | OwnParent | NoSuchAccount | InvalidAuthority | ActiveParent | OwnerParent | EmptyParent
    | NoSuchPermission | ParentChanged | DeleteActive | DeleteOwner | StillLinked | HasChildren | SameRequirement
    | NoSuchLink | InvalidName | AccountExists

  datatype Result = Ok(db: Db) | Err(error: AuthError)

  // ----- The operations -----

  function Create(db: Db, owner: Account, name: Name, parent: nat, auth: nat): Db {
    db.(permissions := db.permissions[db.nextId := Permission(parent, owner, name, auth)],
        byOwner := db.byOwner[Level(owner, name) := db.nextId],
        nextId := db.nextId + 1)
  }

  /** A new account gets its owner permission and, below it, its active permission. */
  function NewAccount(db: Db, account: Account, owner: nat, active: nat, validAuth: bool, validName: bool): Result {
    if !validAuth then Err(InvalidAuthority)
    else if !validName then Err(InvalidName)
    else if account in db.accounts then Err(AccountExists)
    else
      var withOwner := Create(db, account, OWNER, 0, owner);
      Ok(Create(withOwner, account, ACTIVE, db.nextId, active).(accounts := db.accounts + {account}))
  }

  /** Creates a permission, or changes the authority of an existing one. */
  function UpdateAuth(db: Db, account: Account, name: Name, parent: Name, auth: nat, validAuth: bool): Result {
    if name == "" then Err(EmptyName)
    else if "ra." <= name then Err(ReservedName)
    else if name == parent then Err(OwnParent)
    else if account !in db.accounts then Err(NoSuchAccount)
    else if !validAuth then Err(InvalidAuthority)
    else if name == ACTIVE && parent != OWNER then Err(ActiveParent)
    else if name == OWNER && parent != "" then Err(OwnerParent)
    else if name != OWNER && parent == "" then Err(EmptyParent)
    else if name != OWNER && Level(account, parent) !in db.byOwner then Err(NoSuchPermission)
    else
      var parentId := if name == OWNER then 0 else db.byOwner[Level(account, parent)];
      if Level(account, name) !in db.byOwner then Ok(Create(db, account, name, parentId, auth))
      else
        var id := db.byOwner[Level(account, name)];
        if id !in db.permissions || db.permissions[id].parent != parentId then Err(ParentChanged)
        else Ok(db.(permissions := db.permissions[id := db.permissions[id].(auth := auth)]))
  }

  predicate LinkedTo(db: Db, account: Account, name: Name) {
    exists key :: key in db.links.Keys && key.account == account && db.links[key] == name
  }

  predicate IsParent(db: Db, id: nat) {
    exists child :: child in db.permissions.Keys && db.permissions[child].parent == id
  }

  function DeleteAuth(db: Db, account: Account, name: Name): Result {
    if name == ACTIVE then Err(DeleteActive)
    else if name == OWNER then Err(DeleteOwner)
    else if LinkedTo(db, account, name) then Err(StillLinked)
    else if Level(account, name) !in db.byOwner then Err(NoSuchPermission)
    else
      var id := db.byOwner[Level(account, name)];
      if IsParent(db, id) then Err(HasChildren)
      else Ok(db.(permissions := db.permissions - {id}, byOwner := db.byOwner - {Level(account, name)}))
  }

  predicate NamedAnywhere(db: Db, name: Name) {
    exists id :: id in db.permissions.Keys && db.permissions[id].name == name
  }

  /** `strict` says that the rule to link only to existing permissions of the account is active; before that,
      a permission of any account with that name was enough. */
  function LinkAuth(db: Db, key: LinkKey, requirement: Name, strict: bool): Result {
    if requirement == "" then Err(EmptyName)
    else if key.account !in db.accounts || key.code !in db.accounts then Err(NoSuchAccount)
    else if requirement != ANY && strict && Level(key.account, requirement) !in db.byOwner then Err(NoSuchPermission)
    else if requirement != ANY && !strict && !NamedAnywhere(db, requirement) then Err(NoSuchPermission)
    else if key in db.links && db.links[key] == requirement then Err(SameRequirement)
    else Ok(db.(links := db.links[key := requirement]))
  }

  function UnlinkAuth(db: Db, key: LinkKey): Result {
    if key !in db.links then Err(NoSuchLink) else Ok(db.(links := db.links - {key}))
  }

  // ----- What every operation keeps -----

  /** A permission is indexed, and is an owner permission without a parent or has an older parent in its account. */
  ghost predicate PermissionOk(db: Db, id: nat) {
    id in db.permissions ==>
      var p := db.permissions[id];
      && 0 < id < db.nextId && p.owner in db.accounts
      && Level(p.owner, p.name) in db.byOwner && db.byOwner[Level(p.owner, p.name)] == id
      && if p.name == OWNER then p.parent == 0
         else p.parent in db.permissions && p.parent < id && db.permissions[p.parent].owner == p.owner
  }

  ghost predicate IndexOk(db: Db, level: Level) {
    level in db.byOwner ==>
      var id := db.byOwner[level];
      id in db.permissions && db.permissions[id].owner == level.actor && db.permissions[id].name == level.permission
  }

  /** An account has an owner permission, and an active one directly below it. */
  ghost predicate AccountOk(db: Db, account: Account) {
    account in db.accounts ==>
      && Level(account, OWNER) in db.byOwner && Level(account, ACTIVE) in db.byOwner
      && db.byOwner[Level(account, ACTIVE)] in db.permissions
      && db.permissions[db.byOwner[Level(account, ACTIVE)]].parent == db.byOwner[Level(account, OWNER)]
  }

  /** A link names a permission of its account, or the marker that any permission will do. */
  ghost predicate LinkOk(db: Db, key: LinkKey) {
    key in db.links ==> db.links[key] == ANY || Level(key.account, db.links[key]) in db.byOwner
  }

  ghost predicate Tree(db: Db) {
    && 0 < db.nextId
    && (forall id :: PermissionOk(db, id)) && (forall level :: IndexOk(db, level)) && (forall a :: AccountOk(db, a))
  }

  ghost predicate LinksOk(db: Db) {
    forall key :: LinkOk(db, key)
  }

  /** No sound link becomes loose. */
  ghost predicate LinksKept(a: Db, b: Db) {
    forall key :: LinkOk(a, key) ==> LinkOk(b, key)
  }

  /** Identifiers are not used again, and permissions keep their owner, name and parent for as long as they exist. */
  ghost predicate ParentsKept(a: Db, b: Db) {
    a.nextId <= b.nextId && forall id :: ParentKept(a, b, id)
  }

  ghost predicate ParentKept(a: Db, b: Db, id: nat) {
    id < a.nextId && id in b.permissions ==>
      id in a.permissions && b.permissions[id] == a.permissions[id].(auth := b.permissions[id].auth)
  }

  lemma ParentsKeptTrans(a: Db, b: Db, c: Db)
    requires ParentsKept(a, b) && ParentsKept(b, c)
    ensures ParentsKept(a, c)
  {
    forall id ensures ParentKept(a, c, id) { assert ParentKept(a, b, id) && ParentKept(b, c, id); }
  }

  lemma CreateKeepsTree(db: Db, owner: Account, name: Name, parent: nat, auth: nat)
    requires Tree(db) && owner in db.accounts && Level(owner, name) !in db.byOwner && name != OWNER
    requires parent in db.permissions && db.permissions[parent].owner == owner
    ensures Tree(Create(db, owner, name, parent, auth)) && ParentsKept(db, Create(db, owner, name, parent, auth))
  {
    var r := Create(db, owner, name, parent, auth);
    assert PermissionOk(db, db.nextId) && PermissionOk(db, parent);
    forall id ensures PermissionOk(r, id) && ParentKept(db, r, id) { assert PermissionOk(db, id); }
    forall level ensures IndexOk(r, level) { assert IndexOk(db, level); }
    forall a ensures AccountOk(r, a) { assert AccountOk(db, a); }
  }

  lemma NewAccountKeepsTree(db: Db, account: Account, owner: nat, active: nat)
    requires Tree(db) && account !in db.accounts
    ensures var r := NewAccount(db, account, owner, active, true, true).db;
            Tree(r) && ParentsKept(db, r) && LinksKept(db, r)
  {
    var r, n := NewAccount(db, account, owner, active, true, true).db, db.nextId;
    var o, a := Permission(0, account, OWNER, owner), Permission(n, account, ACTIVE, active);
    assert r.permissions == db.permissions[n := o][n + 1 := a];
    assert PermissionOk(db, n) && PermissionOk(db, n + 1);
    forall id ensures PermissionOk(r, id) && ParentKept(db, r, id) { assert PermissionOk(db, id); }
    forall level ensures IndexOk(r, level) { assert IndexOk(db, level); }
    forall a ensures AccountOk(r, a) { assert AccountOk(db, a); }
  }

  lemma ModifyKeepsTree(db: Db, id: nat, auth: nat)
    requires Tree(db) && id in db.permissions
    ensures var r := db.(permissions := db.permissions[id := db.permissions[id].(auth := auth)]);
            Tree(r) && ParentsKept(db, r)
  {
    var r := db.(permissions := db.permissions[id := db.permissions[id].(auth := auth)]);
    forall i ensures PermissionOk(r, i) && ParentKept(db, r, i) { assert PermissionOk(db, i); }
    forall level ensures IndexOk(r, level) { assert IndexOk(db, level); }
    forall a ensures AccountOk(r, a) { assert AccountOk(db, a); }
  }

  lemma UpdateKeepsTree(db: Db, account: Account, name: Name, parent: Name, auth: nat, validAuth: bool)
    requires Tree(db) && UpdateAuth(db, account, name, parent, auth, validAuth).Ok?
    ensures var r := UpdateAuth(db, account, name, parent, auth, validAuth).db;
            Tree(r) && ParentsKept(db, r) && LinksKept(db, r)
  {
    assert AccountOk(db, account) && IndexOk(db, Level(account, parent));
    if Level(account, name) !in db.byOwner {
      CreateKeepsTree(db, account, name, db.byOwner[Level(account, parent)], auth);
    } else {
      ModifyKeepsTree(db, db.byOwner[Level(account, name)], auth);
    }
  }

  lemma DeleteKeepsTree(db: Db, account: Account, name: Name)
    requires Tree(db) && DeleteAuth(db, account, name).Ok?
    ensures var r := DeleteAuth(db, account, name).db; Tree(r) && ParentsKept(db, r) && LinksKept(db, r)
  {
    var r, id := DeleteAuth(db, account, name).db, db.byOwner[Level(account, name)];
    assert IndexOk(db, Level(account, name));
    forall i ensures PermissionOk(r, i) && ParentKept(db, r, i) { assert PermissionOk(db, i); }
    forall level ensures IndexOk(r, level) {
      assert IndexOk(db, level);
      if level in db.byOwner && db.byOwner[level] == id { assert level == Level(account, name); }
    }
    forall a ensures AccountOk(r, a) {
      assert AccountOk(db, a);
      if a in db.accounts { assert IndexOk(db, Level(a, ACTIVE)) && IndexOk(db, Level(a, OWNER)); }
    }
  }

  /** A link may be to a permission that the account does not have only while the rule is inactive: a link keeps
      the links sound exactly when it is to the marker or to a permission of the account. */
  lemma LinkKeepsLinks(db: Db, key: LinkKey, requirement: Name, strict: bool)
    requires LinkAuth(db, key, requirement, strict).Ok?
    ensures LinkOk(LinkAuth(db, key, requirement, strict).db, key) <==>
              requirement == ANY || Level(key.account, requirement) in db.byOwner
    ensures strict ==> LinkOk(LinkAuth(db, key, requirement, strict).db, key)
    ensures forall k :: k != key ==> (LinkOk(LinkAuth(db, key, requirement, strict).db, k) <==> LinkOk(db, k))
  {
  }

  /** Without the rule, an account can link an action to a permission that only another account has. */
  lemma LooseLink() returns (db: Db, key: LinkKey)
    ensures Tree(db) && LinksOk(db)
    ensures LinkAuth(db, key, "p", false).Ok? && !LinksOk(LinkAuth(db, key, "p", false).db)
  {
    StartsEmpty();
    assert forall key :: LinkOk(EMPTY, key);
    var one := NewAccount(EMPTY, 1, 0, 0, true, true).db;
    NewAccountKeepsTree(EMPTY, 1, 0, 0);
    var two := NewAccount(one, 2, 0, 0, true, true).db;
    NewAccountKeepsTree(one, 2, 0, 0);
    db := UpdateAuth(two, 1, "p", ACTIVE, 0, true).db;
    UpdateKeepsTree(two, 1, "p", ACTIVE, 0, true);
    key := LinkKey(2, 1, "");
    assert db.permissions[5].name == "p";
    LinkKeepsLinks(db, key, "p", false);
    forall k ensures LinkOk(db, k) { assert LinkOk(EMPTY, k) && LinkOk(one, k) && LinkOk(two, k); }
  }

  lemma SameTree(db: Db, r: Db)
    requires Tree(db) && r == db.(links := r.links)
    ensures Tree(r) && ParentsKept(db, r)
  {
    forall i ensures PermissionOk(r, i) && ParentKept(db, r, i) { assert PermissionOk(db, i); }
    forall level ensures IndexOk(r, level) { assert IndexOk(db, level); }
    forall a ensures AccountOk(r, a) { assert AccountOk(db, a); }
  }

  // ----- Every sequence of operations -----

  datatype Op =
    | OpNewAccount(account: Account, owner: nat, active: nat, validAuth: bool, validName: bool)
    | OpUpdate(account: Account, name: Name, parent: Name, auth: nat, validAuth: bool)
    | OpDelete(account: Account, name: Name)
    | OpLink(key: LinkKey, requirement: Name, strict: bool)
    | OpUnlink(key: LinkKey)

  function Try(db: Db, op: Op): Result {
    match op
    case OpNewAccount(a, o, v, valid, named) => NewAccount(db, a, o, v, valid, named)
    case OpUpdate(a, n, p, v, valid) => UpdateAuth(db, a, n, p, v, valid)
    case OpDelete(a, n) => DeleteAuth(db, a, n)
    case OpLink(k, r, strict) => LinkAuth(db, k, r, strict)
    case OpUnlink(k) => UnlinkAuth(db, k)
  }

  /** A refused operation changes nothing. */
  function Apply(db: Db, op: Op): Db { if Try(db, op).Ok? then Try(db, op).db else db }

  function RunOps(db: Db, ops: seq<Op>): Db
    decreases |ops|
  {
    if ops == [] then db else RunOps(Apply(db, ops[0]), ops[1..])
  }

  const EMPTY := Db(map[], map[], 1, map[], {})

  /** The operation links `key` to a permission that the account does not have. */
  predicate LinksLoosely(db: Db, op: Op, key: LinkKey) {
    && op.OpLink? && op.key == key && Try(db, op).Ok?
    && op.requirement != ANY && Level(key.account, op.requirement) !in db.byOwner
  }

  /** No operation of the run does that. */
  predicate NeverLoose(db: Db, ops: seq<Op>, key: LinkKey)
    decreases |ops|
  {
    ops == [] || (!LinksLoosely(db, ops[0], key) && NeverLoose(Apply(db, ops[0]), ops[1..], key))
  }

  lemma ApplyKeeps(db: Db, op: Op)
    requires Tree(db)
    ensures Tree(Apply(db, op)) && ParentsKept(db, Apply(db, op))
    ensures forall key :: LinkOk(db, key) && !LinksLoosely(db, op, key) ==> LinkOk(Apply(db, op), key)
  {
    if Try(db, op).Ok? {
      match op
      case OpNewAccount(a, o, v, _, _) => NewAccountKeepsTree(db, a, o, v);
      case OpUpdate(a, n, p, v, valid) => UpdateKeepsTree(db, a, n, p, v, valid);
      case OpDelete(a, n) => DeleteKeepsTree(db, a, n);
      case OpLink(k, r, strict) =>
        SameTree(db, LinkAuth(db, k, r, strict).db);
        LinkKeepsLinks(db, k, r, strict);
      case OpUnlink(k) => SameTree(db, UnlinkAuth(db, k).db);
    } else {
      SameTree(db, db);
    }
  }

  /** After any operations the permissions still form trees with unchanged parents, and every sound link that
      was not replaced by a loose one is sound. */
  lemma {:induction false} RunKeeps(db: Db, ops: seq<Op>)
    requires Tree(db)
    ensures Tree(RunOps(db, ops)) && ParentsKept(db, RunOps(db, ops))
    ensures forall key :: LinkOk(db, key) && NeverLoose(db, ops, key) ==> LinkOk(RunOps(db, ops), key)
    decreases |ops|
  {
    if ops == [] {
      SameTree(db, db);
    } else {
      var next := Apply(db, ops[0]);
      ApplyKeeps(db, ops[0]);
      RunKeeps(next, ops[1..]);
      ParentsKeptTrans(db, next, RunOps(db, ops));
      forall key | LinkOk(db, key) && NeverLoose(db, ops, key) ensures LinkOk(RunOps(db, ops), key)
      { assert LinkOk(next, key); }
    }
  }

  predicate Strict(op: Op) { op.OpLink? ==> op.strict }

  lemma {:induction false} StrictNeverLoose(db: Db, ops: seq<Op>, key: LinkKey)
    requires forall op :: op in ops ==> Strict(op)
    ensures NeverLoose(db, ops, key)
    decreases |ops|
  {
    if ops != [] {
      assert ops[0] in ops;
      StrictNeverLoose(Apply(db, ops[0]), ops[1..], key);
    }
  }

  /** Once the rule is active, links that are sound stay sound. */
  lemma StrictRunKeepsLinks(db: Db, ops: seq<Op>, key: LinkKey)
    requires Tree(db) && LinkOk(db, key) && forall op :: op in ops ==> Strict(op)
    ensures LinkOk(RunOps(db, ops), key)
  {
    StrictNeverLoose(db, ops, key);
    RunKeeps(db, ops);
  }

  lemma StartsEmpty()
    ensures Tree(EMPTY) && LinksOk(EMPTY)
  {
    forall id ensures PermissionOk(EMPTY, id) { }
    forall level ensures IndexOk(EMPTY, level) { }
    forall a ensures AccountOk(EMPTY, a) { }
    forall key ensures LinkOk(EMPTY, key) { }
  }

  // ----- Who may act for whom -----

  /** `a` is `b` or one of its ancestors. */
  predicate Above(db: Db, a: nat, b: nat)
    decreases b
  {
    a == b || (b in db.permissions && 0 < db.permissions[b].parent < b && Above(db, a, db.permissions[b].parent))
  }

  lemma {:induction false} AboveFacts(db: Db, a: nat, b: nat)
    requires Tree(db) && b in db.permissions && Above(db, a, b)
    ensures a in db.permissions && db.permissions[a].owner == db.permissions[b].owner && a <= b
    decreases b
  {
    assert PermissionOk(db, b);
    if a != b { AboveFacts(db, a, db.permissions[b].parent); }
  }

  lemma {:induction false} AboveTrans(db: Db, a: nat, b: nat, c: nat)
    requires Above(db, a, b) && Above(db, b, c)
    ensures Above(db, a, c)
    decreases c
  {
    if b != c { AboveTrans(db, a, b, db.permissions[c].parent); }
  }

  /** Every permission hangs below the owner permission of its account. */
  lemma {:induction false} OwnerIsRoot(db: Db, id: nat)
    requires Tree(db) && id in db.permissions
    ensures Level(db.permissions[id].owner, OWNER) in db.byOwner
    ensures Above(db, db.byOwner[Level(db.permissions[id].owner, OWNER)], id)
    decreases id
  {
    assert PermissionOk(db, id);
    var p := db.permissions[id];
    if p.name != OWNER {
      assert PermissionOk(db, p.parent);
      OwnerIsRoot(db, p.parent);
    }
  }

  /** The permission an action needs: that of the link for the action, else of the link for its contract, else
      active; nothing if the link is to the marker. */
  function Minimum(db: Db, account: Account, code: Account, action: Name): Option<Name> {
    var exact, wide := LinkKey(account, code, action), LinkKey(account, code, "");
    var linked := if exact in db.links then Some(db.links[exact]) else if wide in db.links then Some(db.links[wide])
                  else None;
    if linked.None? then Some(ACTIVE) else if linked.value == ANY then None else linked
  }

  ghost predicate Sufficient(db: Db, id: nat, account: Account, code: Account, action: Name) {
    var needed := Minimum(db, account, code, action);
    needed.None? || (Level(account, needed.value) in db.byOwner
                     && Above(db, id, db.byOwner[Level(account, needed.value)]))
  }

  /** The needed permission exists, and whatever is above a sufficient permission is sufficient too, up to owner. */
  lemma SufficiencyGoesUp(db: Db, a: nat, b: nat, account: Account, code: Account, action: Name)
    requires Tree(db) && account in db.accounts && LinkOk(db, LinkKey(account, code, action))
             && LinkOk(db, LinkKey(account, code, ""))
    ensures var needed := Minimum(db, account, code, action); needed.Some? ==>
            Level(account, needed.value) in db.byOwner
    ensures Above(db, a, b) && Sufficient(db, b, account, code, action) ==> Sufficient(db, a, account, code, action)
    ensures Level(account, OWNER) in db.byOwner
            && Sufficient(db, db.byOwner[Level(account, OWNER)], account, code, action)
  {
    assert AccountOk(db, account);
    var needed := Minimum(db, account, code, action);
    if needed.Some? {
      var id := db.byOwner[Level(account, needed.value)];
      assert IndexOk(db, Level(account, needed.value));
      OwnerIsRoot(db, id);
      if Above(db, a, b) && Above(db, b, id) { AboveTrans(db, a, b, id); }
    }
  }

  // ----- The manager object -----

  /** How an operation on the object ends: with the new tables, or with the error and the tables as they were. */
  ghost predicate Answers(e: Option<AuthError>, r: Result, before: Db, after: Db) {
    match r case Ok(db) => e.None? && after == db case Err(error) => e == Some(error) && after == before
  }

  class AuthorizationManager {
    var permissions: map<nat, Permission>
    var byOwner: map<Level, nat>
    var nextId: nat
    var links: map<LinkKey, Name>
    var accounts: set<Account>

    function Value(): Db
      reads this
    {
      Db(permissions, byOwner, nextId, links, accounts)
    }

    constructor ()
      ensures Value() == EMPTY
    {
      permissions, byOwner, nextId, links, accounts := map[], map[], 1, map[], {};
    }

    method CreatePermission(owner: Account, name: Name, parent: nat, auth: nat) returns (id: nat)
      modifies this
      ensures Value() == Create(old(Value()), owner, name, parent, auth) && id == old(nextId)
    {
      id := nextId;
      permissions := permissions[id := Permission(parent, owner, name, auth)];
      byOwner := byOwner[Level(owner, name) := id];
      nextId := nextId + 1;
    }

    method CreateAccount(account: Account, owner: nat, active: nat, validAuth: bool, validName: bool)
        returns (e: Option<AuthError>)
      modifies this
      ensures Answers(e, NewAccount(old(Value()), account, owner, active, validAuth, validName), old(Value()), Value())
    {
      if !validAuth { return Some(InvalidAuthority); }
      if !validName { return Some(InvalidName); }
      if account in accounts { return Some(AccountExists); }
      accounts := accounts + {account};
      var id := CreatePermission(account, OWNER, 0, owner);
      var _ := CreatePermission(account, ACTIVE, id, active);
      return None;
    }

    method UpdateAuthority(account: Account, name: Name, parent: Name, auth: nat, validAuth: bool)
        returns (e: Option<AuthError>)
      requires Tree(Value())
      modifies this
      ensures Answers(e, UpdateAuth(old(Value()), account, name, parent, auth, validAuth), old(Value()), Value())
    {
      if name == "" { return Some(EmptyName); }
      if "ra." <= name { return Some(ReservedName); }
      if name == parent { return Some(OwnParent); }
      if account !in accounts { return Some(NoSuchAccount); }
      if !validAuth { return Some(InvalidAuthority); }
      if name == ACTIVE && parent != OWNER { return Some(ActiveParent); }
      var parentId := 0;
      if name == OWNER {
        if parent != "" { return Some(OwnerParent); }
      } else {
        if parent == "" { return Some(EmptyParent); }
        if Level(account, parent) !in byOwner { return Some(NoSuchPermission); }
        parentId := byOwner[Level(account, parent)];
      }
      if Level(account, name) in byOwner {
        var id := byOwner[Level(account, name)];
        assert IndexOk(Value(), Level(account, name));
        if permissions[id].parent != parentId { return Some(ParentChanged); }
        permissions := permissions[id := permissions[id].(auth := auth)];
      } else {
        var _ := CreatePermission(account, name, parentId, auth);
      }
      return None;
    }

    method DeleteAuthority(account: Account, name: Name) returns (e: Option<AuthError>)
      modifies this
      ensures Answers(e, DeleteAuth(old(Value()), account, name), old(Value()), Value())
    {
      if name == ACTIVE { return Some(DeleteActive); }
      if name == OWNER { return Some(DeleteOwner); }
      if LinkedTo(Value(), account, name) { return Some(StillLinked); }
      if Level(account, name) !in byOwner { return Some(NoSuchPermission); }
      var id := byOwner[Level(account, name)];
      if IsParent(Value(), id) { return Some(HasChildren); }
      permissions, byOwner := permissions - {id}, byOwner - {Level(account, name)};
      return None;
    }

    method LinkAuthority(key: LinkKey, requirement: Name, strict: bool) returns (e: Option<AuthError>)
      modifies this
      ensures Answers(e, LinkAuth(old(Value()), key, requirement, strict), old(Value()), Value())
    {
      if requirement == "" { return Some(EmptyName); }
      if key.account !in accounts || key.code !in accounts { return Some(NoSuchAccount); }
      if requirement != ANY {
        var found := if strict then Level(key.account, requirement) in byOwner else NamedAnywhere(Value(), requirement);
        if !found { return Some(NoSuchPermission); }
      }
      if key in links && links[key] == requirement { return Some(SameRequirement); }
      links := links[key := requirement];
      return None;
    }

    method UnlinkAuthority(key: LinkKey) returns (e: Option<AuthError>)
      modifies this
      ensures Answers(e, UnlinkAuth(old(Value()), key), old(Value()), Value())
    {
      if key !in links { return Some(NoSuchLink); }
      links := links - {key};
      return None;
    }

    /** Walks up from `other`'s parent looking for `id`. */
    method Satisfies(id: nat, other: nat) returns (r: bool)
      requires Tree(Value()) && id in permissions && other in permissions
      ensures r == Above(Value(), id, other)
    {
      assert PermissionOk(Value(), id) && PermissionOk(Value(), other);
      if permissions[id].owner != permissions[other].owner {
        if Above(Value(), id, other) { AboveFacts(Value(), id, other); }
        return false;
      }
      if id == other || id == permissions[other].parent { return true; }
      var current := permissions[other].parent;
      if current == 0 { return false; }
      while true
        invariant current in permissions && 0 < current && id != current
        invariant Above(Value(), id, other) == Above(Value(), id, current)
        decreases current
      {
        assert PermissionOk(Value(), current);
        var next := permissions[current].parent;
        if id == next { return true; }
        if next == 0 { return false; }
        current := next;
      }
      return false;
    }
  }
}
