/** What each permission operation accepts and what it leaves behind, and how the operations undo each other. */
module PermissionEffects {
  import opened Wrappers
  import opened Permissions

  // ----- Permissions by name, read off the table itself -----

  ghost predicate IsNamed(db: Db, id: nat, account: Account, name: Name) {
    id in db.permissions && db.permissions[id].owner == account && db.permissions[id].name == name
  }

  ghost predicate Has(db: Db, account: Account, name: Name) {
    exists id :: IsNamed(db, id, account, name)
  }

  /** The account has both permissions, and `parent` is the parent of `name`. */
  ghost predicate HangsUnder(db: Db, account: Account, name: Name, parent: Name) {
    exists id :: IsNamed(db, id, account, name) && IsNamed(db, db.permissions[id].parent, account, parent)
  }

  /** The index finds exactly the permission of that name. */
  lemma IndexIsTable(db: Db, account: Account, name: Name)
    requires Tree(db)
    ensures Has(db, account, name) <==> Level(account, name) in db.byOwner
    ensures forall id :: IsNamed(db, id, account, name) <==>
              Level(account, name) in db.byOwner && db.byOwner[Level(account, name)] == id
  {
    assert IndexOk(db, Level(account, name));
    forall id ensures IsNamed(db, id, account, name) <==>
                        Level(account, name) in db.byOwner && db.byOwner[Level(account, name)] == id
    {
      assert PermissionOk(db, id);
    }
    if Level(account, name) in db.byOwner { assert IsNamed(db, db.byOwner[Level(account, name)], account, name); }
  }

  /** Apart from one permission and its index entry, nothing changed. */
  ghost predicate OnlyAt(a: Db, b: Db, id: nat, level: Level) {
    && b.links == a.links && b.accounts == a.accounts
    && (forall i :: i != id ==> SameAt(a.permissions, b.permissions, i))
    && (forall l :: l != level ==> SameAt(a.byOwner, b.byOwner, l))
  }

  ghost predicate SameAt<K, V>(a: map<K, V>, b: map<K, V>, k: K) {
    (k in a <==> k in b) && (k in a ==> a[k] == b[k])
  }

  // ----- Creating and changing -----

  /** Accepted are a valid authority under a proper name for the owner permission, or for another one under an
      existing parent, which has to be its present one if it exists. */
  ghost predicate MayUpdate(db: Db, account: Account, name: Name, parent: Name, validAuth: bool) {
    && account in db.accounts && validAuth && name != "" && !("ra." <= name)
    && if name == OWNER then parent == ""
       else && parent != "" && parent != name && (name == ACTIVE ==> parent == OWNER)
            && Has(db, account, parent) && (Has(db, account, name) ==> HangsUnder(db, account, name, parent))
  }

  lemma UpdateIff(db: Db, account: Account, name: Name, parent: Name, auth: nat, validAuth: bool)
    requires Tree(db)
    ensures UpdateAuth(db, account, name, parent, auth, validAuth).Ok? <==>
              MayUpdate(db, account, name, parent, validAuth)
  {
    IndexIsTable(db, account, name);
    IndexIsTable(db, account, parent);
    assert AccountOk(db, account);
    if Has(db, account, name) {
      var id := db.byOwner[Level(account, name)];
      assert PermissionOk(db, id) && IsNamed(db, id, account, name);
    }
  }

  /** The permission `id` of that name has the authority, and the parent of that name or none. */
  ghost predicate Stands(db: Db, id: nat, account: Account, name: Name, parent: Name, auth: nat) {
    && IsNamed(db, id, account, name) && db.permissions[id].auth == auth
    && Level(account, name) in db.byOwner && db.byOwner[Level(account, name)] == id
    && if name == OWNER then db.permissions[id].parent == 0
       else IsNamed(db, db.permissions[id].parent, account, parent)
  }

  /** An accepted update leaves exactly the authority given under exactly the parent given, in the old permission or
      a fresh one, and touches nothing else. */
  lemma UpdateIs(db: Db, account: Account, name: Name, parent: Name, auth: nat) returns (id: nat)
    requires Tree(db) && MayUpdate(db, account, name, parent, true)
    ensures UpdateAuth(db, account, name, parent, auth, true).Ok?
    ensures var r := UpdateAuth(db, account, name, parent, auth, true).db;
            && Stands(r, id, account, name, parent, auth) && OnlyAt(db, r, id, Level(account, name))
            && if Has(db, account, name) then IsNamed(db, id, account, name) && r.nextId == db.nextId
               else id !in db.permissions && db.nextId <= id < r.nextId
  {
    UpdateIff(db, account, name, parent, auth, true);
    IndexIsTable(db, account, name);
    IndexIsTable(db, account, parent);
    assert AccountOk(db, account) && PermissionOk(db, db.nextId);
    id := if Has(db, account, name) then db.byOwner[Level(account, name)] else db.nextId;
    assert PermissionOk(db, id);
  }

  /** A new account has the owner authority at the root and the active authority right below it. */
  lemma NewAccountIs(db: Db, account: Account, owner: nat, active: nat, validAuth: bool, validName: bool)
      returns (o: nat, a: nat)
    requires Tree(db)
    ensures NewAccount(db, account, owner, active, validAuth, validName).Ok? <==>
              validAuth && validName && account !in db.accounts
    ensures NewAccount(db, account, owner, active, validAuth, validName).Ok? ==>
              var r := NewAccount(db, account, owner, active, validAuth, validName).db;
              && Stands(r, o, account, OWNER, "", owner) && Stands(r, a, account, ACTIVE, OWNER, active)
              && o !in db.permissions && a !in db.permissions && r.accounts == db.accounts + {account}
              && r.links == db.links && (forall i :: i != o && i != a ==> SameAt(db.permissions, r.permissions, i))
              && (forall l :: l != Level(account, OWNER) && l != Level(account, ACTIVE) ==>
                    SameAt(db.byOwner, r.byOwner, l))
  {
    o, a := db.nextId, db.nextId + 1;
    assert PermissionOk(db, o) && PermissionOk(db, a);
  }

  // ----- Deleting -----

  /** Accepted is a permission other than owner and active that nothing is linked to and nothing hangs under. */
  ghost predicate MayDelete(db: Db, account: Account, name: Name) {
    && name != OWNER && name != ACTIVE && Has(db, account, name)
    && (forall key :: key in db.links && key.account == account ==> db.links[key] != name)
    && (forall child :: !HangsUnder(db, account, child, name))
  }

  lemma DeleteIff(db: Db, account: Account, name: Name)
    requires Tree(db)
    ensures DeleteAuth(db, account, name).Ok? <==> MayDelete(db, account, name)
  {
    IndexIsTable(db, account, name);
    if Has(db, account, name) { ChildrenAre(db, account, name, db.byOwner[Level(account, name)]); }
  }

  lemma ChildrenAre(db: Db, account: Account, name: Name, id: nat)
    requires Tree(db) && IsNamed(db, id, account, name)
    ensures IsParent(db, id) <==> exists child :: HangsUnder(db, account, child, name)
  {
    assert PermissionOk(db, id);
    IndexIsTable(db, account, name);
    if IsParent(db, id) {
      var c :| c in db.permissions.Keys && db.permissions[c].parent == id;
      assert PermissionOk(db, c) && IsNamed(db, c, account, db.permissions[c].name);
      assert HangsUnder(db, account, db.permissions[c].name, name);
    }
    if child :| HangsUnder(db, account, child, name) {
      var c :| IsNamed(db, c, account, child) && IsNamed(db, db.permissions[c].parent, account, name);
      assert c in db.permissions.Keys && db.permissions[c].parent == id;
    }
  }

  /** An accepted deletion removes that permission and nothing else. */
  lemma DeleteIs(db: Db, account: Account, name: Name) returns (id: nat)
    requires Tree(db) && MayDelete(db, account, name)
    ensures DeleteAuth(db, account, name).Ok?
    ensures var r := DeleteAuth(db, account, name).db;
            && IsNamed(db, id, account, name) && id !in r.permissions && Level(account, name) !in r.byOwner
            && OnlyAt(db, r, id, Level(account, name)) && r.nextId == db.nextId
  {
    DeleteIff(db, account, name);
    IndexIsTable(db, account, name);
    id := db.byOwner[Level(account, name)];
  }

  /** Deleting a permission that was just created restores everything but the identifiers used up; it is accepted unless
      a link to the name was made before the permission existed. */
  lemma CreateThenDelete(db: Db, account: Account, name: Name, parent: Name, auth: nat)
    requires Tree(db) && MayUpdate(db, account, name, parent, true) && !Has(db, account, name)
    ensures UpdateAuth(db, account, name, parent, auth, true).Ok?
    ensures var r := UpdateAuth(db, account, name, parent, auth, true).db;
            && (DeleteAuth(r, account, name).Ok? <==>
                  forall key :: key in db.links && key.account == account ==> db.links[key] != name)
            && (DeleteAuth(r, account, name).Ok? ==>
                  DeleteAuth(r, account, name).db == db.(nextId := r.nextId))
  {
    var id := UpdateIs(db, account, name, parent, auth);
    UpdateKeepsTree(db, account, name, parent, auth, true);
    var r := UpdateAuth(db, account, name, parent, auth, true).db;
    DeleteIff(r, account, name);
    assert AccountOk(db, account);
    IndexIsTable(db, account, OWNER);
    IndexIsTable(db, account, ACTIVE);
    NewIsLeaf(db, r, account, name, id);
    if DeleteAuth(r, account, name).Ok? {
      var d := DeleteAuth(r, account, name).db;
      var x := DeleteIs(r, account, name);
      IndexIsTable(r, account, name);
      IndexIsTable(db, account, name);
      assert d.permissions == db.permissions && d.byOwner == db.byOwner;
    }
  }

  lemma NewIsLeaf(db: Db, r: Db, account: Account, name: Name, id: nat)
    requires Tree(db) && Tree(r) && OnlyAt(db, r, id, Level(account, name)) && id !in db.permissions
    requires IsNamed(r, id, account, name) && name != OWNER && 0 < id && db.nextId <= id
    ensures forall child :: !HangsUnder(r, account, child, name)
  {
    IndexIsTable(r, account, name);
    forall c | c in r.permissions ensures r.permissions[c].parent != id {
      assert PermissionOk(r, c) && PermissionOk(db, c) && (c != id ==> SameAt(db.permissions, r.permissions, c));
    }
  }

  // ----- Linking -----

  /** Accepted is a link between existing accounts to a permission that is there, or to the marker, and that is not
      what is linked already. */
  ghost predicate MayLink(db: Db, key: LinkKey, requirement: Name, strict: bool) {
    && requirement != "" && key.account in db.accounts && key.code in db.accounts
    && (requirement == ANY || (if strict then Has(db, key.account, requirement)
                               else exists account :: Has(db, account, requirement)))
    && !(key in db.links && db.links[key] == requirement)
  }

  lemma LinkIs(db: Db, key: LinkKey, requirement: Name, strict: bool)
    requires Tree(db)
    ensures LinkAuth(db, key, requirement, strict).Ok? <==> MayLink(db, key, requirement, strict)
    ensures LinkAuth(db, key, requirement, strict).Ok? ==>
              var r := LinkAuth(db, key, requirement, strict).db;
              && r == db.(links := r.links) && key in r.links && r.links[key] == requirement
              && forall k :: k != key ==> SameAt(db.links, r.links, k)
  {
    IndexIsTable(db, key.account, requirement);
    if NamedAnywhere(db, requirement) {
      var id :| id in db.permissions.Keys && db.permissions[id].name == requirement;
      assert IsNamed(db, id, db.permissions[id].owner, requirement);
      assert Has(db, db.permissions[id].owner, requirement);
    }
    if account :| Has(db, account, requirement) {
      var id :| IsNamed(db, id, account, requirement);
      assert id in db.permissions.Keys && db.permissions[id].name == requirement;
    }
  }

  lemma UnlinkIs(db: Db, key: LinkKey)
    ensures UnlinkAuth(db, key).Ok? <==> key in db.links
    ensures UnlinkAuth(db, key).Ok? ==>
              var r := UnlinkAuth(db, key).db;
              r == db.(links := r.links) && key !in r.links && forall k :: k != key ==> SameAt(db.links, r.links, k)
  {
  }

  /** Unlinking undoes a new link. */
  lemma LinkThenUnlink(db: Db, key: LinkKey, requirement: Name, strict: bool)
    requires LinkAuth(db, key, requirement, strict).Ok?
    ensures UnlinkAuth(LinkAuth(db, key, requirement, strict).db, key).Ok?
    ensures UnlinkAuth(LinkAuth(db, key, requirement, strict).db, key).db == db <==> key !in db.links
  {
    var r := UnlinkAuth(LinkAuth(db, key, requirement, strict).db, key).db;
    if key !in db.links { assert r.links == db.links; } else { assert key !in r.links; }
  }

  // ----- Which link decides -----

  /** What a link to `requirement` demands. */
  function Demand(requirement: Name): Option<Name> { if requirement == ANY then None else Some(requirement) }

  /** The link for the action decides, whatever the one for its contract says; that one decides for actions without
      a link of their own; without either, active is needed. */
  lemma LinkDecides(db: Db, account: Account, code: Account, action: Name)
    ensures var exact, wide := LinkKey(account, code, action), LinkKey(account, code, "");
            && (exact in db.links ==> Minimum(db, account, code, action) == Demand(db.links[exact]))
            && (exact !in db.links && wide in db.links ==>
                  Minimum(db, account, code, action) == Demand(db.links[wide]))
            && (exact !in db.links && wide !in db.links ==> Minimum(db, account, code, action) == Some(ACTIVE))
  {
  }

  /** A link for an action fixes what that action needs and nothing else; one for a contract does so for all its
      actions without a link of their own. */
  lemma LinkChanges(db: Db, key: LinkKey, requirement: Name, strict: bool, account: Account, code: Account,
                    action: Name)
    requires LinkAuth(db, key, requirement, strict).Ok?
    ensures Minimum(LinkAuth(db, key, requirement, strict).db, account, code, action)
            == if key == LinkKey(account, code, action)
                  || (key == LinkKey(account, code, "") && LinkKey(account, code, action) !in db.links)
               then Demand(requirement)
               else Minimum(db, account, code, action)
  {
    LinkDecides(db, account, code, action);
    LinkDecides(LinkAuth(db, key, requirement, strict).db, account, code, action);
  }

  /** Without its own link an action falls back to the one of its contract, or to active. */
  lemma UnlinkFallsBack(db: Db, key: LinkKey)
    requires key in db.links && key.action != ""
    ensures Minimum(UnlinkAuth(db, key).db, key.account, key.code, key.action)
            == Minimum(db, key.account, key.code, "")
  {
  }
}
