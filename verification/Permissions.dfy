/** Permission sets of roles: the per-role cache in front of the grant tables, and the union a person gets. */
module Permissions {
  import opened Common

  type Id = nat

  /** A permission (resource, action) or a visible field (resource, field) of a role; "*" is the wildcard. */
  datatype Grant = Grant(role: Id, resource: string, name: string)

  type Table = map<string, set<string>>

  datatype PermSet = PermSet(perms: Table, fields: Table)

  /** One role's grants, as cached. */
  datatype Entry = Entry(perms: seq<Grant>, fields: seq<Grant>)

  datatype Cached = Decodable(entry: Entry) | Corrupt

  datatype Database = Database(perms: seq<Grant>, fields: seq<Grant>)

  datatype LoadError = DatabaseUnavailable

  // ---------------------------------------------------------------- lookups

  predicate Listed(t: Table, resource: string, name: string) {
    resource in t && name in t[resource]
  }

  /** The lookup behind permissions and fields alike: everything, or the resource's own names. */
  predicate Allows(t: Table, resource: string, name: string) {
    Listed(t, "*", "*") || Listed(t, resource, name) || Listed(t, resource, "*")
  }

  predicate Can(p: PermSet, resource: string, action: string) {
    Allows(p.perms, resource, action)
  }

  predicate CanSeeField(p: PermSet, resource: string, field: string) {
    Allows(p.fields, resource, field)
  }

  /** A single grant covers a request by itself. */
  predicate Covers(g: Grant, resource: string, name: string) {
    (g.resource == "*" && g.name == "*") || (g.resource == resource && (g.name == name || g.name == "*"))
  }

  ghost predicate RoleAllows(grants: seq<Grant>, role: Id, resource: string, name: string) {
    exists g :: g in grants && g.role == role && Covers(g, resource, name)
  }

  /** A table holds exactly the grants of some roles. */
  ghost predicate Holds(t: Table, grants: seq<Grant>, roles: seq<Id>) {
    forall resource, name :: Listed(t, resource, name) <==>
      exists role :: role in roles && Grant(role, resource, name) in grants
  }

  /** In a table holding some roles' grants, a request is allowed exactly when one of the roles allows it. */
  lemma AllowsByRole(t: Table, grants: seq<Grant>, roles: seq<Id>, resource: string, name: string)
    requires Holds(t, grants, roles)
    ensures Allows(t, resource, name) <==> exists role :: role in roles && RoleAllows(grants, role, resource, name)
  {
    if role :| role in roles && RoleAllows(grants, role, resource, name) {
      var g :| g in grants && g.role == role && Covers(g, resource, name);
      assert Grant(role, g.resource, g.name) in grants;
      assert Listed(t, g.resource, g.name);
    }
    if Allows(t, resource, name) {
      var (r, n) :=
        if Listed(t, "*", "*") then ("*", "*")
        else if Listed(t, resource, name) then (resource, name)
        else (resource, "*");
      assert Listed(t, r, n);
      var role :| role in roles && Grant(role, r, n) in grants;
      assert Covers(Grant(role, r, n), resource, name);
      assert RoleAllows(grants, role, resource, name);
    }
  }

  // ---------------------------------------------------------------- building and merging

  function Names(t: Table, resource: string): set<string> {
    if resource in t then t[resource] else {}
  }

  ghost predicate Mentions(grants: seq<Grant>, resource: string, name: string) {
    exists g :: g in grants && g.resource == resource && g.name == name
  }

  lemma MentionsGrow(grants: seq<Grant>, i: nat, resource: string, name: string)
    requires i < |grants|
    ensures Mentions(grants[..i + 1], resource, name) <==>
      Mentions(grants[..i], resource, name) || (grants[i].resource == resource && grants[i].name == name)
  {
    assert grants[..i + 1] == grants[..i] + [grants[i]];
    assert grants[i] in grants[..i + 1];
    if g :| g in grants[..i] && g.resource == resource && g.name == name {
      assert g in grants[..i + 1];
    }
  }

  method BuildTable(grants: seq<Grant>) returns (t: Table)
    ensures forall resource, name :: Listed(t, resource, name) <==> Mentions(grants, resource, name)
  {
    t := map[];
    for i := 0 to |grants|
      invariant forall resource, name :: Listed(t, resource, name) <==> Mentions(grants[..i], resource, name)
    {
      ghost var before := t;
      t := t[grants[i].resource := Names(t, grants[i].resource) + {grants[i].name}];
      forall resource, name ensures Listed(t, resource, name) <==> Mentions(grants[..i + 1], resource, name) {
        MentionsGrow(grants, i, resource, name);
        assert Listed(before, resource, name) <==> Mentions(grants[..i], resource, name);
      }
    }
    assert grants[..|grants|] == grants;
  }

  method MergeTables(a: Table, b: Table) returns (t: Table)
    ensures forall resource, name :: Listed(t, resource, name) <==>
      Listed(a, resource, name) || Listed(b, resource, name)
  {
    t := CopyInto(map[], a);
    t := CopyInto(t, b);
  }

  method CopyInto(t0: Table, src: Table) returns (t: Table)
    ensures forall resource, name :: Listed(t, resource, name) <==>
      Listed(t0, resource, name) || Listed(src, resource, name)
  {
    t := t0;
    var todo := src.Keys;
    while todo != {}
      invariant todo <= src.Keys
      invariant forall resource, name ::
        Listed(t, resource, name) <==> Listed(t0, resource, name) || (resource !in todo && Listed(src, resource, name))
      decreases |todo|
    {
      var resource :| resource in todo;
      t := t[resource := Names(t, resource) + src[resource]];
      todo := todo - {resource};
    }
  }

  method Merge(p: PermSet, q: PermSet) returns (r: PermSet)
    ensures forall resource, name :: Listed(r.perms, resource, name) <==>
      Listed(p.perms, resource, name) || Listed(q.perms, resource, name)
    ensures forall resource, name :: Listed(r.fields, resource, name) <==>
      Listed(p.fields, resource, name) || Listed(q.fields, resource, name)
  {
    var perms := MergeTables(p.perms, q.perms);
    var fields := MergeTables(p.fields, q.fields);
    r := PermSet(perms, fields);
  }

  // ---------------------------------------------------------------- loading through the cache

  ghost predicate Matches(db: Database, role: Id, e: Entry) {
    && (forall g :: g in e.perms <==> g in db.perms && g.role == role)
    && (forall g :: g in e.fields <==> g in db.fields && g.role == role)
  }

  /** Every decodable entry says what the database says. */
  ghost predicate CacheMatches(db: Database, cache: map<Id, Cached>) {
    forall role :: role in cache && cache[role].Decodable? ==> Matches(db, role, cache[role].entry)
  }

  /** The rows of the missed roles, dealt out to their roles one by one. */
  method ByRole(grants: seq<Grant>, missed: seq<Id>) returns (lists: map<Id, seq<Grant>>)
    ensures lists.Keys == set role | role in missed
    ensures forall role, g :: role in lists ==> (g in lists[role] <==> g in grants && g.role == role)
  {
    lists := map role | role in missed :: [];
    for i := 0 to |grants|
      invariant lists.Keys == set role | role in missed
      invariant forall role, g :: role in lists ==> (g in lists[role] <==> g in grants[..i] && g.role == role)
    {
      assert grants[..i + 1] == grants[..i] + [grants[i]];
      if grants[i].role in missed {
        lists := lists[grants[i].role := lists[grants[i].role] + [grants[i]]];
      }
    }
    assert grants[..|grants|] == grants;
  }

  class RoleService {
    var cache: map<Id, Cached>

    /** What the cache has for the roles, and the roles it has nothing usable for. */
    method Lookup(ghost db: Database, roles: seq<Id>, reachable: bool) returns (hits: map<Id, Entry>, missed: seq<Id>)
      requires CacheMatches(db, cache)
      ensures forall role :: role in hits ==> Matches(db, role, hits[role]) && role in cache && cache[role].Decodable?
      ensures forall role :: role in roles ==> role in hits || role in missed
      ensures forall role :: role in missed ==> !reachable || role !in cache || cache[role].Corrupt?
    {
      hits, missed := map[], [];
      for i := 0 to |roles|
        invariant forall role :: role in hits ==> Matches(db, role, hits[role])
        invariant forall k :: 0 <= k < i ==> roles[k] in hits || roles[k] in missed
        invariant forall role :: role in hits ==> role in cache && cache[role].Decodable?
        invariant forall role :: role in missed ==> !reachable || role !in cache || cache[role].Corrupt?
      {
        if reachable && roles[i] in cache && cache[roles[i]].Decodable? {
          hits := hits[roles[i] := cache[roles[i]].entry];
        } else {
          missed := missed + [roles[i]];
        }
      }
    }

    /**
     * The union of the roles' grants, whatever the cache hits, misses, has corrupted or fails to store;
     * the cache still matches the database afterwards.
     */
    method LoadPermSet(db: Database, roles: seq<Id>, cacheReachable: bool, databaseReachable: bool, storable: set<Id>)
      returns (r: Result<PermSet, LoadError>)
      requires CacheMatches(db, cache)
      modifies this
      ensures CacheMatches(db, cache)
      ensures forall role :: role in old(cache) && old(cache)[role].Decodable? ==>
        role in cache && cache[role].Decodable?
      ensures databaseReachable ==> r.Ok?
      ensures r.Ok? ==> forall role :: role in roles && role in storable ==> role in cache && cache[role].Decodable?
      ensures r.Ok? ==> IsUnion(db, roles, r.value)
    {
      var hits, missed := Lookup(db, roles, cacheReachable);
      if |missed| > 0 {
        if !databaseReachable {
          return Err(DatabaseUnavailable);
        }
        var perms := ByRole(db.perms, missed);
        var fields := ByRole(db.fields, missed);
        var fetched := map role | role in perms.Keys :: Entry(perms[role], fields[role]);
        assert forall role :: role in fetched ==> Matches(db, role, fetched[role]);
        hits := hits + fetched;
        var stored := map role | role in fetched.Keys && role in storable :: Decodable(fetched[role]);
        assert CacheMatches(db, stored);
        cache := cache + stored;
        assert CacheMatches(db, cache);
      }
      var merged := UnionOf(db, roles, hits);
      return Ok(merged);
    }
  }

  /** Whether a set grants what the roles grant, each on its own. */
  ghost predicate IsUnion(db: Database, roles: seq<Id>, p: PermSet) {
    forall resource, name ::
      && (Can(p, resource, name) <==> exists role :: role in roles && RoleAllows(db.perms, role, resource, name))
      && (CanSeeField(p, resource, name) <==>
        exists role :: role in roles && RoleAllows(db.fields, role, resource, name))
  }

  /** Merges the roles' sets one after the other. */
  method UnionOf(ghost db: Database, roles: seq<Id>, entries: map<Id, Entry>) returns (merged: PermSet)
    requires forall role :: role in roles ==> role in entries && Matches(db, role, entries[role])
    ensures IsUnion(db, roles, merged)
  {
    merged := PermSet(map[], map[]);
    for i := 0 to |roles|
      invariant Holds(merged.perms, db.perms, roles[..i]) && Holds(merged.fields, db.fields, roles[..i])
    {
      var entry := entries[roles[i]];
      var perms := BuildTable(entry.perms);
      var fields := BuildTable(entry.fields);
      ghost var before := merged;
      merged := Merge(merged, PermSet(perms, fields));
      HoldsMore(before.perms, perms, merged.perms, db.perms, roles, i, entry.perms);
      HoldsMore(before.fields, fields, merged.fields, db.fields, roles, i, entry.fields);
    }
    assert roles[..|roles|] == roles;
    forall resource, name
      ensures Can(merged, resource, name) <==>
        exists role :: role in roles && RoleAllows(db.perms, role, resource, name)
      ensures CanSeeField(merged, resource, name) <==>
        exists role :: role in roles && RoleAllows(db.fields, role, resource, name)
    {
      AllowsByRole(merged.perms, db.perms, roles, resource, name);
      AllowsByRole(merged.fields, db.fields, roles, resource, name);
    }
  }

  /** Merging in one more role's table. */
  lemma HoldsMore(before: Table, own: Table, merged: Table, grants: seq<Grant>, roles: seq<Id>, i: nat,
                  entry: seq<Grant>)
    requires i < |roles| && Holds(before, grants, roles[..i])
    requires forall g :: g in entry <==> g in grants && g.role == roles[i]
    requires forall resource, name :: Listed(own, resource, name) <==> Mentions(entry, resource, name)
    requires forall resource, name :: Listed(merged, resource, name) <==>
      Listed(before, resource, name) || Listed(own, resource, name)
    ensures Holds(merged, grants, roles[..i + 1])
  {
    assert roles[..i + 1] == roles[..i] + [roles[i]];
    forall resource, name
      ensures Listed(own, resource, name) <==> Grant(roles[i], resource, name) in grants
    {
      if Grant(roles[i], resource, name) in grants {
        assert Grant(roles[i], resource, name) in entry;
      }
    }
  }
}
