/**
 * Deleting an ARR service record that is one of several aliases of the same endpoint
 * (apps/api/src/routes/services.ts, lines 250-492; the helpers are in
 * apps/api/src/lib/trash-guides/deployment-target.ts, lines 263-329, 382-435 and 447-474).
 * Profile mappings and score overrides of the deleted record move to its one survivor, all of
 * them or none: the transaction works on copies of the tables and stores them at its end.
 */
module AliasMigration {

  import opened Options

  /** `endpoint` is the normalized address, `credential` and `token` the digests of the connection. */
  datatype Instance = Instance(owner: string, service: string, endpoint: string, credential: string,
                               generation: nat, token: string)

  /** A saved row of an instance, unique by its key there, stamped with the connection that authorized it. */
  datatype Row<K, V> = Row(instanceId: string, key: K, value: V, owner: string, generation: nat, token: Option<string>)

  type Table<K, V> = map<string, Row<K, V>>

  /** A quality profile is deployed from a template, with the resources the template owns. */
  datatype Deployment = Deployment(templateId: string, profileName: string, strategy: string,
                                   captured: bool, managedFormats: Option<string>)

  datatype Override = Override(score: int, status: string)

  type Mappings = Table<int, Deployment>
  type Overrides = Table<(int, int), Override>

  datatype Store = Store(instances: map<string, Instance>, mappings: Mappings, overrides: Overrides)

  // ----- One table -----

  ghost predicate KeysUnique<K(!new), V(!new)>(rows: Table<K, V>) {
    forall a, b :: a in rows && b in rows && SameKey(rows[a], rows[b]) ==> a == b
  }

  predicate SameKey<K(==), V>(a: Row<K, V>, b: Row<K, V>) {
    a.instanceId == b.instanceId && a.key == b.key
  }

  predicate Of<K, V>(row: Row<K, V>, instance: string) {
    row.instanceId == instance
  }

  function RowsOf<K, V>(rows: Table<K, V>, instance: string): (r: set<string>)
    ensures forall id :: id in r <==> id in rows && Of(rows[id], instance)
  {
    set id | id in rows && Of(rows[id], instance)
  }

  /** The survivor already has a row for the same key. */
  predicate Twin<K(==), V>(t: Row<K, V>, row: Row<K, V>, survivor: string) {
    t.instanceId == survivor && t.key == row.key
  }

  predicate HasTwin<K(==), V>(rows: Table<K, V>, row: Row<K, V>, survivor: string) {
    exists t :: t in rows && Twin(rows[t], row, survivor)
  }

  function TwinsOf<K(==), V>(rows: Table<K, V>, row: Row<K, V>, survivor: string): (r: set<string>)
    ensures r <= rows.Keys
  {
    set t | t in rows && Twin(rows[t], row, survivor)
  }

  predicate Conflicts<K(==), V(==)>(rows: Table<K, V>, row: Row<K, V>, survivor: string) {
    exists t :: t in rows && Twin(rows[t], row, survivor) && rows[t].value != row.value
  }

  predicate Stamped<K, V>(row: Row<K, V>, stamp: Instance) {
    row.generation == stamp.generation && row.token == Some(stamp.token)
  }

  function Moved<K, V>(row: Row<K, V>, survivor: string, stamp: Instance): Row<K, V> {
    row.(instanceId := survivor, generation := stamp.generation, token := Some(stamp.token))
  }

  predicate StaysIn<K(==), V>(rows: Table<K, V>, id: string, source: string, survivor: string)
    requires id in rows
  {
    !(Of(rows[id], source) && HasTwin(rows, rows[id], survivor))
  }

  /** The table after the move: rows the survivor already has are dropped, the others change hands. */
  function Migrated<K(==), V>(rows: Table<K, V>, source: string, survivor: string, stamp: Instance): Table<K, V> {
    map id | id in rows && StaysIn(rows, id, source, survivor) ::
      if Of(rows[id], source) then Moved(rows[id], survivor, stamp) else rows[id]
  }

  /** Part of the way: the rows in `pending` are still as they were. */
  ghost predicate PartlyMigrated<K(!new), V(!new)>(
    now: Table<K, V>, rows: Table<K, V>, pending: set<string>, source: string, survivor: string, stamp: Instance)
  {
    && (forall id :: id in now <==> id in rows && (id in pending || StaysIn(rows, id, source, survivor)))
    && (forall id :: id in now ==>
          now[id] == if id !in pending && Of(rows[id], source) then Moved(rows[id], survivor, stamp) else rows[id])
  }

  /**
   * The loop over the rows of the deleted instance, in any order. The unique key of the table
   * holds after every single write.
   */
  method Migrate<K(==, !new), V(==, !new)>(rows: Table<K, V>, source: string, survivor: string, stamp: Instance)
    returns (ok: bool, now: Table<K, V>)
    requires KeysUnique(rows) && source != survivor
    ensures ok <==> NoConflicts(rows, source, survivor)
    ensures ok ==> now == Migrated(rows, source, survivor, stamp) && KeysUnique(now)
  {
    hide KeysUnique, PartlyMigrated, Migrated, Moved, Twin, Conflicts, TwinsOf, HasTwin, RowsOf;
    now := rows;
    var pending := RowsOf(rows, source);
    ghost var start := pending;
    NothingMigrated(rows, source, survivor, stamp);
    while pending != {}
      invariant pending <= start
      invariant forall id :: id in start - pending ==> !Conflicts(rows, rows[id], survivor)
      invariant PartlyMigrated(now, rows, pending, source, survivor, stamp) && KeysUnique(now)
    {
      var id :| id in pending;
      var row := rows[id];
      var twins := TwinsOf(rows, row, survivor);
      if twins != {} {
        var twin :| twin in twins;
        OnlyTwin(rows, row, survivor, twin);
        if rows[twin].value != row.value {
          return false, rows;
        }
        DropKeeps(now, rows, pending, id, source, survivor, stamp);
        now := now - {id};
      } else {
        NoTwin(rows, row, survivor);
        MoveKeeps(now, rows, pending, id, source, survivor, stamp);
        now := now[id := Moved(row, survivor, stamp)];
      }
      pending := pending - {id};
    }
    AllMigrated(now, rows, source, survivor, stamp);
    ok := true;
  }

  lemma NoTwin<K(!new), V(!new)>(rows: Table<K, V>, row: Row<K, V>, survivor: string)
    requires TwinsOf(rows, row, survivor) == {}
    ensures !HasTwin(rows, row, survivor) && !Conflicts(rows, row, survivor)
  {
    assert forall t :: t in rows && Twin(rows[t], row, survivor) ==> t in TwinsOf(rows, row, survivor);
  }

  lemma NothingMigrated<K(!new), V(!new)>(rows: Table<K, V>, source: string, survivor: string, stamp: Instance)
    ensures PartlyMigrated(rows, rows, RowsOf(rows, source), source, survivor, stamp)
  {
  }

  lemma AllMigrated<K(!new), V(!new)>(
    now: Table<K, V>, rows: Table<K, V>, source: string, survivor: string, stamp: Instance)
    requires PartlyMigrated(now, rows, {}, source, survivor, stamp)
    ensures now == Migrated(rows, source, survivor, stamp)
  {
    assert now.Keys == Migrated(rows, source, survivor, stamp).Keys;
  }

  lemma OnlyTwin<K(!new), V(!new)>(rows: Table<K, V>, row: Row<K, V>, survivor: string, twin: string)
    requires KeysUnique(rows) && twin in TwinsOf(rows, row, survivor)
    ensures HasTwin(rows, row, survivor) && twin in rows
    ensures Conflicts(rows, row, survivor) <==> rows[twin].value != row.value
  {
    forall t | t in rows && Twin(rows[t], row, survivor) ensures t == twin {
      assert SameKey(rows[t], rows[twin]);
    }
  }

  lemma DropKeeps<K(!new), V(!new)>(
    now: Table<K, V>, rows: Table<K, V>, pending: set<string>, id: string, source: string, survivor: string,
    stamp: Instance)
    requires PartlyMigrated(now, rows, pending, source, survivor, stamp) && KeysUnique(now)
    requires id in pending && id in rows
    requires Of(rows[id], source) && HasTwin(rows, rows[id], survivor)
    ensures PartlyMigrated(now - {id}, rows, pending - {id}, source, survivor, stamp) && KeysUnique(now - {id})
  {
  }

  lemma MoveKeeps<K(!new), V(!new)>(
    now: Table<K, V>, rows: Table<K, V>, pending: set<string>, id: string, source: string, survivor: string,
    stamp: Instance)
    requires PartlyMigrated(now, rows, pending, source, survivor, stamp) && KeysUnique(now) && KeysUnique(rows)
    requires id in pending && id in rows && source != survivor
    requires Of(rows[id], source) && !HasTwin(rows, rows[id], survivor)
    ensures var next := now[id := Moved(rows[id], survivor, stamp)];
            PartlyMigrated(next, rows, pending - {id}, source, survivor, stamp) && KeysUnique(next)
  {
    var next := now[id := Moved(rows[id], survivor, stamp)];
    forall a | a in next && a != id ensures !SameKey(next[a], next[id]) {
      if Of(rows[a], source) {
        assert !SameKey(rows[a], rows[id]);
      } else {
        assert !Twin(rows[a], rows[id], survivor);
      }
    }
  }

  /** Every saved value of the deleted instance is found on the survivor, and nothing else changed. */
  ghost predicate Preserves<K(!new), V(!new)>(before: Table<K, V>, after: Table<K, V>, source: string, survivor: string,
                                              stamp: Instance) {
    && KeysUnique(after)
    && (forall id :: id in before && !Of(before[id], source) ==> id in after && after[id] == before[id])
    && (forall id :: id in after ==>
          && id in before && !Of(after[id], source)
          && (Of(before[id], source) ==>
                after[id] == Row(survivor, before[id].key, before[id].value, before[id].owner,
                                 stamp.generation, Some(stamp.token))))
    && (forall id :: id in before && Of(before[id], source) ==> Lives(after, before[id], survivor))
  }

  /** The instance has a row with this key and this value. */
  ghost predicate Lives<K(!new), V(!new)>(rows: Table<K, V>, row: Row<K, V>, instance: string) {
    exists t :: t in rows && Twin(rows[t], row, instance) && rows[t].value == row.value
  }

  lemma MigrationPreserves<K(!new), V(!new)>(rows: Table<K, V>, source: string, survivor: string, stamp: Instance)
    requires KeysUnique(rows) && source != survivor && KeysUnique(Migrated(rows, source, survivor, stamp))
    requires forall id :: id in rows && Of(rows[id], source) ==> !Conflicts(rows, rows[id], survivor)
    ensures Preserves(rows, Migrated(rows, source, survivor, stamp), source, survivor, stamp)
  {
    hide KeysUnique;
    var after := Migrated(rows, source, survivor, stamp);
    forall id | id in rows && Of(rows[id], source) ensures Lives(after, rows[id], survivor) {
      if HasTwin(rows, rows[id], survivor) {
        var t :| t in rows && Twin(rows[t], rows[id], survivor);
        assert t in after && after[t] == rows[t];
      } else {
        assert id in after && Twin(after[id], rows[id], survivor);
      }
    }
  }

  // ----- The transaction -----

  /** Both records point at one endpoint with the same credentials. */
  predicate Equivalent(a: Instance, b: Instance) {
    a.owner == b.owner && a.service == b.service && a.endpoint == b.endpoint && a.credential == b.credential
  }

  function Aliases(instances: map<string, Instance>, id: string): (r: set<string>)
    requires id in instances
    ensures id in r && r <= instances.Keys
  {
    set a | a in instances && Equivalent(instances[a], instances[id])
  }

  predicate AllStamped<K, V>(rows: Table<K, V>, instance: string, stamp: Instance) {
    forall id :: id in rows && Of(rows[id], instance) ==> Stamped(rows[id], stamp)
  }

  predicate AllOwned<K, V>(rows: Table<K, V>, among: set<string>, owner: string) {
    forall id :: id in rows && rows[id].instanceId in among ==> rows[id].owner == owner
  }

  predicate AllApplied(rows: Overrides, among: set<string>) {
    forall id :: id in rows && rows[id].instanceId in among ==> rows[id].value.status == "APPLIED"
  }

  predicate NoConflicts<K(==), V(==)>(rows: Table<K, V>, source: string, survivor: string) {
    forall id :: id in rows && Of(rows[id], source) ==> !Conflicts(rows, rows[id], survivor)
  }

  predicate HasState(s: Store, id: string) {
    RowsOf(s.mappings, id) != {} || RowsOf(s.overrides, id) != {}
  }

  /** The endpoint has exactly one other alias. */
  predicate SoleSurvivor(s: Store, id: string, survivor: string)
    requires id in s.instances
    ensures SoleSurvivor(s, id, survivor) ==> survivor in s.instances
  {
    survivor != id && Aliases(s.instances, id) == {id, survivor}
  }

  /** Saved state can move from `id` to `survivor`. */
  predicate CanMove(s: Store, id: string, survivor: string)
    requires id in s.instances && survivor in s.instances
  {
    && AllStamped(s.mappings, id, s.instances[id]) && AllStamped(s.overrides, id, s.instances[id])
    && AllStamped(s.mappings, survivor, s.instances[survivor])
    && AllStamped(s.overrides, survivor, s.instances[survivor])
    && NoConflicts(s.mappings, id, survivor) && NoConflicts(s.overrides, id, survivor)
  }

  ghost predicate MovableTo(s: Store, id: string, survivor: string)
    requires id in s.instances
    ensures MovableTo(s, id, survivor) ==> survivor in s.instances
  {
    SoleSurvivor(s, id, survivor) && CanMove(s, id, survivor)
  }

  /** The deletion is allowed: nothing that is saved would be lost or change its meaning. */
  ghost predicate Authorized(s: Store, histories: set<string>, user: string, id: string, seen: Instance) {
    && id in s.instances && s.instances[id].owner == user
    && Equivalent(s.instances[id], seen) && s.instances[id].token == seen.token && id !in histories
    && var aliases := Aliases(s.instances, id);
       && AllOwned(s.mappings, aliases, user) && AllOwned(s.overrides, aliases, user)
       && AllApplied(s.overrides, aliases)
       && (HasState(s, id) ==> exists survivor :: MovableTo(s, id, survivor))
  }

  /** Owner, service, address and credentials: what makes two records one endpoint. */
  function Endpoint(i: Instance): (string, string, string, string) {
    (i.owner, i.service, i.endpoint, i.credential)
  }

  /** The rows of the instance were authorized under its present connection. */
  ghost predicate UpToDate<K(!new), V(!new)>(rows: Table<K, V>, id: string, instance: Instance) {
    forall r :: r in rows && rows[r].instanceId == id ==>
                  (rows[r].generation, rows[r].token) == (instance.generation, Some(instance.token))
  }

  /** Where both instances have saved something under one key, it is the same. */
  ghost predicate Compatible<K(!new), V(!new)>(rows: Table<K, V>, id: string, survivor: string) {
    forall r, t ::
      r in rows && t in rows && rows[r].instanceId == id && rows[t].instanceId == survivor && rows[r].key == rows[t].key
      ==> rows[r].value == rows[t].value
  }

  /** The record of another instance at the same endpoint, and the only one. */
  ghost predicate OnlyOther(s: Store, id: string, survivor: string)
    ensures OnlyOther(s, id, survivor) ==> id in s.instances && survivor in s.instances
  {
    && id in s.instances && survivor in s.instances && survivor != id
    && forall a :: a in s.instances && a != id ==>
                     (Endpoint(s.instances[a]) == Endpoint(s.instances[id]) <==> a == survivor)
  }

  /**
   * What a deletion needs, in terms of the rows: the record is the user's, has the connection that
   * was seen and no history; all saved rows at its endpoint are the user's and all scores applied;
   * and saved rows of its own can go to the one other record there.
   */
  ghost predicate MayBeDeleted(s: Store, histories: set<string>, user: string, id: string, seen: Instance) {
    && id in s.instances && s.instances[id].owner == user && id !in histories
    && Endpoint(s.instances[id]) == Endpoint(seen) && s.instances[id].token == seen.token
    && (forall r :: r in s.mappings && s.mappings[r].instanceId in s.instances
                    && Endpoint(s.instances[s.mappings[r].instanceId]) == Endpoint(seen) ==>
                      s.mappings[r].owner == user)
    && (forall r :: r in s.overrides && s.overrides[r].instanceId in s.instances
                    && Endpoint(s.instances[s.overrides[r].instanceId]) == Endpoint(seen) ==>
                      s.overrides[r].owner == user && s.overrides[r].value.status == "APPLIED")
    && ((exists r :: r in s.mappings && s.mappings[r].instanceId == id)
        || (exists r :: r in s.overrides && s.overrides[r].instanceId == id) ==>
          exists survivor :: OnlyOther(s, id, survivor) && MayMove(s, id, survivor))
  }

  ghost predicate MayMove(s: Store, id: string, survivor: string)
    requires id in s.instances && survivor in s.instances
  {
    && UpToDate(s.mappings, id, s.instances[id]) && UpToDate(s.overrides, id, s.instances[id])
    && UpToDate(s.mappings, survivor, s.instances[survivor]) && UpToDate(s.overrides, survivor, s.instances[survivor])
    && Compatible(s.mappings, id, survivor) && Compatible(s.overrides, id, survivor)
  }

  lemma MovableIff(s: Store, id: string, survivor: string)
    requires id in s.instances
    ensures MovableTo(s, id, survivor) <==> OnlyOther(s, id, survivor) && MayMove(s, id, survivor)
  {
    assert SoleSurvivor(s, id, survivor) <==> OnlyOther(s, id, survivor) by {
      forall a | a in s.instances
        ensures a in Aliases(s.instances, id) <==> Endpoint(s.instances[a]) == Endpoint(s.instances[id])
      {
      }
      if OnlyOther(s, id, survivor) {
        assert Aliases(s.instances, id) == {id, survivor};
      }
    }
    if survivor in s.instances {
      CompatibleIff(s.mappings, id, survivor);
      CompatibleIff(s.overrides, id, survivor);
    }
  }

  lemma CompatibleIff<K(!new), V(!new)>(rows: Table<K, V>, id: string, survivor: string)
    ensures NoConflicts(rows, id, survivor) <==> Compatible(rows, id, survivor)
  {
    if NoConflicts(rows, id, survivor) {
      forall r, t | r in rows && t in rows && rows[r].instanceId == id && rows[t].instanceId == survivor
                    && rows[r].key == rows[t].key
        ensures rows[r].value == rows[t].value
      {
        assert !Conflicts(rows, rows[r], survivor);
      }
    }
  }

  lemma AuthorizedIff(s: Store, histories: set<string>, user: string, id: string, seen: Instance)
    ensures Authorized(s, histories, user, id, seen) <==> MayBeDeleted(s, histories, user, id, seen)
  {
    hide MovableTo, MayMove, OnlyOther;
    if id in s.instances {
      forall survivor
        ensures MovableTo(s, id, survivor) <==> OnlyOther(s, id, survivor) && MayMove(s, id, survivor)
      {
        MovableIff(s, id, survivor);
      }
    }
  }

  /** Rows belong to stored instances, and are unique by instance and key. */
  ghost predicate Consistent(s: Store) {
    && KeysUnique(s.mappings) && KeysUnique(s.overrides)
    && (forall id :: id in s.mappings ==> s.mappings[id].instanceId in s.instances)
    && (forall id :: id in s.overrides ==> s.overrides[id].instanceId in s.instances)
  }

  /** Deleting an instance takes the rows that still point at it along. */
  function Cascade<K, V>(rows: Table<K, V>, instance: string): Table<K, V> {
    map id | id in rows && !Of(rows[id], instance) :: rows[id]
  }

  datatype Outcome = Deleted | NotFound | Conflict

  class Database {
    var instances: map<string, Instance>
    var mappings: Mappings
    var overrides: Overrides
    /** Instances with deployment history or managed configuration. */
    var histories: set<string>

    ghost function Stored(): Store
      reads this
    {
      Store(instances, mappings, overrides)
    }

    constructor (store: Store, histories: set<string>)
      ensures Stored() == store && this.histories == histories
    {
      instances, mappings, overrides := store.instances, store.mappings, store.overrides;
      this.histories := histories;
    }

    /** Moves the saved state inside the transaction, or finds why it cannot move. */
    method MoveState(id: string) returns (ok: bool, survivor: string, newMappings: Mappings, newOverrides: Overrides)
      requires id in instances && Consistent(Stored())
      ensures ok <==> exists survivor :: MovableTo(Stored(), id, survivor)
      ensures ok ==> MovableTo(Stored(), id, survivor)
      ensures ok ==> newMappings == Migrated(mappings, id, survivor, instances[survivor]) && KeysUnique(newMappings)
      ensures ok ==> newOverrides == Migrated(overrides, id, survivor, instances[survivor]) && KeysUnique(newOverrides)
    {
      hide Aliases, AllStamped, NoConflicts, KeysUnique, Migrated;
      ok, survivor, newMappings, newOverrides := false, id, mappings, overrides;
      var survivors := Aliases(instances, id) - {id};
      SurvivorsAre(Stored(), id, survivors);
      if |survivors| != 1 {
        return;
      }
      survivor :| survivor in survivors;
      assert SoleSurvivor(Stored(), id, survivor);
      var stamp := instances[survivor];
      if !AllStamped(mappings, id, instances[id]) || !AllStamped(overrides, id, instances[id])
         || !AllStamped(mappings, survivor, stamp) || !AllStamped(overrides, survivor, stamp) {
        return;
      }
      ok, newMappings := Migrate(mappings, id, survivor, stamp);
      if ok {
        ok, newOverrides := Migrate(overrides, id, survivor, stamp);
      }
      assert ok == MovableTo(Stored(), id, survivor);
    }

    method DeleteAlias(user: string, id: string, seen: Instance) returns (outcome: Outcome)
      requires Consistent(Stored())
      modifies this`instances, this`mappings, this`overrides
      ensures outcome.Deleted? <==> Authorized(old(Stored()), histories, user, id, seen)
      ensures outcome.Deleted? <==> MayBeDeleted(old(Stored()), histories, user, id, seen)
      ensures outcome.NotFound? <==> !(id in old(instances) && old(instances)[id].owner == user)
      ensures !outcome.Deleted? ==> Stored() == old(Stored())
      ensures outcome.Deleted? ==> AliasDeleted(old(Stored()), Stored(), id)
      ensures Consistent(Stored())
    {
      AuthorizedIff(Stored(), histories, user, id, seen);
      hide Equivalent, Aliases, AllOwned, AllApplied, MovableTo, Consistent, Cascade, AliasDeleted, MayBeDeleted;
      if id !in instances || instances[id].owner != user {
        return NotFound;
      }
      var current := instances[id];
      if !Equivalent(current, seen) || current.token != seen.token || id in histories {
        return Conflict;
      }
      var aliases := Aliases(instances, id);
      if !AllOwned(mappings, aliases, user) || !AllOwned(overrides, aliases, user) || !AllApplied(overrides, aliases) {
        return Conflict;
      }
      ghost var before := Stored();
      assert before == old(Stored());
      var newMappings, newOverrides := mappings, overrides;
      if RowsOf(mappings, id) != {} || RowsOf(overrides, id) != {} {
        var ok, survivor;
        ok, survivor, newMappings, newOverrides := MoveState(id);
        if !ok {
          assert Stored() == before;
          assert HasState(before, id);
          return Conflict;
        }
        MovedIsDeleted(before, id, survivor, newMappings, newOverrides);
      } else {
        StatelessIsDeleted(before, id);
      }
      instances := instances - {id};
      mappings := Cascade(newMappings, id);
      overrides := Cascade(newOverrides, id);
      outcome := Deleted;
    }
  }

  lemma SurvivorsAre(s: Store, id: string, survivors: set<string>)
    requires id in s.instances && survivors == Aliases(s.instances, id) - {id}
    ensures forall x :: SoleSurvivor(s, id, x) <==> survivors == {x}
    ensures forall x, y :: x in survivors && MovableTo(s, id, y) ==> y == x
    ensures |survivors| == 1 <==> exists x :: SoleSurvivor(s, id, x)
    ensures |survivors| == 1 ==> forall x :: x in survivors ==> survivors == {x}
  {
    hide Aliases;
    forall x ensures SoleSurvivor(s, id, x) <==> survivors == {x} {
      assert survivors == {x} ==> Aliases(s.instances, id) == survivors + {id};
    }
    if |survivors| == 1 {
      var x :| x in survivors;
      assert |survivors - {x}| == 0;
      assert survivors == {x};
      assert SoleSurvivor(s, id, x);
    }
  }

  lemma NothingCascades<K(!new), V(!new)>(rows: Table<K, V>, id: string)
    requires forall r :: r in rows ==> !Of(rows[r], id)
    ensures Cascade(rows, id) == rows
  {
  }

  lemma MovedIsDeleted(s: Store, id: string, survivor: string, newMappings: Mappings, newOverrides: Overrides)
    requires Consistent(s) && id in s.instances && MovableTo(s, id, survivor)
    requires HasState(s, id)
    requires newMappings == Migrated(s.mappings, id, survivor, s.instances[survivor]) && KeysUnique(newMappings)
    requires newOverrides == Migrated(s.overrides, id, survivor, s.instances[survivor]) && KeysUnique(newOverrides)
    ensures var after := Store(s.instances - {id}, Cascade(newMappings, id), Cascade(newOverrides, id));
            AliasDeleted(s, after, id) && Consistent(after)
  {
    hide KeysUnique, Migrated, Cascade, RowsOf, HasState;
    MigrationPreserves(s.mappings, id, survivor, s.instances[survivor]);
    MigrationPreserves(s.overrides, id, survivor, s.instances[survivor]);
    NothingCascades(newMappings, id);
    NothingCascades(newOverrides, id);
    var after := Store(s.instances - {id}, newMappings, newOverrides);
    assert MovedTo(s, after, id, survivor);
  }

  lemma StatelessIsDeleted(s: Store, id: string)
    requires Consistent(s) && id in s.instances && !HasState(s, id)
    ensures var after := Store(s.instances - {id}, Cascade(s.mappings, id), Cascade(s.overrides, id));
            AliasDeleted(s, after, id) && Consistent(after)
  {
    hide KeysUnique, Cascade;
    NothingCascades(s.mappings, id);
    NothingCascades(s.overrides, id);
  }

  /**
   * What a committed deletion means: only the instance itself is gone. With saved state, its one
   * other alias now has every profile's template and every format's score under its own stamp;
   * without, no row changed.
   */
  ghost predicate AliasDeleted(before: Store, after: Store, id: string) {
    && id in before.instances && after.instances == before.instances - {id}
    && if HasState(before, id) then exists survivor :: MovedTo(before, after, id, survivor)
       else after.mappings == before.mappings && after.overrides == before.overrides
  }

  ghost predicate MovedTo(before: Store, after: Store, id: string, survivor: string) {
    && id in before.instances && survivor in before.instances && survivor in after.instances
    && Endpoint(before.instances[survivor]) == Endpoint(before.instances[id])
    && Preserves(before.mappings, after.mappings, id, survivor, before.instances[survivor])
    && Preserves(before.overrides, after.overrides, id, survivor, before.instances[survivor])
    && UpToDate(after.mappings, survivor, after.instances[survivor])
    && UpToDate(after.overrides, survivor, after.instances[survivor])
  }
}
