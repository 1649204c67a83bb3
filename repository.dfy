/**
 * Repository<T> (GridHub.Repository/Repository.cs) over one table of the database. The
 * table is `rows`, keyed by the entity's id. Every mutating call is followed by
 * SaveChanges, so in this model each of them commits before it returns and `rows` is
 * always the committed table.
 */
module Store {
  import opened Wrappers
  import opened Entities
  import DbContext

  /** How the save fills in a zero key on insert. */
  datatype KeyPolicy =
    | MaxPlusOne  // Usuario: FIAPDBContext.SaveChangesAsync gives max persisted id + 1
    | Identity    // every other table: an identity column, START WITH 1 INCREMENT BY 1

  /** The exceptions a repository call can end in. */
  datatype RepoError =
    | NullArgument      // ArgumentNullException for a null entity or id
    | DuplicateKey      // the insert violates the primary key
    | KeysExhausted     // no `int` key is left to assign
    | RowMissing        // the update or delete affects no row
    | NotNullViolation  // the row leaves a NOT NULL column empty

  /** A value of an identity sequence: the columns start at 1 and only count up. */
  type SequenceValue = n: int | 1 <= n witness 1

  /** `s` lists the table `m`: every row exactly once, each with its own key. */
  ghost predicate ListsTable<T>(s: seq<Keyed<T>>, m: map<Int32, T>)
  {
    && (forall i :: 0 <= i < |s| ==> s[i].id in m && m[s[i].id] == s[i].value)
    && (forall i, j :: 0 <= i < j < |s| ==> s[i].id != s[j].id)
    && (forall k :: k in m ==> exists i :: 0 <= i < |s| && s[i].id == k)
  }

  /** A listing has as many entries as the table has rows. */
  lemma {:induction false} ListsTableSize<T>(s: seq<Keyed<T>>, m: map<Int32, T>)
    requires ListsTable(s, m)
    ensures |s| == |m|
    decreases |s|
  {
    if s != [] {
      var last := s[|s| - 1];
      var s', m' := s[..|s| - 1], m - {last.id};
      forall k | k in m'
        ensures exists i :: 0 <= i < |s'| && s'[i].id == k
      {
        var i :| 0 <= i < |s| && s[i].id == k;
        assert i != |s| - 1;
        assert s'[i].id == k;
      }
      assert ListsTable(s', m');
      ListsTableSize(s', m');
      assert m'.Keys == m.Keys - {last.id};
    }
  }

  /** An empty listing is exactly an empty table. */
  lemma ListsTableEmpty<T>(s: seq<Keyed<T>>, m: map<Int32, T>)
    requires ListsTable(s, m)
    ensures s == [] <==> m == map[]
  {
    if s != [] {
      assert s[0].id in m;
    }
  }

  class Repository<T> {
    /** The committed table. */
    var rows: map<Int32, T>
    /** The next value of the table's identity sequence. */
    var nextIdentity: SequenceValue
    const policy: KeyPolicy
    /** The table's NOT NULL constraints: the rows the database accepts. */
    const admits: T -> bool

    constructor (policy: KeyPolicy, admits: T -> bool)
      ensures this.policy == policy && this.admits == admits && rows == map[] && nextIdentity == 1
    {
      this.policy := policy;
      this.admits := admits;
      rows := map[];
      nextIdentity := 1;
    }

    /**
     * The save leaves `e`'s key to the identity column: the table has one, or the Usuario
     * rule gave 0, which Entity Framework takes for an unset key.
     */
    predicate DrawsIdentity(e: Keyed<T>)
      reads this
    {
      e.id == 0 &&
      match policy
      case Identity => true
      case MaxPlusOne => DbContext.NewUsuarioId(rows.Keys) == Some(0)
    }

    /** The key the identity column supplies, or the exception the insert ends in. */
    function IdentityKey(): (r: Result<Int32, RepoError>)
      reads this
      ensures r.Success? <==> nextIdentity <= Int32Max && nextIdentity !in rows
      ensures r.Success? ==> r.value == nextIdentity
      ensures r.Failure? ==> r.error == (if nextIdentity > Int32Max then KeysExhausted else DuplicateKey)
    {
      if nextIdentity > Int32Max then Failure(KeysExhausted)
      else if nextIdentity in rows then Failure(DuplicateKey)
      else Success(nextIdentity)
    }

    /**
     * The key under which the save would insert `e`, or the exception it ends in: an
     * explicit non-zero key is kept, a zero key is filled in by the table's policy.
     */
    function KeyFor(e: Keyed<T>): (r: Result<Int32, RepoError>)
      reads this
      ensures r.Success? ==> r.value !in rows && r.value != 0
      ensures r.Failure? ==> r.error == DuplicateKey || r.error == KeysExhausted
      ensures e.id != 0 ==> (r.Success? <==> e.id !in rows) && (r.Success? ==> r.value == e.id)
      ensures DrawsIdentity(e) ==> r == IdentityKey()
      ensures e.id == 0 && policy == MaxPlusOne ==>
        (Int32Max in rows ==> r == Failure(KeysExhausted)) && (r.Success? ==> forall k :: k in rows ==> k < r.value)
      ensures e.id == 0 && policy == MaxPlusOne && !DrawsIdentity(e) && Int32Max !in rows ==>
        r == Success(DbContext.MaxPersistedId(rows.Keys) + 1)
      ensures e.id == 0 && policy == MaxPlusOne && rows == map[] ==> r == Success(1)
    {
      if e.id != 0 then
        if e.id in rows then Failure(DuplicateKey) else Success(e.id)
      else if DrawsIdentity(e) then
        IdentityKey()
      else
        match DbContext.NewUsuarioId(rows.Keys)
        case None => Failure(KeysExhausted)
        case Some(k) => Success(k)
    }

    /** `Add`: a null entity throws; otherwise the entity is inserted, committed and returned with its key. */
    method Add(e: Option<Keyed<T>>) returns (r: Result<Keyed<T>, RepoError>)
      modifies this
      ensures e.None? ==> r == Failure(NullArgument)
      ensures e.Some? && !admits(e.value.value) ==> r == Failure(NotNullViolation)
      ensures e.Some? && admits(e.value.value) && old(KeyFor(e.value)).Failure? ==>
        r == Failure(old(KeyFor(e.value)).error)
      ensures e.Some? && admits(e.value.value) && old(KeyFor(e.value)).Success? ==>
        r == Success(Keyed(old(KeyFor(e.value)).value, e.value.value))
      ensures r.Success? ==> r.value.id !in old(rows) && rows == old(rows)[r.value.id := r.value.value]
      ensures r.Failure? ==> rows == old(rows)
      ensures nextIdentity == if r.Success? && old(DrawsIdentity(e.value))
                              then old(nextIdentity) + 1 else old(nextIdentity)
    {
      if e.None? {
        return Failure(NullArgument);
      }
      var entity := e.value;
      if !admits(entity.value) {
        return Failure(NotNullViolation);
      }
      // SaveChanges: the context fills in a zero UsuarioId with max + 1.
      var key := entity.id;
      if policy == MaxPlusOne {
        var tracked := DbContext.AssignUsuarioIds(rows.Keys, [DbContext.UsuarioEntry(DbContext.Added, entity.id)]);
        match tracked
        case None =>
          return Failure(KeysExhausted);
        case Some(entries) =>
          key := entries[0].usuarioId;
      }
      // A key still at 0, the CLR default, is left to the database's identity column.
      var drawn := key == 0;
      if drawn {
        if nextIdentity > Int32Max {
          return Failure(KeysExhausted);
        }
        key := nextIdentity;
      }
      if key in rows {
        return Failure(DuplicateKey);
      }
      rows := rows[key := entity.value];
      if drawn {
        nextIdentity := nextIdentity + 1;
      }
      r := Success(Keyed(key, entity.value));
    }

    /** `Update`: a null entity throws; otherwise the whole row under the entity's key is replaced, if the table accepts it. */
    method Update(e: Option<Keyed<T>>) returns (r: Result<Keyed<T>, RepoError>)
      modifies this`rows
      ensures e.None? ==> r == Failure(NullArgument) && rows == old(rows)
      ensures e.Some? && e.value.id !in old(rows) ==> r == Failure(RowMissing) && rows == old(rows)
      ensures e.Some? && e.value.id in old(rows) && !admits(e.value.value) ==>
        r == Failure(NotNullViolation) && rows == old(rows)
      ensures e.Some? && e.value.id in old(rows) && admits(e.value.value) ==>
        r == Success(e.value) && rows == old(rows)[e.value.id := e.value.value]
    {
      if e.None? {
        return Failure(NullArgument);
      }
      if e.value.id !in rows {
        return Failure(RowMissing);
      }
      if !admits(e.value.value) {
        return Failure(NotNullViolation);
      }
      rows := rows[e.value.id := e.value.value];
      r := Success(e.value);
    }

    /** `Delete`: a null entity throws; otherwise the row with the entity's key is removed. */
    method Delete(e: Option<Keyed<T>>) returns (r: Result<(), RepoError>)
      modifies this`rows
      ensures e.None? ==> r == Failure(NullArgument) && rows == old(rows)
      ensures e.Some? && e.value.id !in old(rows) ==> r == Failure(RowMissing) && rows == old(rows)
      ensures e.Some? && e.value.id in old(rows) ==> r == Success(()) && rows == old(rows) - {e.value.id}
    {
      if e.None? {
        return Failure(NullArgument);
      }
      if e.value.id !in rows {
        return Failure(RowMissing);
      }
      rows := rows - {e.value.id};
      r := Success(());
    }

    /** `GetById`: a null id throws; otherwise the row with that key, or null when there is none. */
    method GetById(id: Option<Int32>) returns (r: Result<Option<Keyed<T>>, RepoError>)
      ensures id.None? ==> r == Failure(NullArgument)
      ensures id.Some? ==> r.Success? && (r.value.Some? <==> id.value in rows)
      ensures id.Some? && id.value in rows ==> r.value == Some(Keyed(id.value, rows[id.value]))
    {
      if id.None? {
        return Failure(NullArgument);
      }
      if id.value in rows {
        r := Success(Some(Keyed(id.value, rows[id.value])));
      } else {
        r := Success(None);
      }
    }

    /** `GetAll`: every row of the table, in no particular order. */
    method GetAll() returns (all: seq<Keyed<T>>)
      ensures ListsTable(all, rows)
      ensures |all| == |rows|
    {
      all := [];
      var keys := rows.Keys;
      while keys != {}
        invariant keys <= rows.Keys
        invariant forall i :: 0 <= i < |all| ==> all[i].id in rows && rows[all[i].id] == all[i].value
        invariant forall i :: 0 <= i < |all| ==> all[i].id !in keys
        invariant forall i, j :: 0 <= i < j < |all| ==> all[i].id != all[j].id
        invariant forall k :: k in rows && k !in keys ==> exists i :: 0 <= i < |all| && all[i].id == k
        decreases keys
      {
        var k :| k in keys;
        ghost var before := all;
        all := all + [Keyed(k, rows[k])];
        forall k' | k' in rows && k' !in keys - {k}
          ensures exists i :: 0 <= i < |all| && all[i].id == k'
        {
          if k' == k {
            assert all[|all| - 1].id == k';
          } else {
            var i :| 0 <= i < |before| && before[i].id == k';
            assert all[i].id == k';
          }
        }
        keys := keys - {k};
      }
      ListsTableSize(all, rows);
    }
  }
}
