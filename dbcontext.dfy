/**
 * FIAPDBContext.SaveChangesAsync (GridHub.Database/FIAPDBContext.cs): before the base save,
 * every tracked Usuario entry in the Added state whose UsuarioId is still 0 is given the
 * largest persisted UsuarioId plus one. Entries in other states, and other entity types,
 * go to the base save untouched.
 */
module DbContext {
  import opened Wrappers
  import opened Entities

  /**
   * `Usuarios.AsNoTracking().OrderByDescending(u => u.UsuarioId).Select(u => u.UsuarioId)
   * .FirstOrDefaultAsync()`: the largest persisted id, or 0 (default(int)) on an empty table.
   */
  function MaxPersistedId(persisted: set<Int32>): (m: Int32)
    ensures persisted == {} ==> m == 0
    ensures persisted != {} ==> m in persisted && forall k :: k in persisted ==> k <= m
  {
    if persisted == {} then 0
    else
      MaxExists(persisted);
      var m :| m in persisted && forall k :: k in persisted ==> k <= m; m
  }

  lemma {:induction false} MaxExists(s: set<Int32>)
    requires s != {}
    ensures exists m :: m in s && forall k :: k in s ==> k <= m
    decreases s
  {
    var x :| x in s;
    if s != {x} {
      MaxExists(s - {x});
      var m :| m in s - {x} && forall k :: k in s - {x} ==> k <= m;
      assert forall k :: k in s ==> k == x || k in s - {x};
      if m < x {
        assert forall k :: k in s ==> k <= x;
      } else {
        assert forall k :: k in s ==> k <= m;
      }
    } else {
      assert forall k :: k in s ==> k <= x;
    }
  }

  /** C#'s unchecked `int` arithmetic: the result reduced into the 32-bit two's-complement range. */
  function Wrap32(x: int): (r: Int32)
    ensures Int32Min <= x <= Int32Max ==> r == x
    ensures x == Int32Max + 1 ==> r == Int32Min
  {
    (x - Int32Min) % 0x1_0000_0000 + Int32Min
  }

  /** The id the source assigns, as written: `maxId + 1`, which wraps at int.MaxValue. */
  function NewUsuarioIdAsWritten(persisted: set<Int32>): (k: Int32)
    ensures Int32Max !in persisted ==> k == MaxPersistedId(persisted) + 1
    ensures Int32Max in persisted ==> k == Int32Min
  {
    Wrap32(MaxPersistedId(persisted) + 1)
  }

  /**
   * Once some user holds UsuarioId int.MaxValue (the POST body's UsuarioId is kept when
   * non-zero), the next user created without an id is given int.MinValue: smaller than a
   * persisted id, against the rule that a new id exceeds every persisted one.
   */
  lemma AsWrittenWrapsAround()
    ensures var persisted: set<Int32> := {5, Int32Max};
      NewUsuarioIdAsWritten(persisted) == Int32Min && NewUsuarioIdAsWritten(persisted) < 5
  {
    var persisted: set<Int32> := {5, Int32Max};
    assert MaxPersistedId(persisted) == Int32Max;
  }

  /**
   * The corrected rule the rest of the model uses: max + 1 while that fits in an `int`,
   * and no id at all (the save fails) once int.MaxValue is taken.
   */
  function NewUsuarioId(persisted: set<Int32>): (k: Option<Int32>)
    ensures k.Some? <==> Int32Max !in persisted
    ensures k.Some? ==> forall p :: p in persisted ==> p < k.value
    ensures k.Some? ==> k.value !in persisted
    ensures persisted == {} ==> k == Some(1)
    ensures k.Some? ==> k.value == NewUsuarioIdAsWritten(persisted)
  {
    var maxId := MaxPersistedId(persisted);
    if maxId == Int32Max then None else Some(maxId + 1)
  }

  /** EntityState of a tracked entry. */
  datatype EntryState = Detached | Unchanged | Deleted | Modified | Added

  /** A tracked Usuario entry, reduced to what the loop looks at. */
  datatype UsuarioEntry = UsuarioEntry(state: EntryState, usuarioId: Int32)

  /** What the loop body does to one entry; None when the corrected rule has no id to give. */
  function AssignedEntry(persisted: set<Int32>, e: UsuarioEntry): Option<UsuarioEntry>
  {
    if e.state == Added && e.usuarioId == 0 then
      match NewUsuarioId(persisted)
      case None => None
      case Some(k) => Some(e.(usuarioId := k))
    else Some(e)
  }

  /** Only Added entries with a zero id change, and only in their id. */
  lemma AssignedEntryTouchesOnlyNewIds(persisted: set<Int32>, e: UsuarioEntry)
    ensures e.state != Added || e.usuarioId != 0 ==> AssignedEntry(persisted, e) == Some(e)
    ensures AssignedEntry(persisted, e).Some? ==> AssignedEntry(persisted, e).value.state == e.state
    ensures e.state == Added && e.usuarioId == 0 && AssignedEntry(persisted, e).Some? ==>
      AssignedEntry(persisted, e).value.usuarioId !in persisted
  {
  }

  /**
   * The maximum is read from persisted rows alone, so two users added before one save would
   * get the same id. The repository saves after every Add, so it never has two pending.
   */
  lemma PendingUsersInOneSaveShareTheirId(persisted: set<Int32>)
    requires Int32Max !in persisted
    ensures AssignedEntry(persisted, UsuarioEntry(Added, 0)) == Some(UsuarioEntry(Added, MaxPersistedId(persisted) + 1))
  {
  }

  /**
   * The foreach of SaveChangesAsync over the tracked Usuario entries, before the base save.
   * None stands for the save failing because the corrected rule has no id to give.
   */
  method AssignUsuarioIds(persisted: set<Int32>, entries: seq<UsuarioEntry>) returns (r: Option<seq<UsuarioEntry>>)
    ensures r.Some? <==> forall i :: 0 <= i < |entries| ==> AssignedEntry(persisted, entries[i]).Some?
    ensures r.Some? ==> |r.value| == |entries|
    ensures r.Some? ==> forall i :: 0 <= i < |entries| ==> AssignedEntry(persisted, entries[i]) == Some(r.value[i])
  {
    var out: seq<UsuarioEntry> := [];
    var i := 0;
    while i < |entries|
      invariant 0 <= i <= |entries|
      invariant |out| == i
      invariant forall j :: 0 <= j < i ==> AssignedEntry(persisted, entries[j]) == Some(out[j])
    {
      var e := entries[i];
      if e.state == Added && e.usuarioId == 0 {
        var maxId := MaxPersistedId(persisted);
        if maxId == Int32Max {
          assert AssignedEntry(persisted, entries[i]).None?;
          return None;
        }
        e := e.(usuarioId := maxId + 1);
      }
      out := out + [e];
      i := i + 1;
    }
    return Some(out);
  }
}
