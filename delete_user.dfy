/**
 * `DeleteUserCommandHandler.Handle`: remove the user with the id. Every
 * failure, the missing user included, is wrapped in one `ApplicationException`.
 */
module DeleteUser {
  import opened Wrappers
  import opened Guids
  import opened Domain
  import opened Exceptions
  import opened Store

  const DeleteFailed := "Une erreur est survenue lors de la suppression de l'utilisateur."

  function Handle(rows: seq<User>, id: Guid, fault: StoreFault): (s: Step<Unit>)
    ensures s.result.Ok? <==> fault == Healthy && HasId(rows, id)
    ensures s.result.Ok? ==> s.writes == [DeleteRow(id)]
    ensures s.result.Err? ==> s == Step(Err(Application(DeleteFailed)), [])
  {
    if fault == ReadFails then Step(Err(Application(DeleteFailed)), [])
    else match FindById(rows, id)
      case None => Step(Err(Application(DeleteFailed)), [])
      case Some(user) => Persist(rows, fault, DeleteRow(user.id), Unit, Application(DeleteFailed))
  }

  method Run(store: UserStore, id: Guid) returns (r: Outcome<Unit>)
    modifies store
    ensures var s := Handle(old(store.rows), id, store.fault);
            && r == s.result
            && store.rows == ApplyAll(old(store.rows), s.writes)
            && store.log == old(store.log) + s.writes
    ensures old(store.Valid()) ==> store.Valid()
  {
    var found := store.GetById(id);
    if found.Err? || found.value.None? {
      return Err(Application(DeleteFailed));
    }
    var saved := store.DeleteById(found.value.value.id);
    if saved.Err? {
      return Err(Application(DeleteFailed));
    }
    return Ok(Unit);
  }

  /** A successful delete removes exactly the user with the id and keeps every other row. */
  lemma DeleteRemovesOnlyThatUser(rows: seq<User>, id: Guid, fault: StoreFault)
    requires Handle(rows, id, fault).result.Ok?
    ensures var after := ApplyAll(rows, Handle(rows, id, fault).writes);
            && !HasId(after, id)
            && (forall u | u in rows && u.id != id :: u in after)
            && (forall u | u in after :: u in rows)
            && (UniqueKeys(rows) ==> UniqueKeys(after) && |after| == |rows| - 1)
  {
    ApplyAllSingle(rows, DeleteRow(id));
    RemoveDeletesOnlyThatRow(rows, id);
    if UniqueKeys(rows) {
      RemoveKeepsKeys(rows, id);
    }
  }
}
