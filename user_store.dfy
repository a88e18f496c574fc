/**
 * The `Users` table behind `IUserRepository`, with the two keys the database
 * enforces: the primary key `Id` and the unique index `Users_Email_key` on
 * `Email`. Rows are kept in the order the table returns them, which is what
 * `FirstOrDefault` and `ToList` observe.
 */
module Store {
  import opened Wrappers
  import opened Guids
  import opened Domain
  import opened Exceptions

  /** The position of the first row satisfying `p`, as `FirstOrDefault` finds it. */
  function FirstIndex(rows: seq<User>, p: User -> bool): (r: Option<nat>)
    ensures r.Some? ==> r.value < |rows| && p(rows[r.value])
    ensures r.Some? ==> forall j | 0 <= j < r.value :: !p(rows[j])
    ensures r.None? ==> forall j | 0 <= j < |rows| :: !p(rows[j])
  {
    if |rows| == 0 then None
    else if p(rows[0]) then Some(0)
    else match FirstIndex(rows[1..], p)
      case None => None
      case Some(i) => Some(i + 1)
  }

  function First(rows: seq<User>, p: User -> bool): (r: Option<User>)
    ensures r.Some? <==> exists i | 0 <= i < |rows| :: p(rows[i])
    ensures r.Some? ==> r.value in rows && p(r.value)
  {
    match FirstIndex(rows, p)
    case None => None
    case Some(i) => Some(rows[i])
  }

  /** `GetById` (`FindAsync` on the primary key). */
  function FindById(rows: seq<User>, id: Guid): (r: Option<User>)
    ensures r.Some? <==> exists i | 0 <= i < |rows| :: rows[i].id == id
    ensures r.Some? ==> r.value in rows && r.value.id == id
  {
    First(rows, (u: User) => u.id == id)
  }

  /** `GetByEmail`: the first row whose `Email` is ordinally equal to `email`. */
  function FindByEmail(rows: seq<User>, email: string): (r: Option<User>)
    ensures r.Some? <==> exists i | 0 <= i < |rows| :: rows[i].email == email
    ensures r.Some? ==> r.value in rows && r.value.email == email
  {
    First(rows, (u: User) => u.email == email)
  }

  /** `GetByUsername`: the first row whose `UserName` is ordinally equal to `userName`. */
  function FindByUserName(rows: seq<User>, userName: string): (r: Option<User>)
    ensures r.Some? <==> exists i | 0 <= i < |rows| :: rows[i].userName == userName
    ensures r.Some? ==> r.value in rows && r.value.userName == userName
  {
    First(rows, (u: User) => u.userName == userName)
  }

  predicate HasId(rows: seq<User>, id: Guid) {
    exists i | 0 <= i < |rows| :: rows[i].id == id
  }

  predicate HasEmail(rows: seq<User>, email: string) {
    exists i | 0 <= i < |rows| :: rows[i].email == email
  }

  /** The table's keys: no two rows share an `Id` or an `Email`. */
  predicate UniqueKeys(rows: seq<User>) {
    forall i, j | 0 <= i < j < |rows| :: rows[i].id != rows[j].id && rows[i].email != rows[j].email
  }

  /** The `HasMaxLength` widths of `OnModelCreating`; PostgreSQL refuses a
      longer value for a `character varying(n)` column. */
  const EmailWidth: nat := 256
  const UserNameWidth: nat := 100
  const PersonNameWidth: nat := 100
  const PasswordHashWidth: nat := 512

  predicate FitsWidth(v: Option<string>, width: nat) {
    v.Some? ==> |v.value| <= width
  }

  /** Every bounded column of the row is within its width. */
  predicate FitsColumns(u: User) {
    && |u.email| <= EmailWidth && |u.userName| <= UserNameWidth
    && FitsWidth(u.firstName, PersonNameWidth) && FitsWidth(u.lastName, PersonNameWidth)
    && |u.passwordHash| <= PasswordHashWidth
  }

  /** What the table can hold: unique keys, and every row within the column widths. */
  predicate Stored(rows: seq<User>) {
    UniqueKeys(rows) && forall u | u in rows :: FitsColumns(u)
  }

  /** One `SaveChanges` issued by `Update`, `Register` or `Delete`. */
  datatype Write = UpdateRow(user: User) | InsertRow(user: User) | DeleteRow(id: Guid)

  /** Whether the database accepts the write: an updated or deleted row must
      exist, neither key may collide with another row, and a written row must
      fit the column widths. */
  predicate Accepts(rows: seq<User>, w: Write) {
    match w
    case UpdateRow(u) =>
      && FitsColumns(u)
      && HasId(rows, u.id) && forall i | 0 <= i < |rows| :: rows[i].id != u.id ==> rows[i].email != u.email
    case InsertRow(u) => FitsColumns(u) && !HasId(rows, u.id) && !HasEmail(rows, u.email)
    case DeleteRow(id) => HasId(rows, id)
  }

  /** Rows with `u`'s key replaced by `u`. */
  function Replace(rows: seq<User>, u: User): (r: seq<User>)
    ensures |r| == |rows|
    ensures forall i | 0 <= i < |rows| :: r[i] == (if rows[i].id == u.id then u else rows[i])
  {
    seq(|rows|, i requires 0 <= i < |rows| => if rows[i].id == u.id then u else rows[i])
  }

  /** Rows without the row whose key is `id`, order kept. */
  function Remove(rows: seq<User>, id: Guid): (r: seq<User>)
    ensures forall u :: u in r <==> u in rows && u.id != id
    ensures |r| <= |rows|
  {
    if rows == [] then []
    else if rows[0].id == id then Remove(rows[1..], id)
    else [rows[0]] + Remove(rows[1..], id)
  }

  function Apply(rows: seq<User>, w: Write): seq<User> {
    match w
    case UpdateRow(u) => Replace(rows, u)
    case InsertRow(u) => rows + [u]
    case DeleteRow(id) => Remove(rows, id)
  }

  function ApplyAll(rows: seq<User>, ws: seq<Write>): seq<User>
    decreases |ws|
  {
    if ws == [] then rows else ApplyAll(Apply(rows, ws[0]), ws[1..])
  }

  lemma ApplyAllSingle(rows: seq<User>, w: Write)
    ensures ApplyAll(rows, [w]) == Apply(rows, w)
  {
    assert [w][1..] == [];
  }

  /** The health of the database during one request: every read throws, every
      write throws, or neither. */
  datatype StoreFault = Healthy | ReadFails | WriteFails

  /** What a handler does to the table: its outcome and the writes it committed, in order. */
  datatype Step<T> = Step(result: Outcome<T>, writes: seq<Write>)

  /** `await _userRepository.Update/Register/Delete(...)` followed by `return`:
      the write is committed and `value` returned, or the write throws and
      `failure` (the handler's wrapping of that exception) is raised. */
  function Persist<T>(rows: seq<User>, fault: StoreFault, w: Write, value: T, failure: Exn): (s: Step<T>)
    ensures s.result.Ok? <==> fault != WriteFails && Accepts(rows, w)
    ensures s.result.Ok? ==> s == Step(Ok(value), [w])
    ensures s.result.Err? ==> s == Step(Err(failure), [])
  {
    if fault == WriteFails || !Accepts(rows, w) then Step(Err(failure), []) else Step(Ok(value), [w])
  }

  // ---- Properties of the table ----

  lemma {:induction false} UniqueIndexKeepsKeys(rows: seq<User>, w: Write)
    requires UniqueKeys(rows) && Accepts(rows, w)
    ensures UniqueKeys(Apply(rows, w))
  {
    match w
    case UpdateRow(u) =>
    case InsertRow(u) =>
    case DeleteRow(id) => RemoveKeepsKeys(rows, id);
  }

  /** An accepted write keeps the table within what it can hold. */
  lemma StoredKept(rows: seq<User>, w: Write)
    requires Stored(rows) && Accepts(rows, w)
    ensures Stored(Apply(rows, w))
  {
    UniqueIndexKeepsKeys(rows, w);
    match w
    case UpdateRow(u) =>
      var r := Replace(rows, u);
      forall v | v in r ensures FitsColumns(v) {
        var i :| 0 <= i < |r| && r[i] == v;
      }
    case InsertRow(u) =>
    case DeleteRow(id) =>
  }

  lemma {:induction false} RemoveKeepsKeys(rows: seq<User>, id: Guid)
    requires UniqueKeys(rows)
    ensures UniqueKeys(Remove(rows, id))
    ensures |Remove(rows, id)| == |rows| - (if HasId(rows, id) then 1 else 0)
  {
    if rows != [] {
      RemoveKeepsKeys(rows[1..], id);
      if rows[0].id != id {
        RemoveKeepsHeadApart(rows, id);
        assert !HasId(rows[1..], id) ==> !HasId(rows, id);
      } else {
        assert !HasId(rows[1..], id);
      }
    }
  }

  /** No row of `rows` shares a key with `head`. */
  predicate KeysApart(rows: seq<User>, head: User) {
    forall j | 0 <= j < |rows| :: rows[j].id != head.id && rows[j].email != head.email
  }

  /** Removing from the tail keeps the head's keys apart from what remains. */
  lemma RemoveKeepsHeadApart(rows: seq<User>, id: Guid)
    requires UniqueKeys(rows) && rows != [] && rows[0].id != id && UniqueKeys(Remove(rows[1..], id))
    ensures UniqueKeys(Remove(rows, id))
  {
    assert forall j | 0 <= j < |rows[1..]| :: rows[1..][j] == rows[j + 1];
    assert KeysApart(rows[1..], rows[0]);
    RemoveKeepsApart(rows[1..], id, rows[0]);
    ConsKeepsKeys(rows[0], Remove(rows[1..], id));
  }

  lemma {:induction false} RemoveKeepsApart(rows: seq<User>, id: Guid, head: User)
    requires KeysApart(rows, head)
    ensures KeysApart(Remove(rows, id), head)
  {
    if rows != [] {
      assert KeysApart(rows[1..], head);
      RemoveKeepsApart(rows[1..], id, head);
    }
  }

  lemma ConsKeepsKeys(head: User, rows: seq<User>)
    requires UniqueKeys(rows) && KeysApart(rows, head)
    ensures UniqueKeys([head] + rows)
  {
    var r := [head] + rows;
    forall i, j | 0 <= i < j < |r| ensures r[i].id != r[j].id && r[i].email != r[j].email {
      assert r[j] == rows[j - 1];
      if i > 0 {
        assert r[i] == rows[i - 1];
      }
    }
  }

  /** A row whose key is present is what `FindById` returns, when keys are unique. */
  lemma FindByIdIn(rows: seq<User>, u: User)
    requires u in rows
    ensures UniqueKeys(rows) ==> FindById(rows, u.id) == Some(u)
  {
  }

  /** Removing an id no row has leaves the table as it is. */
  lemma {:induction false} RemoveAbsent(rows: seq<User>, id: Guid)
    requires !HasId(rows, id)
    ensures Remove(rows, id) == rows
  {
    if rows != [] {
      assert !HasId(rows[1..], id) by {
        assert forall i | 0 <= i < |rows[1..]| :: rows[1..][i] == rows[i + 1];
      }
      RemoveAbsent(rows[1..], id);
      assert [rows[0]] + rows[1..] == rows;
    }
  }

  /** The same for the unique e-mail index. */
  lemma FindByEmailIn(rows: seq<User>, u: User)
    requires u in rows
    ensures UniqueKeys(rows) ==> FindByEmail(rows, u.email) == Some(u)
  {
  }

  /** An update that keeps the e-mail of an existing row, and fits the
      columns, is accepted by a table with unique keys. */
  lemma UpdateKeepingEmailAccepted(rows: seq<User>, old_: User, u: User)
    requires old_ in rows && u.id == old_.id && u.email == old_.email
    ensures UniqueKeys(rows) && FitsColumns(u) ==> Accepts(rows, UpdateRow(u))
  {
  }

  /** The bounded columns of `b` are those of `a`. */
  predicate SameBoundedColumns(a: User, b: User) {
    && a.email == b.email && a.userName == b.userName && a.firstName == b.firstName
    && a.lastName == b.lastName && a.passwordHash == b.passwordHash
  }

  /** An update that touches no bounded column of a stored row is accepted. */
  lemma UpdateKeepingColumnsAccepted(rows: seq<User>, old_: User, u: User)
    requires old_ in rows && u.id == old_.id && SameBoundedColumns(old_, u)
    ensures Stored(rows) ==> Accepts(rows, UpdateRow(u))
  {
  }

  /** After an update, the key finds the new row and every other key finds what it found before. */
  lemma {:induction false} FindAfterReplace(rows: seq<User>, u: User, id: Guid)
    requires UniqueKeys(rows) && Accepts(rows, UpdateRow(u))
    ensures FindById(Replace(rows, u), id) == if id == u.id then Some(u) else FindById(rows, id)
  {
    var r := Replace(rows, u);
    UniqueIndexKeepsKeys(rows, UpdateRow(u));
    if id == u.id {
      var i :| 0 <= i < |rows| && rows[i].id == u.id;
      FindByIdIn(r, r[i]);
    } else if FindById(rows, id).Some? {
      var v := FindById(rows, id).value;
      var i :| 0 <= i < |rows| && rows[i] == v;
      FindByIdIn(rows, v);
      FindByIdIn(r, r[i]);
    } else {
      assert forall i | 0 <= i < |r| :: r[i].id != id;
    }
  }

  /** E-mail lookups after an update that keeps the row's e-mail. */
  lemma {:induction false} FindByEmailAfterReplace(rows: seq<User>, u: User, email: string)
    requires UniqueKeys(rows) && Accepts(rows, UpdateRow(u))
    requires FindById(rows, u.id).Some? && FindById(rows, u.id).value.email == u.email
    ensures FindByEmail(Replace(rows, u), email) == if email == u.email then Some(u) else FindByEmail(rows, email)
  {
    var r := Replace(rows, u);
    UniqueIndexKeepsKeys(rows, UpdateRow(u));
    var k :| 0 <= k < |rows| && rows[k].id == u.id;
    FindByIdIn(rows, rows[k]);
    assert rows[k].email == u.email && r[k] == u;
    if email == u.email {
      FindByEmailIn(r, r[k]);
    } else if FindByEmail(rows, email).Some? {
      var v := FindByEmail(rows, email).value;
      var i :| 0 <= i < |rows| && rows[i] == v;
      assert i != k && rows[i].id != u.id;
      assert r[i] == v;
      FindByEmailIn(rows, v);
      FindByEmailIn(r, v);
    } else {
      forall i | 0 <= i < |r| ensures r[i].email != email {
        assert rows[i].email != email;
      }
    }
  }

  /** Writing back an unchanged row leaves the table as it was. */
  lemma ReplaceSame(rows: seq<User>, u: User)
    requires UniqueKeys(rows) && u in rows
    ensures Replace(rows, u) == rows
  {
  }

  /** After a delete no row has the key, and every other row is still there. */
  lemma RemoveDeletesOnlyThatRow(rows: seq<User>, id: Guid)
    ensures !HasId(Remove(rows, id), id)
    ensures forall u | u in rows && u.id != id :: u in Remove(rows, id)
  {
  }

  /**
   * The repository over one database connection. `fault` is the health of the
   * database for the request; `log` records the writes committed so far.
   */
  class UserStore {
    var rows: seq<User>
    const fault: StoreFault
    ghost var log: seq<Write>

    ghost predicate Valid()
      reads this
    {
      Stored(rows)
    }

    constructor (initial: seq<User>, fault: StoreFault)
      ensures rows == initial && this.fault == fault && log == []
    {
      rows := initial;
      this.fault := fault;
      log := [];
    }

    method GetById(id: Guid) returns (r: Outcome<Option<User>>)
      ensures r == if fault == ReadFails then Err(Infrastructure) else Ok(FindById(rows, id))
    {
      if fault == ReadFails {
        return Err(Infrastructure);
      }
      return Ok(FindById(rows, id));
    }

    method GetByEmail(email: string) returns (r: Outcome<Option<User>>)
      ensures r == if fault == ReadFails then Err(Infrastructure) else Ok(FindByEmail(rows, email))
    {
      if fault == ReadFails {
        return Err(Infrastructure);
      }
      return Ok(FindByEmail(rows, email));
    }

    /** `SaveChanges` after `Update`, `Register` or `Delete`: committed when the
        database is writable and the keys allow it, otherwise nothing changes. */
    method Save(w: Write) returns (r: Outcome<Unit>)
      modifies this
      ensures r.Ok? <==> fault != WriteFails && Accepts(old(rows), w)
      ensures r.Ok? ==> rows == Apply(old(rows), w) && log == old(log) + [w]
      ensures r.Err? ==> r.error == Infrastructure && rows == old(rows) && log == old(log)
      ensures old(Valid()) ==> Valid()
    {
      if fault == WriteFails || !Accepts(rows, w) {
        return Err(Infrastructure);
      }
      if Stored(rows) {
        StoredKept(rows, w);
      }
      rows := Apply(rows, w);
      log := log + [w];
      return Ok(Unit);
    }

    /** `DeleteById`: look the row up, and only when it exists remove it and
        save; an absent id returns normally and touches nothing. */
    method DeleteById(id: Guid) returns (r: Outcome<Unit>)
      modifies this
      ensures r.Err? <==> fault == ReadFails || (fault == WriteFails && HasId(old(rows), id))
      ensures r.Err? ==> r.error == Infrastructure && rows == old(rows) && log == old(log)
      ensures r.Ok? ==> rows == Remove(old(rows), id)
      ensures r.Ok? && HasId(old(rows), id) ==> log == old(log) + [DeleteRow(id)]
      ensures r.Ok? && !HasId(old(rows), id) ==> rows == old(rows) && log == old(log)
      ensures old(Valid()) ==> Valid()
    {
      var found := GetById(id);
      if found.Err? {
        return Err(found.error);
      }
      if found.value.None? {
        RemoveAbsent(rows, id);
        return Ok(Unit);
      }
      r := Save(DeleteRow(id));
    }
  }
}
