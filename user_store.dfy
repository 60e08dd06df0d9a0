/**
 * The `User` table as the dashboard layout uses it through the Prisma client:
 * a point lookup by the unique `email` column and a single-row insert.
 * The table is a map from email to row, so email uniqueness holds by
 * construction once every row sits under its own email.
 */
module UserStore {
  import opened Wrappers

  /** A row of the User table, with the columns this core writes. */
  datatype User = User(id: string, email: string, name: string)

  /** The unique columns an insert can collide on. */
  datatype Key = EmailKey | IdKey

  /** Why a store call throws. */
  datatype DbError = Unavailable | UniqueViolation(key: Key)

  /** One round trip to the store, as recorded in the table's call log. */
  datatype Call = Lookup(email: string) | Insert(row: User)

  /** The outcome of an insert together with the table afterwards. */
  datatype Created = Created(result: Result<User, DbError>, users: map<string, User>)

  /** Every row sits under its own email, and no two rows share an id. */
  ghost predicate TableValid(m: map<string, User>)
  {
    && (forall e :: e in m ==> m[e].email == e)
    && (forall e1, e2 :: e1 in m && e2 in m && m[e1].id == m[e2].id ==> e1 == e2)
  }

  /** The ids in use. */
  function Ids(m: map<string, User>): (ids: set<string>)
    ensures forall e :: e in m ==> m[e].id in ids
    ensures forall id :: id in ids ==> exists e :: e in m && m[e].id == id
  {
    set e | e in m :: m[e].id
  }

  /** `findUnique({ where: { email } })`: the row under `email`, if any, or a throw when the store is unreachable. */
  function FindResult(m: map<string, User>, email: string, up: bool): (r: Result<Option<User>, DbError>)
    ensures r.Failure? <==> !up
    ensures r.Failure? ==> r.error == Unavailable
    ensures r.Success? ==> (r.value.Some? <==> email in m)
    ensures r.Success? && r.value.Some? ==> r.value.value == m[email]
    ensures TableValid(m) && r.Success? && r.value.Some? ==> r.value.value.email == email
  {
    if !up then Failure(Unavailable)
    else if email in m then Success(Some(m[email]))
    else Success(None)
  }

  /**
   * `create({ data: row })`: succeeds, adding exactly `row`, iff the store is
   * reachable and neither the email nor the id is taken; otherwise throws and
   * leaves the table as it was.
   */
  function CreateResult(m: map<string, User>, row: User, up: bool): (r: Created)
    ensures r.result.Success? <==> up && row.email !in m && row.id !in Ids(m)
    ensures r.result.Success? ==> r.result.value == row && r.users == m[row.email := row]
    ensures r.result.Success? ==> |r.users| == |m| + 1
    ensures r.result.Failure? ==> r.users == m
    ensures r.result.Failure? && up ==> r.result.error.UniqueViolation?
    ensures TableValid(m) ==> TableValid(r.users)
  {
    if !up then Created(Failure(Unavailable), m)
    else if row.email in m then Created(Failure(UniqueViolation(EmailKey)), m)
    else if row.id in Ids(m) then Created(Failure(UniqueViolation(IdKey)), m)
    else Created(Success(row), m[row.email := row])
  }

  /** The `prisma.user` delegate: the table's rows and a log of the calls made to it. */
  class UserTable {
    var users: map<string, User>
    ghost var calls: seq<Call>

    ghost predicate Valid()
      reads this
    {
      TableValid(users)
    }

    constructor (rows: map<string, User>)
      requires TableValid(rows)
      ensures Valid() && users == rows && calls == []
    {
      users := rows;
      calls := [];
    }

    /** A point lookup on the unique email column; it never writes. */
    method FindUnique(email: string, up: bool) returns (r: Result<Option<User>, DbError>)
      modifies this`calls
      ensures users == old(users) && calls == old(calls) + [Lookup(email)]
      ensures r == FindResult(users, email, up)
    {
      calls := calls + [Lookup(email)];
      if !up {
        return Failure(Unavailable);
      }
      if email in users {
        return Success(Some(users[email]));
      }
      return Success(None);
    }

    /** A single-row insert, rejected when a unique column collides. */
    method Create(row: User, up: bool) returns (r: Result<User, DbError>)
      requires Valid()
      modifies this
      ensures Valid()
      ensures calls == old(calls) + [Insert(row)]
      ensures Created(r, users) == CreateResult(old(users), row, up)
    {
      calls := calls + [Insert(row)];
      if !up {
        return Failure(Unavailable);
      }
      if row.email in users {
        return Failure(UniqueViolation(EmailKey));
      }
      if row.id in Ids(users) {
        return Failure(UniqueViolation(IdKey));
      }
      users := users[row.email := row];
      return Success(row);
    }
  }
}
