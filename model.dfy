/**
 The records exchanged with and stored by the account repository: the
 stored `Account`, the creation input `AccountCreate` and the update input
 `AccountUpdate`. Each carries the same ten free-form string fields; only
 `Account` has an identifier and a creation time, which the repository
 assigns.
 */
module Model {

  import Uuid

  /** An instant of time, in nanoseconds since Go's zero time (January 1, year 1, UTC). */
  datatype Instant = Instant(nanos: int)

  /** The zero value of a time, which `time.Now()` never returns. */
  const ZeroTime: Instant := Instant(0)

  /** The number of free-form string fields of an account. */
  const FieldCount: nat := 10

  datatype Account = Account(
    id: Uuid.Uuid,
    name: string,
    accountType: string,
    login: string,
    password: string,
    email: string,
    emailPassword: string,
    recoveryEmail: string,
    recoveryEmailPassword: string,
    cookie: string,
    status: string,
    createdAt: Instant)
  {
    /** The ten string fields, in declaration order. */
    function Fields(): (fs: seq<string>)
      ensures |fs| == FieldCount
    {
      [name, accountType, login, password, email, emailPassword,
       recoveryEmail, recoveryEmailPassword, cookie, status]
    }
  }

  datatype AccountCreate = AccountCreate(
    name: string,
    accountType: string,
    login: string,
    password: string,
    email: string,
    emailPassword: string,
    recoveryEmail: string,
    recoveryEmailPassword: string,
    cookie: string,
    status: string)
  {
    /** The ten string fields, in the same order as `Account.Fields`. */
    function Fields(): (fs: seq<string>)
      ensures |fs| == FieldCount
    {
      [name, accountType, login, password, email, emailPassword,
       recoveryEmail, recoveryEmailPassword, cookie, status]
    }
  }

  datatype AccountUpdate = AccountUpdate(
    name: string,
    accountType: string,
    login: string,
    password: string,
    email: string,
    emailPassword: string,
    recoveryEmail: string,
    recoveryEmailPassword: string,
    cookie: string,
    status: string)
  {
    /** The ten string fields, in the same order as `Account.Fields`. */
    function Fields(): (fs: seq<string>)
      ensures |fs| == FieldCount
    {
      [name, accountType, login, password, email, emailPassword,
       recoveryEmail, recoveryEmailPassword, cookie, status]
    }
  }

  /** `Account{}`: the nil UUID, ten empty strings and the zero time. */
  const ZeroAccount: Account :=
    Account(Uuid.Nil, "", "", "", "", "", "", "", "", "", "", ZeroTime)

  /** An account is its identifier, its ten string fields and its creation time, and nothing more. */
  lemma AccountIsIdFieldsAndTime(a: Account, b: Account)
    ensures a == b <==> a.id == b.id && a.Fields() == b.Fields() && a.createdAt == b.createdAt
  {
    if a.Fields() == b.Fields() {
      assert a.name == a.Fields()[0] == b.Fields()[0] == b.name;
    }
  }

  /** A creation input is its ten string fields and nothing more: it has no identifier or time a caller could choose. */
  lemma AccountCreateIsFields(c: AccountCreate, d: AccountCreate)
    ensures c == d <==> c.Fields() == d.Fields()
  {
    if c.Fields() == d.Fields() {
      assert c.name == c.Fields()[0] == d.Fields()[0] == d.name;
    }
  }

  /** An update input is its ten string fields and nothing more. */
  lemma AccountUpdateIsFields(u: AccountUpdate, v: AccountUpdate)
    ensures u == v <==> u.Fields() == v.Fields()
  {
    if u.Fields() == v.Fields() {
      assert u.name == u.Fields()[0] == v.Fields()[0] == v.name;
    }
  }

  /** The zero account has the nil identifier, only empty fields and the zero time. */
  lemma ZeroAccountIsEmpty()
    ensures ZeroAccount.id == Uuid.Nil && ZeroAccount.createdAt == ZeroTime
    ensures forall i :: 0 <= i < FieldCount ==> ZeroAccount.Fields()[i] == ""
  {
  }
}
