/**
 The in-memory account repository: a table from the textual form of an
 account's identifier to the account, held in one mutable map. Every
 operation first checks whether its context is already done and, if so,
 returns the context's error without touching the table.

 The identifier and the creation time that the program draws from
 `uuid.New()` and `time.Now()` are parameters of `Create` here.
 */
module LocalRepository {

  import opened Wrappers
  import Uuid
  import opened Model
  import opened Errors

  /** The entry under `k` exists and carries the identifier whose textual form is `k`. */
  ghost predicate StoredUnderOwnId(m: map<string, Account>, k: string)
  {
    k in m && Uuid.ToString(m[k].id) == k
  }

  /** Every entry is stored under the textual form of its own identifier. */
  ghost predicate KeyedById(m: map<string, Account>)
  {
    forall k {:trigger StoredUnderOwnId(m, k)} :: k in m ==> StoredUnderOwnId(m, k)
  }

  /** The record `Create` stores: the given identifier and time, and the input's ten fields. */
  function NewAccount(id: Uuid.Uuid, createdAt: Instant, c: AccountCreate): (a: Account)
    ensures a.id == id && a.createdAt == createdAt
    ensures a.Fields() == c.Fields()
  {
    Account(id, c.name, c.accountType, c.login, c.password, c.email, c.emailPassword,
            c.recoveryEmail, c.recoveryEmailPassword, c.cookie, c.status, createdAt)
  }

  /** One field step of a merge: a non-empty input replaces the stored value, an empty one keeps it. */
  function Keep(input: string, stored: string): string
  {
    if input != "" then input else stored
  }

  /**
   The record `Update` stores: the stored record with each non-empty field of
   the input written over it. The identifier and creation time of the stored
   record are kept whatever the input holds.
   */
  function Merge(stored: Account, input: Account): (a: Account)
    ensures a.id == stored.id && a.createdAt == stored.createdAt
  {
    stored.(
      name := Keep(input.name, stored.name),
      accountType := Keep(input.accountType, stored.accountType),
      login := Keep(input.login, stored.login),
      password := Keep(input.password, stored.password),
      email := Keep(input.email, stored.email),
      emailPassword := Keep(input.emailPassword, stored.emailPassword),
      recoveryEmail := Keep(input.recoveryEmail, stored.recoveryEmail),
      recoveryEmailPassword := Keep(input.recoveryEmailPassword, stored.recoveryEmailPassword),
      cookie := Keep(input.cookie, stored.cookie),
      status := Keep(input.status, stored.status))
  }

  /** An update whose ten fields are all empty. */
  predicate AllFieldsEmpty(input: Account)
  {
    forall i :: 0 <= i < FieldCount ==> input.Fields()[i] == ""
  }

  /** Merging an input whose fields are all empty gives back the stored record. */
  lemma MergeAllEmptyIsIdentity(stored: Account, input: Account)
    requires AllFieldsEmpty(input)
    ensures Merge(stored, input) == stored
  {
    var f := input.Fields();
    assert f[0] == f[1] == f[2] == f[3] == f[4] == f[5] == f[6] == f[7] == f[8] == f[9] == "";
    AccountIsIdFieldsAndTime(Merge(stored, input), stored);
  }

  /** Merging the same input a second time changes nothing more. */
  lemma MergeIdempotent(stored: Account, input: Account)
    ensures Merge(Merge(stored, input), input) == Merge(stored, input)
  {
    AccountIsIdFieldsAndTime(Merge(Merge(stored, input), input), Merge(stored, input));
  }

  /** Two merges in a row are one merge of the second input over the first. */
  lemma MergeTwice(stored: Account, first: Account, second: Account)
    ensures Merge(Merge(stored, first), second) == Merge(stored, Merge(first, second))
  {
    AccountIsIdFieldsAndTime(Merge(Merge(stored, first), second), Merge(stored, Merge(first, second)));
  }

  /** Field `i` of a merge is the input's when that is non-empty and the stored one when it is empty. */
  lemma MergeFieldwise(stored: Account, input: Account, i: nat)
    requires i < FieldCount
    ensures input.Fields()[i] != "" ==> Merge(stored, input).Fields()[i] == input.Fields()[i]
    ensures input.Fields()[i] == "" ==> Merge(stored, input).Fields()[i] == stored.Fields()[i]
  {
  }

  /** A record's fields change under a merge only where the input is non-empty and differs. */
  lemma MergeChangesOnlyGivenFields(stored: Account, input: Account, i: nat)
    requires i < FieldCount
    ensures Merge(stored, input).Fields()[i] != stored.Fields()[i]
        <==> input.Fields()[i] != "" && input.Fields()[i] != stored.Fields()[i]
  {
  }

  /**
   In a table keyed by identifier, the record found under the textual form of
   an identifier carries that same identifier, so distinct entries hold
   distinct records.
   */
  lemma {:induction false} KeyedByIdFindsOwnId(m: map<string, Account>, id: Uuid.Uuid)
    requires KeyedById(m)
    requires Uuid.ToString(id) in m
    ensures m[Uuid.ToString(id)].id == id
  {
    assert StoredUnderOwnId(m, Uuid.ToString(id));
    Uuid.ToStringInjective(m[Uuid.ToString(id)].id, id);
  }

  /** Storing a record under the textual form of its own identifier keeps the table keyed by identifier. */
  lemma {:induction false} KeyedByIdStore(m: map<string, Account>, a: Account)
    requires KeyedById(m)
    ensures KeyedById(m[Uuid.ToString(a.id) := a])
  {
    var m' := m[Uuid.ToString(a.id) := a];
    forall k | k in m'
      ensures StoredUnderOwnId(m', k)
    {
      if k != Uuid.ToString(a.id) {
        assert StoredUnderOwnId(m, k);
      }
    }
  }

  /** Removing a key keeps the table keyed by identifier. */
  lemma {:induction false} KeyedByIdRemove(m: map<string, Account>, key: string)
    requires KeyedById(m)
    ensures KeyedById(m - {key})
  {
    var m' := m - {key};
    forall k | k in m'
      ensures StoredUnderOwnId(m', k)
    {
      assert StoredUnderOwnId(m, k);
    }
  }

  /**
   A list read off a table keyed by identifier, one entry per distinct key and
   every key visited, holds every stored record and none of them twice.
   */
  lemma {:induction false} ListedOnce(m: map<string, Account>, list: seq<Account>, keys: seq<string>)
    requires KeyedById(m)
    requires |list| == |keys|
    requires forall i :: 0 <= i < |keys| ==> keys[i] in m && list[i] == m[keys[i]]
    requires forall k :: k in m ==> k in keys
    requires forall i, j :: 0 <= i < j < |keys| ==> keys[i] != keys[j]
    ensures forall k :: k in m ==> m[k] in list
    ensures forall i, j :: 0 <= i < j < |list| ==> list[i] != list[j]
  {
    forall k | k in m
      ensures m[k] in list
    {
      var i :| 0 <= i < |keys| && keys[i] == k;
      assert list[i] == m[k];
    }
    forall i, j | 0 <= i < j < |list|
      ensures list[i] != list[j]
    {
      assert StoredUnderOwnId(m, keys[i]);
      assert StoredUnderOwnId(m, keys[j]);
    }
  }

  class AccountRepository {

    /** The table, keyed by the textual form of each account's identifier. */
    var accounts: map<string, Account>

    ghost predicate Valid()
      reads this
    {
      KeyedById(accounts)
    }

    /** A repository over an empty table. */
    constructor ()
      ensures accounts == map[]
      ensures Valid()
    {
      accounts := map[];
    }

    /**
     Stores a new account with the given identifier and creation time and the
     input's ten fields, and returns the identifier's textual form.
     */
    method Create(ctx: Context, accountCreate: AccountCreate, newId: Uuid.Uuid, now: Instant)
      returns (id: string, err: Option<Error>)
      requires Valid()
      modifies this
      ensures Valid()
      ensures ctx.Done? ==> id == "" && err == Some(ctx.Err()) && accounts == old(accounts)
      ensures !ctx.Done? ==> err == None && id == Uuid.ToString(newId)
      ensures !ctx.Done? ==> accounts == old(accounts)[id := NewAccount(newId, now, accountCreate)]
      ensures !ctx.Done? && id !in old(accounts) ==> |accounts| == |old(accounts)| + 1
    {
      if ctx.Done? {
        return "", Some(ctx.Err());
      }
      var account := NewAccount(newId, now, accountCreate);
      id := Uuid.ToString(newId);
      KeyedByIdStore(accounts, account);
      accounts := accounts[id := account];
      err := None;
    }

    /** Looks an account up by the textual form of its identifier. */
    method GetByID(ctx: Context, id: string) returns (account: Account, err: Option<Error>)
      requires Valid()
      ensures ctx.Done? ==> account == ZeroAccount && err == Some(ctx.Err())
      ensures !ctx.Done? && id in accounts ==> account == accounts[id] && err == None
      ensures !ctx.Done? && id !in accounts ==> account == ZeroAccount && err == Some(NotFound(id))
      ensures err == None ==> Uuid.ToString(account.id) == id
    {
      if ctx.Done? {
        return ZeroAccount, Some(ctx.Err());
      }
      if id !in accounts {
        return ZeroAccount, Some(NotFound(id));
      }
      account := accounts[id];
      assert StoredUnderOwnId(accounts, id);
      err := None;
    }

    /**
     Finds the account stored under the input's identifier and, on a local
     copy, writes each non-empty field of the input over the stored one, one
     field at a time, then stores the copy back.
     */
    method Update(ctx: Context, accountUpdate: Account) returns (err: Option<Error>)
      requires Valid()
      modifies this
      ensures Valid()
      ensures ctx.Done? ==> err == Some(ctx.Err()) && accounts == old(accounts)
      ensures var key := Uuid.ToString(accountUpdate.id);
        !ctx.Done? && key !in old(accounts) ==> err == Some(NotFound(key)) && accounts == old(accounts)
      ensures var key := Uuid.ToString(accountUpdate.id);
        !ctx.Done? && key in old(accounts) ==>
          && err == None
          && accounts == old(accounts)[key := Merge(old(accounts)[key], accountUpdate)]
          && accounts[key].id == accountUpdate.id
    {
      if ctx.Done? {
        return Some(ctx.Err());
      }
      var strId := Uuid.ToString(accountUpdate.id);
      if strId !in accounts {
        return Some(NotFound(strId));
      }
      var account := accounts[strId];
      account := account.(name := Keep(accountUpdate.name, account.name));
      account := account.(accountType := Keep(accountUpdate.accountType, account.accountType));
      account := account.(login := Keep(accountUpdate.login, account.login));
      account := account.(password := Keep(accountUpdate.password, account.password));
      account := account.(email := Keep(accountUpdate.email, account.email));
      account := account.(emailPassword := Keep(accountUpdate.emailPassword, account.emailPassword));
      account := account.(recoveryEmail := Keep(accountUpdate.recoveryEmail, account.recoveryEmail));
      account := account.(recoveryEmailPassword := Keep(accountUpdate.recoveryEmailPassword, account.recoveryEmailPassword));
      account := account.(cookie := Keep(accountUpdate.cookie, account.cookie));
      account := account.(status := Keep(accountUpdate.status, account.status));
      KeyedByIdFindsOwnId(accounts, accountUpdate.id);
      KeyedByIdStore(accounts, account);
      accounts := accounts[strId := account];
      err := None;
    }

    /** Removes the account stored under the given key. */
    method Delete(ctx: Context, id: string) returns (err: Option<Error>)
      requires Valid()
      modifies this
      ensures Valid()
      ensures ctx.Done? ==> err == Some(ctx.Err()) && accounts == old(accounts)
      ensures !ctx.Done? && id !in old(accounts) ==> err == Some(NotFound(id)) && accounts == old(accounts)
      ensures !ctx.Done? && id in old(accounts) ==>
        && err == None
        && accounts == old(accounts) - {id}
        && |accounts| == |old(accounts)| - 1
    {
      if ctx.Done? {
        return Some(ctx.Err());
      }
      if id !in accounts {
        return Some(NotFound(id));
      }
      KeyedByIdRemove(accounts, id);
      accounts := accounts - {id};
      err := None;
    }

    /**
     Lists every stored account exactly once, in no particular order: each
     pass of the loop takes any key not yet visited.
     */
    method GetAll(ctx: Context) returns (list: seq<Account>, err: Option<Error>)
      requires Valid()
      ensures ctx.Done? ==> list == [] && err == Some(ctx.Err())
      ensures !ctx.Done? ==> err == None && |list| == |accounts|
      ensures !ctx.Done? ==> forall i :: 0 <= i < |list| ==> list[i] in accounts.Values
      ensures !ctx.Done? ==> forall k :: k in accounts ==> accounts[k] in list
      ensures forall i, j :: 0 <= i < j < |list| ==> list[i] != list[j]
    {
      if ctx.Done? {
        return [], Some(ctx.Err());
      }
      list := [];
      var unvisited := accounts.Keys;
      ghost var visited: seq<string> := [];
      while unvisited != {}
        invariant unvisited <= accounts.Keys
        invariant |list| == |visited|
        invariant |visited| + |unvisited| == |accounts.Keys|
        invariant forall i :: 0 <= i < |visited| ==>
          visited[i] in accounts && visited[i] !in unvisited && list[i] == accounts[visited[i]]
        invariant forall k :: k in accounts && k !in unvisited ==> k in visited
        invariant forall i, j :: 0 <= i < j < |visited| ==> visited[i] != visited[j]
        decreases unvisited
      {
        var key :| key in unvisited;
        list := list + [accounts[key]];
        visited := visited + [key];
        unvisited := unvisited - {key};
      }
      ListedOnce(accounts, list, visited);
      err := None;
    }
  }
}
