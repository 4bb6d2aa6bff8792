/**
 The account service: each operation forwards to the repository it holds and
 hands back the repository's result and error unchanged. On failure, GetAll
 returns an empty list (Go's nil slice) and GetByID the zero account; Create
 passes on whatever identifier the repository returned. The service keeps no
 state of its own.
 */
module AccountService {

  import opened Wrappers
  import Uuid
  import opened Model
  import opened Errors
  import LocalRepository

  class Service {

    /** The repository every call is forwarded to; it is never reassigned. */
    const repository: LocalRepository.AccountRepository

    constructor (repository: LocalRepository.AccountRepository)
      ensures this.repository == repository
    {
      this.repository := repository;
    }

    method Create(ctx: Context, account: AccountCreate, newId: Uuid.Uuid, now: Instant)
      returns (id: string, err: Option<Error>)
      requires repository.Valid()
      modifies repository
      ensures repository.Valid()
      ensures ctx.Done? ==> id == "" && err == Some(ctx.Err()) && repository.accounts == old(repository.accounts)
      ensures !ctx.Done? ==> err == None && id == Uuid.ToString(newId)
      ensures !ctx.Done? ==>
        repository.accounts == old(repository.accounts)[id := LocalRepository.NewAccount(newId, now, account)]
    {
      id, err := repository.Create(ctx, account, newId, now);
      if err.Some? {
        return id, err;
      }
      return id, None;
    }

    method GetAll(ctx: Context) returns (accounts: seq<Account>, err: Option<Error>)
      requires repository.Valid()
      ensures ctx.Done? ==> accounts == [] && err == Some(ctx.Err())
      ensures !ctx.Done? ==> err == None && |accounts| == |repository.accounts|
      ensures !ctx.Done? ==> forall i :: 0 <= i < |accounts| ==> accounts[i] in repository.accounts.Values
      ensures !ctx.Done? ==> forall k :: k in repository.accounts ==> repository.accounts[k] in accounts
      ensures forall i, j :: 0 <= i < j < |accounts| ==> accounts[i] != accounts[j]
    {
      accounts, err := repository.GetAll(ctx);
      if err.Some? {
        return [], err;
      }
      return accounts, None;
    }

    method GetByID(ctx: Context, id: string) returns (account: Account, err: Option<Error>)
      requires repository.Valid()
      ensures ctx.Done? ==> account == ZeroAccount && err == Some(ctx.Err())
      ensures !ctx.Done? && id in repository.accounts ==> account == repository.accounts[id] && err == None
      ensures !ctx.Done? && id !in repository.accounts ==> account == ZeroAccount && err == Some(NotFound(id))
    {
      account, err := repository.GetByID(ctx, id);
      if err.Some? {
        return ZeroAccount, err;
      }
      return account, None;
    }

    method Update(ctx: Context, account: Account) returns (err: Option<Error>)
      requires repository.Valid()
      modifies repository
      ensures repository.Valid()
      ensures ctx.Done? ==> err == Some(ctx.Err()) && repository.accounts == old(repository.accounts)
      ensures var key := Uuid.ToString(account.id);
        !ctx.Done? && key !in old(repository.accounts) ==>
          err == Some(NotFound(key)) && repository.accounts == old(repository.accounts)
      ensures var key := Uuid.ToString(account.id);
        !ctx.Done? && key in old(repository.accounts) ==>
          && err == None
          && repository.accounts ==
               old(repository.accounts)[key := LocalRepository.Merge(old(repository.accounts)[key], account)]
    {
      err := repository.Update(ctx, account);
      if err.Some? {
        return err;
      }
      return None;
    }

    method Delete(ctx: Context, id: string) returns (err: Option<Error>)
      requires repository.Valid()
      modifies repository
      ensures repository.Valid()
      ensures ctx.Done? ==> err == Some(ctx.Err()) && repository.accounts == old(repository.accounts)
      ensures !ctx.Done? && id !in old(repository.accounts) ==>
        err == Some(NotFound(id)) && repository.accounts == old(repository.accounts)
      ensures !ctx.Done? && id in old(repository.accounts) ==>
        err == None && repository.accounts == old(repository.accounts) - {id}
    {
      err := repository.Delete(ctx, id);
      if err.Some? {
        return err;
      }
      return None;
    }
  }
}
