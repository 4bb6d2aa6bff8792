/**
 Clients of the repository, the store and the service that chain several
 calls: what a caller can conclude from the operations' contracts alone.
 */
module Scenarios {

  import opened Wrappers
  import Uuid
  import opened Model
  import opened Errors
  import LocalRepository
  import LocalStore
  import AccountService

  /** A created account is found under the returned key with the input's fields and the assigned identifier and time. */
  method CreateThenGetByID(repository: LocalRepository.AccountRepository, input: AccountCreate, newId: Uuid.Uuid, now: Instant)
    returns (account: Account, err: Option<Error>)
    requires repository.Valid()
    modifies repository
    ensures err == None
    ensures account.id == newId && account.createdAt == now
    ensures account.Fields() == input.Fields()
  {
    var id, createErr := repository.Create(Background, input, newId, now);
    account, err := repository.GetByID(Background, id);
  }

  /** After a successful delete, looking the key up again fails with not found, and the other entries stay. */
  method DeleteThenGetByID(repository: LocalRepository.AccountRepository, id: string)
    returns (deleteErr: Option<Error>, getErr: Option<Error>)
    requires repository.Valid()
    requires id in repository.accounts
    modifies repository
    ensures deleteErr == None
    ensures getErr == Some(NotFound(id))
    ensures forall k :: k in old(repository.accounts) && k != id ==>
      k in repository.accounts && repository.accounts[k] == old(repository.accounts)[k]
  {
    deleteErr := repository.Delete(Background, id);
    var account;
    account, getErr := repository.GetByID(Background, id);
  }

  /** Applying the same update twice leaves the table as applying it once. */
  method UpdateTwice(repository: LocalRepository.AccountRepository, input: Account)
    requires repository.Valid()
    modifies repository
    ensures var key := Uuid.ToString(input.id);
      key in old(repository.accounts) ==>
        repository.accounts == old(repository.accounts)[key := LocalRepository.Merge(old(repository.accounts)[key], input)]
    ensures Uuid.ToString(input.id) !in old(repository.accounts) ==> repository.accounts == old(repository.accounts)
  {
    var first := repository.Update(Background, input);
    var second := repository.Update(Background, input);
    var key := Uuid.ToString(input.id);
    if key in old(repository.accounts) {
      LocalRepository.MergeIdempotent(old(repository.accounts)[key], input);
    }
  }

  /** An update whose ten fields are all empty succeeds on a stored account and changes nothing. */
  method UpdateWithNoFields(repository: LocalRepository.AccountRepository, input: Account)
    returns (err: Option<Error>)
    requires repository.Valid()
    requires Uuid.ToString(input.id) in repository.accounts
    requires LocalRepository.AllFieldsEmpty(input)
    modifies repository
    ensures err == None
    ensures repository.accounts == old(repository.accounts)
  {
    var key := Uuid.ToString(input.id);
    LocalRepository.MergeAllEmptyIsIdentity(repository.accounts[key], input);
    err := repository.Update(Background, input);
  }

  /**
   The life of one account through the service: created with a name and a
   status, renamed by an update that gives only the name, then deleted.
   */
  method Walkthrough(service: AccountService.Service, newId: Uuid.Uuid, now: Instant)
    returns (renamed: Account, afterDelete: Option<Error>)
    requires service.repository.Valid()
    modifies service.repository
    ensures renamed.id == newId && renamed.createdAt == now
    ensures renamed.name == "B" && renamed.status == "active" && renamed.login == ""
    ensures afterDelete == Some(NotFound(Uuid.ToString(newId)))
  {
    var input := AccountCreate("A", "", "", "", "", "", "", "", "", "active");
    var id, err := service.Create(Background, input, newId, now);
    var created;
    created, err := service.GetByID(Background, id);
    assert created.name == "A" && created.status == "active";
    var rename := ZeroAccount.(id := newId, name := "B");
    err := service.Update(Background, rename);
    renamed, err := service.GetByID(Background, id);
    err := service.Delete(Background, id);
    var gone;
    gone, afterDelete := service.GetByID(Background, id);
  }

  /**
   Two calls of `Account()` on a new store give two distinct repositories that
   share no table: what is created through one is not seen through the other.
   */
  method StoreRepositoriesShareNoState(input: AccountCreate, newId: Uuid.Uuid, now: Instant)
    returns (first: LocalRepository.AccountRepository, second: LocalRepository.AccountRepository)
    ensures first != second
    ensures |first.accounts| == 1 && Uuid.ToString(newId) in first.accounts
    ensures second.accounts == map[]
  {
    var store := new LocalStore.Store.New();
    first := store.Account();
    second := store.Account();
    var id, err := first.Create(Background, input, newId, now);
  }
}
