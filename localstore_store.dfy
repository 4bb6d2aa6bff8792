/**
 The in-memory store: it hands out the account repository. `Account()` has a
 value receiver, so it never records the repository it builds; a store whose
 repository slot is empty builds a new, empty repository on every call.
 */
module LocalStore {

  import LocalRepository

  class Store {

    /** The cached repository, nil unless something set it. */
    var accountRepository: LocalRepository.AccountRepository?

    /** A store with no cached repository. */
    constructor New()
      ensures accountRepository == null
    {
      accountRepository := null;
    }

    /** The cached repository if there is one, else a new repository over an empty table. */
    method Account() returns (repository: LocalRepository.AccountRepository)
      ensures accountRepository != null ==> repository == accountRepository
      ensures accountRepository == null ==>
        && fresh(repository)
        && repository.accounts == map[]
        && repository.Valid()
    {
      if accountRepository != null {
        return accountRepository;
      }
      repository := new LocalRepository.AccountRepository();
    }
  }
}
