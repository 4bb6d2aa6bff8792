# accountsStorage: the in-memory account repository, in Dafny

This project models the storage core of the accountsStorage service: the
in-memory `AccountRepository`, which keeps accounts in one mutable map from
the textual form of an account's UUID to the account, and offers Create,
GetByID, Update, Delete and GetAll. It also models the records it stores
(`Account`, `AccountCreate`, `AccountUpdate`), the local `Store` that hands
the repository out, and the account `service` that forwards each call to the
repository.

Modules, one per source file or concept:

- `Wrappers` (`wrappers.dfy`): `Option`, which also stands for Go's nil error.
- `Uuid` (`uuid.dfy`): a UUID as sixteen bytes, its canonical textual form
  (the five hyphen-separated groups of lower-case hexadecimal digits of
  RFC 4122, section 3) and the inverse of that form. The repository keys its
  table by this text.
- `Model` (`model.dfy`): the three record types and the zero `Account{}`.
- `Errors` (`errors.dfy`): a `Context` that is either not done or done with a
  cause, and the repository's errors: the context's error and "no account
  with id".
- `LocalRepository` (`localstore_repository.dfy`): the repository as a class
  whose state is `accounts: map<string, Account>`. Its invariant `Valid()`
  says that every entry sits under the textual form of its own identifier.
  Each method's `ensures` gives the new table in terms of `old(accounts)`.
  The functions `NewAccount` and `Merge` give the record Create and Update
  store; Update builds it in ten one-field steps on a local copy, each step
  keeping the stored value when the input's is empty, as the source does. Lemmas about `Merge` cover the empty update, idempotence and two
  updates in a row.
- `LocalStore` (`localstore_store.dfy`): the store and its `Account()`.
- `AccountService` (`service.dfy`): the service as a class
  holding the repository. Its methods restate the repository's contracts.
- `Scenarios` (`scenarios.dfy`): callers that chain several operations.
  They show what follows from the contracts alone, such as create then read,
  delete then read, and the walkthrough of one account's life.

Non-deterministic inputs are parameters. The identifier that `uuid.New()`
draws and the time that `time.Now()` reads are arguments of `Create`. A Go
`context.Context` is a `Context` value, done or not, so `ctx.Err()` is known
at entry.

Three places where the code does something a reader might not expect; the model follows the code:

- Update takes a whole `Account`, not an `AccountUpdate`. Its key is the
  textual form of that account's `ID`.
- The service does not wrap errors. It logs them and returns them unchanged.
- Create does not check that the new identifier is unused. A colliding
  identifier would overwrite the stored entry, and the model does the same.
  Its contract says the table grows by one only when the key was absent.

## Model

| member | source | states |
|---|---|---|
| `Uuid.ToString` | accountsStorage/internal/app/store/localstore/repository.go:51 | the storage key of an identifier is always 36 characters long (8-4-4-4-12 hex groups) |
| `Uuid.ToStringGroups` | accountsStorage/internal/app/store/localstore/repository.go:51 | the textual form has hyphens at positions 8, 13, 18 and 23 and the hex digits of the 4-, 2-, 2-, 2- and 6-byte groups between them |
| `Uuid.ParseToString` | accountsStorage/internal/app/store/localstore/repository.go:51 | the textual form of every UUID reads back to that same UUID |
| `Uuid.ToStringInjective` | accountsStorage/pkg/model/account.go:10 | two UUIDs have the same textual form exactly when they are equal, so distinct identifiers are distinct keys |
| `Model.AccountIsIdFieldsAndTime` | accountsStorage/pkg/model/account.go:9-22 | an account is exactly its ID, its ten string fields and its CreatedAt: two accounts are equal iff these agree |
| `Model.AccountCreateIsFields` | accountsStorage/pkg/model/account.go:24-35 | a creation input is exactly its ten string fields, with no ID or CreatedAt a caller could set |
| `Model.AccountUpdateIsFields` | accountsStorage/pkg/model/account.go:37-48 | an update input is exactly the same ten string fields |
| `Model.ZeroAccountIsEmpty` | accountsStorage/internal/app/store/localstore/repository.go:69 | the `Account{}` returned on failure has the nil UUID, only empty fields and the zero time |
| `Errors.Error.Message` | accountsStorage/internal/app/store/localstore/repository.go:67-70 | a not-found error's text is exactly "no account with id " followed by the key, and only a not-found error's text starts that way |
| `Errors.MessageIdentifiesError` | accountsStorage/internal/app/store/localstore/repository.go:86-89 | two errors have the same text exactly when they are the same error, so the text of a not-found error names the missing key unambiguously |
| `LocalRepository.NewAccount` | accountsStorage/internal/app/store/localstore/repository.go:36-49 | the record Create stores carries the supplied ID and time and exactly the input's ten fields |
| `LocalRepository.Merge` | accountsStorage/internal/app/store/localstore/repository.go:91-120 | the record Update stores keeps the stored ID and CreatedAt, whatever the input carries in them |
| `LocalRepository.MergeFieldwise` | accountsStorage/internal/app/store/localstore/repository.go:91-120 | each of the ten fields of a merged record is the input's value when that is non-empty and the stored value when it is empty |
| `LocalRepository.MergeAllEmptyIsIdentity` | accountsStorage/internal/app/store/localstore/repository.go:91-120 | an update whose ten fields are all empty leaves the stored record unchanged |
| `LocalRepository.MergeIdempotent` | accountsStorage/internal/app/store/localstore/repository.go:91-122 | merging the same input twice gives the same record as merging it once |
| `LocalRepository.MergeTwice` | accountsStorage/internal/app/store/localstore/repository.go:91-122 | two updates in a row equal one update by the second input merged over the first |
| `LocalRepository.MergeChangesOnlyGivenFields` | accountsStorage/internal/app/store/localstore/repository.go:91-120 | a field changes iff the input gives a non-empty value different from the stored one |
| `LocalRepository.KeyedByIdFindsOwnId` | accountsStorage/internal/app/store/localstore/repository.go:85-86 | in a table keyed by identifier, the entry under an identifier's text carries that identifier |
| `LocalRepository.KeyedByIdStore` | accountsStorage/internal/app/store/localstore/repository.go:51-52 | storing a record under its own identifier's text keeps every entry keyed by its own identifier |
| `LocalRepository.KeyedByIdRemove` | accountsStorage/internal/app/store/localstore/repository.go:142 | deleting a key keeps every remaining entry keyed by its own identifier |
| `LocalRepository.ListedOnce` | accountsStorage/internal/app/store/localstore/repository.go:157-160 | a list read off the table one distinct key at a time, every key visited, holds every stored record and none of them twice |
| `LocalRepository.AccountRepository.constructor` | internal/app/store/localstore/store.go:26-29 | a new repository has an empty table, which trivially satisfies the keyed-by-identifier invariant |
| `LocalRepository.AccountRepository.Create` | accountsStorage/internal/app/store/localstore/repository.go:23-55 | on a done context: returns "" and the context error, table unchanged; otherwise returns the identifier's text and no error, the table gains exactly that key with `NewAccount`, all other entries unchanged, and grows by one when the key was absent |
| `LocalRepository.AccountRepository.GetByID` | accountsStorage/internal/app/store/localstore/repository.go:57-73 | on a done context: the zero account and the context error; present key: the stored record and no error; absent key: the zero account and "no account with id"; a found record's identifier text is the key |
| `LocalRepository.AccountRepository.Update` | accountsStorage/internal/app/store/localstore/repository.go:75-125 | on a done context, or when the input's ID text is not a key: the matching error, table unchanged; otherwise no error, and only that entry is replaced by `Merge` of the stored record and the input, still carrying the input's ID |
| `LocalRepository.AccountRepository.Delete` | accountsStorage/internal/app/store/localstore/repository.go:127-145 | on a done context, or an absent key: the matching error, table unchanged; otherwise no error and the table minus exactly that key, one entry smaller |
| `LocalRepository.AccountRepository.GetAll` | accountsStorage/internal/app/store/localstore/repository.go:147-163 | on a done context: an empty list and the context error; otherwise no error and a list as long as the table, holding every stored record, only stored records, and no record twice |
| `LocalStore.Store.New` | internal/app/store/localstore/store.go:15-19 | a new store has no cached repository |
| `LocalStore.Store.Account` | internal/app/store/localstore/store.go:21-30 | returns the cached repository when there is one, else a freshly allocated repository with an empty table; the store itself is not changed |
| `AccountService.Service.constructor` | accountsStorage/pkg/model/account/service.go:26-31 | the service holds the given repository, a constant it never reassigns |
| `AccountService.Service.Create` | accountsStorage/pkg/model/account/service.go:43-56 | returns the repository's identifier and error unchanged, with the repository's effect on the table |
| `AccountService.Service.GetAll` | accountsStorage/pkg/model/account/service.go:66-78 | returns the repository's list on success and an empty list with the repository's error on failure |
| `AccountService.Service.GetByID` | accountsStorage/pkg/model/account/service.go:91-104 | returns the repository's account on success and the zero account with the repository's error on failure |
| `AccountService.Service.Update` | accountsStorage/pkg/model/account/service.go:118-131 | returns no error exactly when the repository does, else its error unchanged, with the repository's effect on the table |
| `AccountService.Service.Delete` | accountsStorage/pkg/model/account/service.go:143-156 | returns no error exactly when the repository does, else its error unchanged, with the repository's effect on the table |
| `Scenarios.CreateThenGetByID` | accountsStorage/internal/app/store/localstore/repository.go:33-72 | reading the key Create returned gives a record with the input's fields and the assigned ID and time |
| `Scenarios.DeleteThenGetByID` | accountsStorage/internal/app/store/localstore/repository.go:137-144 | after deleting a present key, GetByID on it fails with "no account with id" and every other entry is intact |
| `Scenarios.UpdateTwice` | accountsStorage/internal/app/store/localstore/repository.go:85-122 | applying one update twice gives the same table as applying it once |
| `Scenarios.UpdateWithNoFields` | accountsStorage/internal/app/store/localstore/repository.go:91-122 | an update of a stored account with all ten fields empty succeeds and leaves the table unchanged |
| `Scenarios.Walkthrough` | accountsStorage/pkg/model/account/service.go:43-156 | create with name "A" and status "active", update with only name "B", read: name "B", status kept, ID and time as assigned; after delete the read fails with not found |
| `Scenarios.StoreRepositoriesShareNoState` | internal/app/store/localstore/store.go:21-30 | two `Account()` calls on a new store give distinct repositories; an account created through one is not visible through the other |

## Left out

- The relational store (internal/app/store/sqlstore/) is not part of this model. All its behaviour is inside `database/sql` calls against PostgreSQL. Two of its differences from the in-memory store are not modelled. Its Update overwrites every column instead of merging, and returns a non-nil error even on success. Its Delete reports success for an absent identifier.
- The `Nginx` operations of the repository and the service are not modelled. They are outbound HTTP requests, and the repository interface does not include them.
- The repository interface (internal/app/store/repository.go) is not a separate member. Traits are not used here, so the service and the store refer to the in-memory repository class directly.
- HTTP transport, JSON decoding and routing are not modelled. This includes the step that turns an `AccountUpdate` plus the path identifier into the `Account` passed to Update. `AccountUpdate` is therefore only a record type here.
- Server start-up, configuration and signal handling are not modelled.
- Logging is not modelled. It has no bearing on any result.
- The mutex is not modelled. Each operation is treated as one atomic step, which the lock guarantees in the source.
- The randomness of `uuid.New()` and the clock of `time.Now()` are not modelled. Both values are parameters of Create.
- A context that becomes done while an operation runs is not modelled. The source checks the context only at entry, and so does the model.
- The inverse of the textual form, `Parse`, reads only the canonical lower- or upper-case 36-character form. It exists to prove that distinct identifiers give distinct keys. The other forms the uuid library accepts (braces, `urn:uuid:` prefix, 32 digits without hyphens) are not modelled.
- AccountService.Service.GetAll: does not distinguish Go's nil slice, returned on failure, from the empty slice the repository returns when the context is done. Both are the empty sequence.
- Errors are values (`ContextErr`, `NotFound`) with their text given by `Message`, not Go error objects. Error identity (`errors.Is`) and wrapping are not modelled.
