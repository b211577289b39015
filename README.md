# Game tracker: the profile interactor

This project models the ownership and authorization layer of a game-library tracker.
A Player owns Users, a User owns Libraries, and a Library holds Games. The
`ProfileInteractor` use cases look entities up through the user, library and game
repositories, apply an ownership check, and then write.

- `AddGame` and `RemoveLibrary` check that the user ids are equal.
- `RemoveUser` and `RemoveGame` check that the player ids are equal.
- `EditUserInfo` checks that the caller is the target.
- `ShowLibrary` compares the caller's user id with the library id.

Except in `EditUserInfo`, the user and library lookups come before the permission
check. `EditUserInfo` checks the caller first, and `RemoveGame` looks the game up only
after its check. The permission check always comes before any write.

`RemoveLibrary` removes the library's games one at a time, in list order. It stops at
the first removal that fails. It removes the library row only after every game is
gone.

Layout, one module per file:

- `entities.dfy` (`Entities`): the `Player`, `User`, `Library` and `Game` records. It
  also has the error kinds `NotFound`, `Forbidden`, `Taken` and `StorageFailure`, and
  the `Result`/`Outcome` wrappers that stand for Go's `(value, error)` and `error`
  returns.
- `storage.dfy` (`Storage`): the repositories' tables as one value. It holds a row map
  per table, a next id per table, and a fixed set of repository calls that fail.
  - The lookups follow the SQL repositories. A found user carries its player. A found
    library carries its full owner and the games whose library id is its own.
  - Each repository write is a function: it fails and leaves the store as it was, or
    it changes one row. An insert also advances its own table's counter.
  - `Valid` is the store invariant. Ids are positive and below their table's counter,
    and no game points at a library row that is gone.
- `profile.dfy` (`Profile`): each use case as a function from the store before the
  call to the store after it and the result. Its contract states the permission rule,
  the order of the checks, the errors, and what changes and what does not.
- `properties.dfy` (`ProfileProperties`): lemmas that relate the use cases. They cover
  the cascade (no orphaned game, stop at the first failure, retry possible), a new
  library being empty, a game removed twice, the quirks of `ShowLibrary` and
  `RemoveUser`, and one session run from an empty store.
- `repositories.dfy` (`Repositories`): class `MemoryStore`. Its fields are the three
  tables, their id counters and the failing calls. Each write method is proved to
  change the fields as the matching `Storage` function says.
- `usecases.dfy` (`Usecases`): class `ProfileInteractor`. Each method makes the same
  repository calls in the same order as the Go code. Each is proved to leave the store
  and return exactly what the matching `Profile` function gives, and to keep `Valid`.
  - `RemoveLibrary` loops over the games with an early return.
  - `ShowLibrary` fills a fresh array in a loop and changes nothing.

The code is followed where it departs from the intended design:

- `ShowLibrary` compares the caller's user id with the library id. The owner is refused
  when the two ids differ. A user who does not own the library sees its games when the
  ids are equal. `ProfileProperties.ShowLibraryIgnoresOwner` shows both cases.
- `RemoveUser` does not cascade, and it ignores the error from the repository's
  `Remove`. The user's libraries stay stored, but the library lookup no longer finds
  them. `ProfileProperties.RemoveUserStrandsLibraries` shows this right after the
  removal. Ids are never reused, so a user added later does not take over the
  libraries. `ProfileProperties.StrandedLibraryStaysStranded` shows this.
- `RemoveGame` never checks that the game belongs to the library it names.
- `AddUser` does not check that the player's name matches its id. `AddGame` does not
  reject a duplicate game name.
- The use cases return only an error, with no status code.

## Model

| member | source | states |
|---|---|---|
| `Storage.FindUser` | interfaces/repositories.go:61-83 | A user is found exactly when its row exists. It carries that id and the row's name, personal information and player. Otherwise the lookup fails with NotFound. |
| `Storage.UserExisted` | interfaces/repositories.go:101-106 | When the call does not fail, it reports true exactly when some stored user has that name. |
| `Storage.LoadInfo` | interfaces/repositories.go:114-124 | It returns the personal information of the user's row, and fails when the call fails or the row is missing. |
| `Storage.GamesIn` | interfaces/repositories.go:222-239 | Each listed game is stored, points at the library and copies its row. Ids strictly increase. |
| `Storage.GamesInComplete` | interfaces/repositories.go:222-239 | Every game row in the id range that points at the library is listed. |
| `Storage.GamesInNone` | interfaces/repositories.go:222-239 | When no game points at a library, its list is empty. |
| `Storage.FindLibrary` | interfaces/repositories.go:202-240 | A library is found exactly when its row and its owner's row exist. It carries its id, its owner as a user lookup returns it, and its games in id order. |
| `Storage.LibraryListsAllItsGames` | interfaces/repositories.go:202-240 | In a valid store, a found library lists every game that points at it. |
| `Storage.FindGame` | interfaces/repositories.go:275-297 | A game is found exactly when its row exists. It carries that id and the row's library id, name, producer and value. Otherwise the lookup fails with NotFound. |
| `Storage.InsertUser` | interfaces/repositories.go:41-47 | It fails with no change exactly when user stores fail. Otherwise the new id is the next user id, and the user found under it is the given one. Every old user row is kept, the user counter moves past the new id, and the other tables, counters and faults are unchanged. |
| `Storage.DeleteUser` | interfaces/repositories.go:56-59 | It fails with no change when that removal fails. Otherwise only that id leaves the users table, and the remaining rows keep their values. The other tables, the counters and the faults are unchanged. Deleting a missing row succeeds. |
| `Storage.UpdateInfo` | interfaces/repositories.go:108-112 | It fails with no change when that update fails. Otherwise the user's row, if present, gets the new information and keeps its name and player. A missing row stays missing, every other row is unchanged, and so are the other tables, the counters and the faults. |
| `Storage.InsertLibrary` | interfaces/repositories.go:191-195 | It fails with no change exactly when library stores fail. Otherwise the next library id is stored, owned by the library's user. Every old library row is kept, the library counter moves past the new id, and the other tables, counters and faults are unchanged. |
| `Storage.DeleteLibrary` | interfaces/repositories.go:197-200 | It fails with no change when that removal fails. Otherwise only that id leaves the libraries table, and the remaining rows keep their owners. The other tables, the counters and the faults are unchanged. |
| `Storage.InsertGame` | interfaces/repositories.go:257-261 | It fails with no change exactly when game stores fail. Otherwise the game found under the next game id is the given one. Every old game row is kept, the game counter moves past the new id, and the other tables, counters and faults are unchanged. |
| `Storage.DeleteGame` | interfaces/repositories.go:263-266 | It fails with no change when that removal fails. Otherwise only that id leaves the games table, and the remaining rows keep their values. The other tables, the counters and the faults are unchanged. |
| `Profile.ShowLibrary` | usecases/usecases.go:62-92 | The games are shown exactly when the user, its information and the library load and the user id equals the library id. When everything loads and the ids differ, the result is Forbidden. A missing user, or a missing library once the information loads, gives NotFound. A failed information load gives StorageFailure. A missing user gives nothing else, every error comes with an empty list, and the information is empty unless everything loads. On success the list has the library's games in order, each with id, name, producer and value and no library id. |
| `Profile.AddUser` | usecases/usecases.go:94-113 | A taken name gives Taken. A failed name check, or a failed store of a free name, gives StorageFailure, and no other error occurs. Every error leaves the store unchanged. On success only a new row is added, with that name, that player and empty information, under the table's next user id, which is returned and was never used before. Only the user counter advances. The invariant is kept. |
| `Profile.RemoveUser` | usecases/usecases.go:115-132 | It succeeds exactly when the user exists and belongs to the player. A missing user gives NotFound, and the wrong player gives Forbidden, with no change. On success it reports success even when the row stays because the removal failed. Libraries, games and the id counters are never touched. |
| `Profile.EditUserInfo` | usecases/usecases.go:134-149 | It returns Forbidden exactly when the caller is not the target, whatever the store holds. Otherwise a missing user gives NotFound and a failed update gives StorageFailure. On success only the target's personal information changes, to the new text, and no counter moves. Every error leaves the store unchanged. |
| `Profile.AddLibrary` | usecases/usecases.go:151-164 | A missing user gives NotFound, and a failed store gives StorageFailure, both with no change. On success exactly one library row is added under the next library id, owned by that user. Only the library counter advances, and nothing else changes. |
| `Profile.FirstFailingGame` | usecases/usecases.go:181-186 | It is the position of the first game whose removal fails, or the list length when none fails. |
| `Profile.RemoveGames` | usecases/usecases.go:181-186 | Games before the first failing one are removed, and it and the later ones are kept. The result is StorageFailure exactly when some removal failed. |
| `Profile.RemoveLibrary` | usecases/usecases.go:166-193 | NotFound comes exactly when the user or the library is missing. Another owner gives Forbidden. StorageFailure comes exactly when the owner's request meets a failing game removal or a failing library-row removal. NotFound and Forbidden leave the store unchanged. After a StorageFailure, the games before the failing one stay removed, and when removing the library row fails, every game is already gone. Otherwise the games before the first failing one are removed. The library row is removed only when no game removal failed and its own removal succeeds, and success is reported only then. Users and the id counters never change. |
| `Profile.AddGame` | usecases/usecases.go:195-223 | It stores a game exactly when the user and the library load, the user owns the library, and the store succeeds. The stored row points at that library and gets the next game id, which is returned. Only the game counter advances, and nothing else changes. A missing user or library gives NotFound, and a failed store gives StorageFailure. A refusal or error leaves the store unchanged. |
| `Profile.RemoveGame` | usecases/usecases.go:225-253 | A game is removed exactly when the user and the library load, the user's player owns the library's owner, the game exists, and its removal does not fail. It is refused whatever the game id when the players differ, and it removes that game whatever its library. NotFound comes exactly when the user or library is missing, or when the check passes and the game is absent. StorageFailure comes exactly when removing an existing game fails. On success only that game row goes. Every failure leaves the store unchanged. |
| `ProfileProperties.RemoveLibraryPreservesValid` | usecases/usecases.go:166-193 | The cascade never leaves a game pointing at a removed library. |
| `ProfileProperties.RemoveLibraryLeavesNoGames` | usecases/usecases.go:181-190 | After a successful removal, no game points at the library and the library cannot be found. |
| `ProfileProperties.AllGamesOfLibraryRemoved` | usecases/usecases.go:181-186 | Removing every listed game removes every game that points at the library. |
| `ProfileProperties.RemoveLibraryStopsAtFirstFailure` | usecases/usecases.go:181-186 | When removal k fails, the earlier games are gone, and game k and the later ones stay unchanged. The error is StorageFailure, and the library can still be found for a retry. |
| `ProfileProperties.AddLibraryHoldsNoGames` | usecases/usecases.go:151-164 | A library just added is found with its owner and no games. |
| `ProfileProperties.AddGameIsListed` | usecases/usecases.go:214-222 | A game just added is listed by its library, with that library's id. |
| `ProfileProperties.RemoveGameTwice` | usecases/usecases.go:242-252 | Removing the same game a second time gives NotFound and changes nothing. |
| `ProfileProperties.RemoveUserStrandsLibraries` | usecases/usecases.go:128 | After a user is removed, its libraries and their games stay stored, but the library lookup gives NotFound. |
| `ProfileProperties.StrandedLibraryStaysStranded` | interfaces/repositories.go:41-47 | A user added after another user's removal gets a new id, so the removed user's library stays stored and still cannot be found. |
| `ProfileProperties.ShowLibraryIgnoresOwner` | usecases/usecases.go:80-90 | The owner of library 2, user 1, is refused. User 2, who belongs to another player, is shown the game. |
| `ProfileProperties.SessionFromEmptyStore` | usecases/usecases.go:62-193 | From an empty store, a user, a library and a game are added, each under id 1. The owner sees the game, a missing user gets NotFound, and the name cannot be taken twice. Removing the library empties both tables. |
| `Repositories.MemoryStore.StoreUser` | interfaces/repositories.go:41-47 | The fields change as `Storage.InsertUser` says, and the same id is returned. |
| `Repositories.MemoryStore.RemoveUser` | interfaces/repositories.go:56-59 | The fields change as `Storage.DeleteUser` says. |
| `Repositories.MemoryStore.StoreInfo` | interfaces/repositories.go:108-112 | The fields change as `Storage.UpdateInfo` says. |
| `Repositories.MemoryStore.StoreLibrary` | interfaces/repositories.go:191-195 | The fields change as `Storage.InsertLibrary` says. |
| `Repositories.MemoryStore.RemoveLibrary` | interfaces/repositories.go:197-200 | The fields change as `Storage.DeleteLibrary` says. |
| `Repositories.MemoryStore.StoreGame` | interfaces/repositories.go:257-261 | The fields change as `Storage.InsertGame` says. |
| `Repositories.MemoryStore.RemoveGame` | interfaces/repositories.go:263-266 | The fields change as `Storage.DeleteGame` says. |
| `Usecases.ProfileInteractor.ShowLibrary` | usecases/usecases.go:62-92 | Its result is `Profile.ShowLibrary` of the current store, built by filling a fresh array, and the store does not change. |
| `Usecases.ProfileInteractor.AddUser` | usecases/usecases.go:94-113 | The new store and result are those of `Profile.AddUser`, and the invariant is kept. |
| `Usecases.ProfileInteractor.RemoveUser` | usecases/usecases.go:115-132 | The new store and result are those of `Profile.RemoveUser`, and the invariant is kept. |
| `Usecases.ProfileInteractor.EditUserInfo` | usecases/usecases.go:134-149 | The new store and result are those of `Profile.EditUserInfo`. The caller check comes before any repository call. |
| `Usecases.ProfileInteractor.AddLibrary` | usecases/usecases.go:151-164 | The new store and result are those of `Profile.AddLibrary`, and the invariant is kept. |
| `Usecases.ProfileInteractor.RemoveLibrary` | usecases/usecases.go:166-193 | The loop removes games in order with an early return. The new store and result are those of `Profile.RemoveLibrary`, and the invariant is kept. |
| `Usecases.ProfileInteractor.AddGame` | usecases/usecases.go:195-223 | The new store and result are those of `Profile.AddGame`, and the invariant is kept. |
| `Usecases.ProfileInteractor.RemoveGame` | usecases/usecases.go:225-253 | The new store and result are those of `Profile.RemoveGame`. The game lookup comes after the permission check. |

## Left out

- The players table is left out. A user row keeps a snapshot of its player's id and name. The model's user lookup does not read the player's row, unlike interfaces/repositories.go:77-81. The model's user insert does not insert the player, unlike interfaces/repositories.go:48-52. So a missing player row never makes a user lookup fail, and a failed player insert never reports an error after the user row was written.
- Lookups by id fail only as NotFound. A lookup whose query fails with a storage error is not modelled, nor is the secondary query that lists a library's games failing.
- The order of a library's games is taken as ascending game id. The SQL query has no ORDER BY, so the database's order is unspecified.
- The list of library ids filled in by the user lookup (interfaces/repositories.go:85-97) is left out. It is not a field of the `User` record the use cases see.
- `Game.Value` is opaque bytes, and no arithmetic is done on it. The repository's float64 scan of the value is a type mismatch within the Go code and is not modelled.
- Error messages are left out: each error is reduced to its kind. `ShowLibrary` returns nil on early errors and an empty list when forbidden. Both are an empty sequence here.
- The printing and logging calls are left out.
- HTTP routing, JSON shaping, JWT handling and process start-up are left out, as are the handlers and models that call the interactor.
- Concurrency is left out, including races between requests. Each use case runs alone.
- Behaviour that exists only as design intent, with no code in the interactor, is left out. This covers attaching an existing game to a library, rejecting a duplicate game name, login credentials, a cascading user removal, and checking a player's name against its id.
