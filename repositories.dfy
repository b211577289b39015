/** The user, library and game repositories, held in memory: one object whose fields
    are the three tables and their id counters. Lookups read the fields; each write
    method changes them as the matching Storage function says. */
module Repositories {
  import opened Entities
  import opened Storage

  class MemoryStore {
    var users: map<int, UserRow>
    var libraries: map<int, int>
    var games: map<int, GameRow>
    var nextUserId: int
    var nextLibraryId: int
    var nextGameId: int
    /** The repository calls that fail, fixed when the store is made. */
    const faults: set<Fault>

    /** The tables as one value. */
    function Abs(): Store
      reads this
    {
      Store(users, libraries, games, nextUserId, nextLibraryId, nextGameId, faults)
    }

    ghost predicate Valid()
      reads this
    {
      Storage.Valid(Abs())
    }

    constructor (faults: set<Fault>)
      ensures Valid() && Abs() == Empty(faults)
    {
      users, libraries, games := map[], map[], map[];
      nextUserId, nextLibraryId, nextGameId := 1, 1, 1;
      this.faults := faults;
    }

    // ---- Lookups ----

    function FindUser(id: int): Result<User>
      reads this
    {
      Storage.FindUser(Abs(), id)
    }

    function UserExisted(userName: string): Result<bool>
      reads this
    {
      Storage.UserExisted(Abs(), userName)
    }

    function LoadInfo(user: User): Result<string>
      reads this
    {
      Storage.LoadInfo(Abs(), user)
    }

    function FindLibrary(id: int): Result<Library>
      reads this
    {
      Storage.FindLibrary(Abs(), id)
    }

    function FindGame(id: int): Result<Game>
      reads this
    {
      Storage.FindGame(Abs(), id)
    }

    // ---- Writes ----

    method StoreUser(user: User) returns (r: Result<int>)
      modifies this
      ensures (Abs(), r) == InsertUser(old(Abs()), user)
    {
      if UserStoreFails in faults {
        return Err(StorageFailure);
      }
      r := Ok(nextUserId);
      users := users[nextUserId := UserRow(user.name, user.player, user.personalInfo)];
      nextUserId := nextUserId + 1;
    }

    method RemoveUser(user: User) returns (err: Outcome)
      modifies this
      ensures (Abs(), err) == DeleteUser(old(Abs()), user)
    {
      if UserRemoveFails(user.id) in faults {
        return Fail(StorageFailure);
      }
      users := users - {user.id};
      err := Pass;
    }

    method StoreInfo(user: User, info: string) returns (err: Outcome)
      modifies this
      ensures (Abs(), err) == UpdateInfo(old(Abs()), user, info)
    {
      if StoreInfoFails(user.id) in faults {
        return Fail(StorageFailure);
      }
      if user.id in users {
        users := users[user.id := users[user.id].(personalInfo := info)];
      }
      err := Pass;
    }

    method StoreLibrary(library: Library) returns (r: Result<int>)
      modifies this
      ensures (Abs(), r) == InsertLibrary(old(Abs()), library)
    {
      if LibraryStoreFails in faults {
        return Err(StorageFailure);
      }
      r := Ok(nextLibraryId);
      libraries := libraries[nextLibraryId := library.user.id];
      nextLibraryId := nextLibraryId + 1;
    }

    method RemoveLibrary(library: Library) returns (err: Outcome)
      modifies this
      ensures (Abs(), err) == DeleteLibrary(old(Abs()), library)
    {
      if LibraryRemoveFails(library.id) in faults {
        return Fail(StorageFailure);
      }
      libraries := libraries - {library.id};
      err := Pass;
    }

    method StoreGame(game: Game) returns (r: Result<int>)
      modifies this
      ensures (Abs(), r) == InsertGame(old(Abs()), game)
    {
      if GameStoreFails in faults {
        return Err(StorageFailure);
      }
      r := Ok(nextGameId);
      games := games[nextGameId := GameRow(game.libraryId, game.name, game.producer, game.value)];
      nextGameId := nextGameId + 1;
    }

    method RemoveGame(game: Game) returns (err: Outcome)
      modifies this
      ensures (Abs(), err) == DeleteGame(old(Abs()), game)
    {
      if GameRemoveFails(game.id) in faults {
        return Fail(StorageFailure);
      }
      games := games - {game.id};
      err := Pass;
    }
  }
}
