/** The repositories' durable state, seen as one value: a row map per table, the next
    id each table hands out, and the set of repository calls that fail. Lookups follow
    the SQL repositories: a found user carries its player, a found library carries its
    full owner and the games whose library id is its own. */
module Storage {
  import opened Entities

  datatype UserRow = UserRow(name: string, player: Player, personalInfo: string)

  datatype GameRow = GameRow(libraryId: int, name: string, producer: string, value: Value)

  /** Repository calls that fail with a storage error. The set is fixed for a store's
      whole life, so a retried call fails again. */
  datatype Fault =
    | UserExistedFails
    | LoadInfoFails(userId: int)
    | StoreInfoFails(userId: int)
    | UserStoreFails
    | LibraryStoreFails
    | GameStoreFails
    | UserRemoveFails(userId: int)
    | LibraryRemoveFails(libraryId: int)
    | GameRemoveFails(gameId: int)

  /** `libraries` maps a library id to its owner's user id. */
  datatype Store = Store(
    users: map<int, UserRow>,
    libraries: map<int, int>,
    games: map<int, GameRow>,
    nextUserId: int,
    nextLibraryId: int,
    nextGameId: int,
    faults: set<Fault>)

  /** Ids are positive and below the next id of their table, and no game points at a
      library row that is gone. A library whose owner is gone is allowed: removing a
      user does not remove the user's libraries. */
  ghost predicate Valid(s: Store)
  {
    && 1 <= s.nextUserId && 1 <= s.nextLibraryId && 1 <= s.nextGameId
    && (forall id :: id in s.users ==> 1 <= id < s.nextUserId)
    && (forall id :: id in s.libraries ==> 1 <= id < s.nextLibraryId)
    && (forall id :: id in s.games ==> 1 <= id < s.nextGameId)
    && (forall id :: id in s.games ==> s.games[id].libraryId in s.libraries)
  }

  function Empty(faults: set<Fault>): (s: Store)
    ensures Valid(s)
    ensures s.users == map[] && s.libraries == map[] && s.games == map[] && s.faults == faults
  {
    Store(map[], map[], map[], 1, 1, 1, faults)
  }

  // ---- Lookups ----

  function UserOf(id: int, row: UserRow): User
  {
    User(id, row.name, row.player, row.personalInfo)
  }

  function GameOf(id: int, row: GameRow): Game
  {
    Game(id, row.libraryId, row.name, row.producer, row.value)
  }

  /** The user with that id, carrying its player; NotFound when no row has it. */
  function FindUser(s: Store, id: int): (r: Result<User>)
    ensures r.Ok? <==> id in s.users
    ensures r.Err? ==> r.error == NotFound
    ensures r.Ok? ==>
      && r.value.id == id && r.value.player == s.users[id].player
      && r.value.name == s.users[id].name && r.value.personalInfo == s.users[id].personalInfo
  {
    if id in s.users then Ok(UserOf(id, s.users[id])) else Err(NotFound)
  }

  ghost predicate NameTaken(s: Store, userName: string)
  {
    exists id :: id in s.users && s.users[id].name == userName
  }

  /** Whether some user already has that name. */
  function UserExisted(s: Store, userName: string): (r: Result<bool>)
    ensures r.Err? <==> UserExistedFails in s.faults
    ensures r.Ok? ==> (r.value <==> NameTaken(s, userName))
  {
    if UserExistedFails in s.faults then Err(StorageFailure)
    else Ok(exists id | id in s.users :: s.users[id].name == userName)
  }

  /** The personal information stored in the user's row. */
  function LoadInfo(s: Store, user: User): (r: Result<string>)
    ensures r.Ok? <==> LoadInfoFails(user.id) !in s.faults && user.id in s.users
    ensures r.Ok? ==> r.value == s.users[user.id].personalInfo
  {
    if LoadInfoFails(user.id) in s.faults then Err(StorageFailure)
    else if user.id in s.users then Ok(s.users[user.id].personalInfo)
    else Err(NotFound)
  }

  /** The games among ids lo .. hi-1 whose row points at the library, in id order. */
  function GamesIn(games: map<int, GameRow>, libraryId: int, lo: int, hi: int): (r: seq<Game>)
    ensures forall i :: 0 <= i < |r| ==>
      && lo <= r[i].id < hi
      && r[i].id in games
      && r[i] == GameOf(r[i].id, games[r[i].id])
      && r[i].libraryId == libraryId
    ensures forall i, j :: 0 <= i < j < |r| ==> r[i].id < r[j].id
    decreases hi - lo
  {
    if lo >= hi then []
    else if lo in games && games[lo].libraryId == libraryId then
      [GameOf(lo, games[lo])] + GamesIn(games, libraryId, lo + 1, hi)
    else
      GamesIn(games, libraryId, lo + 1, hi)
  }

  /** Every game of the library that lies in the id range is listed. */
  lemma {:induction false} GamesInComplete(games: map<int, GameRow>, libraryId: int, lo: int, hi: int, id: int)
    requires id in games && games[id].libraryId == libraryId && lo <= id < hi
    ensures exists i :: 0 <= i < |GamesIn(games, libraryId, lo, hi)| && GamesIn(games, libraryId, lo, hi)[i].id == id
    decreases hi - lo
  {
    var r := GamesIn(games, libraryId, lo, hi);
    if id == lo {
      assert r[0].id == id;
    } else {
      GamesInComplete(games, libraryId, lo + 1, hi, id);
      var rest := GamesIn(games, libraryId, lo + 1, hi);
      var i :| 0 <= i < |rest| && rest[i].id == id;
      if lo in games && games[lo].libraryId == libraryId {
        assert r[i + 1] == rest[i];
      } else {
        assert r[i] == rest[i];
      }
    }
  }

  /** A library that no game points at lists no games. */
  lemma {:induction false} GamesInNone(games: map<int, GameRow>, libraryId: int, lo: int, hi: int)
    requires forall id :: id in games ==> games[id].libraryId != libraryId
    ensures GamesIn(games, libraryId, lo, hi) == []
    decreases hi - lo
  {
    if lo < hi {
      GamesInNone(games, libraryId, lo + 1, hi);
    }
  }

  function GamesOf(s: Store, libraryId: int): seq<Game>
  {
    GamesIn(s.games, libraryId, 1, s.nextGameId)
  }

  /** The library with that id, carrying its owner and its games; NotFound when the
      library row is missing or its owner's row is. */
  function FindLibrary(s: Store, id: int): (r: Result<Library>)
    ensures r.Ok? <==> id in s.libraries && s.libraries[id] in s.users
    ensures r.Err? ==> r.error == NotFound
    ensures r.Ok? ==>
      && r.value.id == id
      && r.value.user == FindUser(s, s.libraries[id]).value
      && (forall i :: 0 <= i < |r.value.games| ==>
            r.value.games[i].id in s.games && r.value.games[i].libraryId == id
            && r.value.games[i] == GameOf(r.value.games[i].id, s.games[r.value.games[i].id]))
      && (forall i, j :: 0 <= i < j < |r.value.games| ==> r.value.games[i].id < r.value.games[j].id)
  {
    if id !in s.libraries then Err(NotFound)
    else match FindUser(s, s.libraries[id])
      case Err(e) => Err(e)
      case Ok(owner) => Ok(Library(id, owner, GamesOf(s, id)))
  }

  /** In a valid store a found library lists every game that points at it. */
  lemma LibraryListsAllItsGames(s: Store, libraryId: int)
    requires Valid(s) && FindLibrary(s, libraryId).Ok?
    ensures forall id :: id in s.games && s.games[id].libraryId == libraryId ==>
      exists i :: 0 <= i < |FindLibrary(s, libraryId).value.games| && FindLibrary(s, libraryId).value.games[i].id == id
  {
    forall id | id in s.games && s.games[id].libraryId == libraryId
      ensures exists i :: 0 <= i < |GamesOf(s, libraryId)| && GamesOf(s, libraryId)[i].id == id
    {
      GamesInComplete(s.games, libraryId, 1, s.nextGameId, id);
    }
  }

  function FindGame(s: Store, id: int): (r: Result<Game>)
    ensures r.Ok? <==> id in s.games
    ensures r.Err? ==> r.error == NotFound
    ensures r.Ok? ==>
      && r.value.id == id && r.value.libraryId == s.games[id].libraryId
      && r.value.name == s.games[id].name && r.value.producer == s.games[id].producer
      && r.value.value == s.games[id].value
  {
    if id in s.games then Ok(GameOf(id, s.games[id])) else Err(NotFound)
  }

  // ---- Writes: each either fails, leaving the store as it was, or changes one row ----

  /** Inserts a user row under the next user id; the user's own id is ignored. */
  function InsertUser(s: Store, user: User): (r: (Store, Result<int>))
    ensures r.1.Err? <==> UserStoreFails in s.faults
    ensures r.1.Err? ==> r.0 == s && r.1.error == StorageFailure
    ensures r.1.Ok? ==> r.1.value == s.nextUserId && FindUser(r.0, r.1.value) == Ok(user.(id := r.1.value))
    ensures r.1.Ok? ==>
      && r.0.users.Keys == s.users.Keys + {r.1.value}
      && (forall id :: id in s.users && id != r.1.value ==> r.0.users[id] == s.users[id])
      && r.0.nextUserId == s.nextUserId + 1
      && r.0.libraries == s.libraries && r.0.games == s.games && r.0.faults == s.faults
      && r.0.nextLibraryId == s.nextLibraryId && r.0.nextGameId == s.nextGameId
  {
    if UserStoreFails in s.faults then (s, Err(StorageFailure))
    else
      var id := s.nextUserId;
      (s.(users := s.users[id := UserRow(user.name, user.player, user.personalInfo)], nextUserId := id + 1), Ok(id))
  }

  /** Deletes the user's row, if any; deleting a missing row succeeds. */
  function DeleteUser(s: Store, user: User): (r: (Store, Outcome))
    ensures r.1.Fail? <==> UserRemoveFails(user.id) in s.faults
    ensures r.1.Fail? ==> r.0 == s
    ensures r.1.Pass? ==>
      && r.0.users.Keys == s.users.Keys - {user.id}
      && (forall id :: id in r.0.users ==> r.0.users[id] == s.users[id])
      && r.0.libraries == s.libraries && r.0.games == s.games && r.0.faults == s.faults
      && r.0.nextUserId == s.nextUserId && r.0.nextLibraryId == s.nextLibraryId && r.0.nextGameId == s.nextGameId
  {
    if UserRemoveFails(user.id) in s.faults then (s, Fail(StorageFailure))
    else (s.(users := s.users - {user.id}), Pass)
  }

  /** Overwrites the personal information of the user's row; a missing row is left missing. */
  function UpdateInfo(s: Store, user: User, info: string): (r: (Store, Outcome))
    ensures r.1.Fail? <==> StoreInfoFails(user.id) in s.faults
    ensures r.1.Fail? ==> r.0 == s
    ensures r.1.Pass? ==>
      && r.0.users.Keys == s.users.Keys
      && (user.id in s.users ==>
            && r.0.users[user.id].personalInfo == info
            && r.0.users[user.id].name == s.users[user.id].name
            && r.0.users[user.id].player == s.users[user.id].player)
      && (forall id :: id in s.users && id != user.id ==> r.0.users[id] == s.users[id])
      && r.0.libraries == s.libraries && r.0.games == s.games && r.0.faults == s.faults
      && r.0.nextUserId == s.nextUserId && r.0.nextLibraryId == s.nextLibraryId && r.0.nextGameId == s.nextGameId
  {
    if StoreInfoFails(user.id) in s.faults then (s, Fail(StorageFailure))
    else if user.id in s.users then (s.(users := s.users[user.id := s.users[user.id].(personalInfo := info)]), Pass)
    else (s, Pass)
  }

  /** Inserts a library row owned by the library's user under the next library id. */
  function InsertLibrary(s: Store, library: Library): (r: (Store, Result<int>))
    ensures r.1.Err? <==> LibraryStoreFails in s.faults
    ensures r.1.Err? ==> r.0 == s && r.1.error == StorageFailure
    ensures r.1.Ok? ==> r.1.value == s.nextLibraryId && r.1.value in r.0.libraries && r.0.libraries[r.1.value] == library.user.id
    ensures r.1.Ok? ==>
      && r.0.libraries.Keys == s.libraries.Keys + {r.1.value}
      && (forall id :: id in s.libraries && id != r.1.value ==> r.0.libraries[id] == s.libraries[id])
      && r.0.nextLibraryId == s.nextLibraryId + 1
      && r.0.users == s.users && r.0.games == s.games && r.0.faults == s.faults
      && r.0.nextUserId == s.nextUserId && r.0.nextGameId == s.nextGameId
  {
    if LibraryStoreFails in s.faults then (s, Err(StorageFailure))
    else
      var id := s.nextLibraryId;
      (s.(libraries := s.libraries[id := library.user.id], nextLibraryId := id + 1), Ok(id))
  }

  function DeleteLibrary(s: Store, library: Library): (r: (Store, Outcome))
    ensures r.1.Fail? <==> LibraryRemoveFails(library.id) in s.faults
    ensures r.1.Fail? ==> r.0 == s
    ensures r.1.Pass? ==>
      && r.0.libraries.Keys == s.libraries.Keys - {library.id}
      && (forall id :: id in r.0.libraries ==> r.0.libraries[id] == s.libraries[id])
      && r.0.users == s.users && r.0.games == s.games && r.0.faults == s.faults
      && r.0.nextUserId == s.nextUserId && r.0.nextLibraryId == s.nextLibraryId && r.0.nextGameId == s.nextGameId
  {
    if LibraryRemoveFails(library.id) in s.faults then (s, Fail(StorageFailure))
    else (s.(libraries := s.libraries - {library.id}), Pass)
  }

  /** Inserts a game row under the next game id, pointing at the game's library id. */
  function InsertGame(s: Store, game: Game): (r: (Store, Result<int>))
    ensures r.1.Err? <==> GameStoreFails in s.faults
    ensures r.1.Err? ==> r.0 == s && r.1.error == StorageFailure
    ensures r.1.Ok? ==> r.1.value == s.nextGameId && FindGame(r.0, r.1.value) == Ok(game.(id := r.1.value))
    ensures r.1.Ok? ==>
      && r.0.games.Keys == s.games.Keys + {r.1.value}
      && (forall id :: id in s.games && id != r.1.value ==> r.0.games[id] == s.games[id])
      && r.0.nextGameId == s.nextGameId + 1
      && r.0.users == s.users && r.0.libraries == s.libraries && r.0.faults == s.faults
      && r.0.nextUserId == s.nextUserId && r.0.nextLibraryId == s.nextLibraryId
  {
    if GameStoreFails in s.faults then (s, Err(StorageFailure))
    else
      var id := s.nextGameId;
      (s.(games := s.games[id := GameRow(game.libraryId, game.name, game.producer, game.value)], nextGameId := id + 1), Ok(id))
  }

  function DeleteGame(s: Store, game: Game): (r: (Store, Outcome))
    ensures r.1.Fail? <==> GameRemoveFails(game.id) in s.faults
    ensures r.1.Fail? ==> r.0 == s
    ensures r.1.Pass? ==>
      && r.0.games.Keys == s.games.Keys - {game.id}
      && (forall id :: id in r.0.games ==> r.0.games[id] == s.games[id])
      && r.0.users == s.users && r.0.libraries == s.libraries && r.0.faults == s.faults
      && r.0.nextUserId == s.nextUserId && r.0.nextLibraryId == s.nextLibraryId && r.0.nextGameId == s.nextGameId
  {
    if GameRemoveFails(game.id) in s.faults then (s, Fail(StorageFailure))
    else (s.(games := s.games - {game.id}), Pass)
  }
}
