/** What each profile use case does to the store and returns, as a function of the
    store before the call. Each function follows its use case's sequence of repository
    calls: lookups first, then the ownership check, then the writes. */
module Profile {
  import opened Entities
  import opened Storage

  // ---- ShowLibrary ----

  /** What ShowLibrary hands back: the caller's personal information, the listed games
      and the error, if any. */
  datatype Shown = Shown(info: string, games: seq<Game>, err: Outcome)

  /** The entry listed for a stored game: everything but its library id. */
  function Listed(g: Game): Game
  {
    Game(g.id, 0, g.name, g.producer, g.value)
  }

  function ListedAll(gs: seq<Game>): seq<Game>
  {
    seq(|gs|, i requires 0 <= i < |gs| => Listed(gs[i]))
  }

  /** True when the user, its personal information and the library can all be loaded:
      the point ShowLibrary reaches before its permission check. */
  ghost predicate ShowLoads(s: Store, userId: int, libraryId: int)
  {
    userId in s.users && LoadInfoFails(userId) !in s.faults && FindLibrary(s, libraryId).Ok?
  }

  /** ShowLibrary compares the caller's user id with the LIBRARY id, not with the id of
      the library's owner: the games are shown exactly when the two ids are equal. */
  function ShowLibrary(s: Store, userId: int, libraryId: int): (r: Shown)
    ensures r.err == Pass <==> ShowLoads(s, userId, libraryId) && userId == libraryId
    ensures r.err == Fail(Forbidden) <==> ShowLoads(s, userId, libraryId) && userId != libraryId
    ensures userId !in s.users ==> r == Shown("", [], Fail(NotFound))
    ensures r.err == Fail(NotFound) <==>
      userId !in s.users || (LoadInfoFails(userId) !in s.faults && FindLibrary(s, libraryId).Err?)
    ensures r.err == Fail(StorageFailure) <==> userId in s.users && LoadInfoFails(userId) in s.faults
    ensures r.err != Pass ==> r.games == []
    ensures !ShowLoads(s, userId, libraryId) ==> r.info == ""
    ensures ShowLoads(s, userId, libraryId) ==> r.info == s.users[userId].personalInfo
    ensures r.err == Pass ==>
      var library := FindLibrary(s, libraryId).value;
      && |r.games| == |library.games|
      && forall i :: 0 <= i < |r.games| ==>
           && r.games[i].id == library.games[i].id
           && r.games[i].name == library.games[i].name
           && r.games[i].producer == library.games[i].producer
           && r.games[i].value == library.games[i].value
           && r.games[i].libraryId == 0
  {
    match FindUser(s, userId)
    case Err(_) => Shown("", [], Fail(NotFound))
    case Ok(user) =>
      match LoadInfo(s, user)
      case Err(_) => Shown("", [], Fail(StorageFailure))
      case Ok(info) =>
        match FindLibrary(s, libraryId)
        case Err(_) => Shown("", [], Fail(NotFound))
        case Ok(library) =>
          if user.id != libraryId then Shown(info, [], Fail(Forbidden))
          else Shown(info, ListedAll(library.games), Pass)
  }

  // ---- AddUser ----

  /** Adds a user with that name, owned by that player, unless the name is taken. */
  function AddUser(s: Store, player: Player, userName: string): (r: (Store, Result<int>))
    ensures r.1.Err? ==> r.0 == s
    ensures r.1 == Err(Taken) <==> UserExistedFails !in s.faults && NameTaken(s, userName)
    ensures r.1.Ok? <==> UserExistedFails !in s.faults && !NameTaken(s, userName) && UserStoreFails !in s.faults
    ensures r.1 == Err(StorageFailure) <==>
      UserExistedFails in s.faults || (!NameTaken(s, userName) && UserStoreFails in s.faults)
    ensures r.1.Ok? ==>
      && FindUser(r.0, r.1.value) == Ok(User(r.1.value, userName, player, ""))
      && r.0.users == s.users[r.1.value := UserRow(userName, player, "")]
      && r.0.libraries == s.libraries && r.0.games == s.games && r.0.faults == s.faults
      && r.0.nextUserId == s.nextUserId + 1
      && r.0.nextLibraryId == s.nextLibraryId && r.0.nextGameId == s.nextGameId
    ensures Valid(s) ==> Valid(r.0)
    ensures r.1.Ok? ==> r.1.value == s.nextUserId
    ensures Valid(s) && r.1.Ok? ==> r.1.value !in s.users && NameTaken(r.0, userName)
  {
    match UserExisted(s, userName)
    case Err(e) => (s, Err(e))
    case Ok(existed) =>
      if existed then (s, Err(Taken))
      else InsertUser(s, User(0, userName, player, ""))
  }

  // ---- RemoveUser ----

  /** Removes a user row when the player owns it. The repository's own error is ignored,
      and neither the user's libraries nor their games are removed. */
  function RemoveUser(s: Store, playerId: int, userId: int): (r: (Store, Outcome))
    ensures r.1 == Pass <==> userId in s.users && s.users[userId].player.id == playerId
    ensures userId !in s.users ==> r == (s, Fail(NotFound))
    ensures userId in s.users && s.users[userId].player.id != playerId ==> r == (s, Fail(Forbidden))
    ensures r.1.Fail? ==> r.0 == s
    ensures r.1 == Pass ==>
      && r.0.users == (if UserRemoveFails(userId) in s.faults then s.users else s.users - {userId})
      && r.0.libraries == s.libraries && r.0.games == s.games && r.0.faults == s.faults
      && r.0.nextUserId == s.nextUserId && r.0.nextLibraryId == s.nextLibraryId && r.0.nextGameId == s.nextGameId
    ensures Valid(s) ==> Valid(r.0)
  {
    match FindUser(s, userId)
    case Err(e) => (s, Fail(e))
    case Ok(user) =>
      if playerId != user.player.id then (s, Fail(Forbidden))
      else (DeleteUser(s, user).0, Pass)
  }

  // ---- EditUserInfo ----

  /** Lets a user overwrite its own personal information and nobody else's. */
  function EditUserInfo(s: Store, userId: int, targetId: int, info: string): (r: (Store, Outcome))
    ensures userId != targetId ==> r == (s, Fail(Forbidden))
    ensures r.1 == Fail(Forbidden) <==> userId != targetId
    ensures r.1 == Fail(NotFound) <==> userId == targetId && userId !in s.users
    ensures r.1 == Fail(StorageFailure) <==> userId == targetId && userId in s.users && StoreInfoFails(userId) in s.faults
    ensures userId == targetId && userId !in s.users ==> r == (s, Fail(NotFound))
    ensures r.1 == Pass <==> userId == targetId && userId in s.users && StoreInfoFails(userId) !in s.faults
    ensures r.1.Fail? ==> r.0 == s
    ensures r.1 == Pass ==>
      && r.0.users.Keys == s.users.Keys
      && r.0.users[userId] == s.users[userId].(personalInfo := info)
      && (forall id :: id in s.users && id != userId ==> r.0.users[id] == s.users[id])
      && r.0.libraries == s.libraries && r.0.games == s.games && r.0.faults == s.faults
      && r.0.nextUserId == s.nextUserId && r.0.nextLibraryId == s.nextLibraryId && r.0.nextGameId == s.nextGameId
    ensures Valid(s) ==> Valid(r.0)
  {
    if userId != targetId then (s, Fail(Forbidden))
    else match FindUser(s, userId)
      case Err(e) => (s, Fail(e))
      case Ok(user) => UpdateInfo(s, user, info)
  }

  // ---- AddLibrary ----

  /** Creates an empty library owned by an existing user. */
  function AddLibrary(s: Store, userId: int): (r: (Store, Result<int>))
    ensures userId !in s.users ==> r == (s, Err(NotFound))
    ensures r.1.Ok? <==> userId in s.users && LibraryStoreFails !in s.faults
    ensures r.1 == Err(NotFound) <==> userId !in s.users
    ensures r.1 == Err(StorageFailure) <==> userId in s.users && LibraryStoreFails in s.faults
    ensures r.1.Err? ==> r.0 == s
    ensures r.1.Ok? ==>
      && r.0.libraries == s.libraries[r.1.value := userId]
      && r.0.users == s.users && r.0.games == s.games && r.0.faults == s.faults
      && r.0.nextLibraryId == s.nextLibraryId + 1
      && r.0.nextUserId == s.nextUserId && r.0.nextGameId == s.nextGameId
    ensures Valid(s) ==> Valid(r.0)
    ensures r.1.Ok? ==> r.1.value == s.nextLibraryId
    ensures Valid(s) && r.1.Ok? ==> r.1.value !in s.libraries
  {
    match FindUser(s, userId)
    case Err(e) => (s, Err(e))
    case Ok(user) => InsertLibrary(s, Library(0, user, []))
  }

  // ---- RemoveLibrary: the cascade ----

  /** The position of the first game whose removal fails, or the length of the list
      when every removal succeeds. */
  function FirstFailingGame(faults: set<Fault>, games: seq<Game>): (k: nat)
    ensures k <= |games|
    ensures forall j :: 0 <= j < k ==> GameRemoveFails(games[j].id) !in faults
    ensures k < |games| ==> GameRemoveFails(games[k].id) in faults
  {
    if games == [] then 0
    else if GameRemoveFails(games[0].id) in faults then 0
    else 1 + FirstFailingGame(faults, games[1..])
  }

  function RemovedIds(games: seq<Game>, k: nat): set<int>
    requires k <= |games|
  {
    set j | 0 <= j < k :: games[j].id
  }

  /** Removes the games one after the other, in list order, and stops at the first
      removal that fails: the games before it are gone, it and the later ones stay. */
  function RemoveGames(s: Store, games: seq<Game>): (r: (Store, Outcome))
    ensures var k := FirstFailingGame(s.faults, games);
      && r.0 == s.(games := s.games - RemovedIds(games, k))
      && r.1 == (if k < |games| then Fail(StorageFailure) else Pass)
    decreases |games|
  {
    if games == [] then (s, Pass)
    else
      var step := DeleteGame(s, games[0]);
      if step.1.Fail? then step
      else
        var rest := RemoveGames(step.0, games[1..]);
        assert RemovedIds(games, FirstFailingGame(s.faults, games))
            == {games[0].id} + RemovedIds(games[1..], FirstFailingGame(s.faults, games[1..])) by {
          var k := FirstFailingGame(s.faults, games[1..]);
          forall x ensures x in RemovedIds(games, k + 1) <==> x in {games[0].id} + RemovedIds(games[1..], k) {
            if x in RemovedIds(games, k + 1) {
              var j :| 0 <= j < k + 1 && games[j].id == x;
              if j > 0 { assert games[1..][j - 1].id == x; }
            }
            if x in RemovedIds(games[1..], k) {
              var j :| 0 <= j < k && games[1..][j].id == x;
              assert games[j + 1].id == x;
            }
          }
        }
        rest
  }

  /** True when the user and the library can be loaded and the user owns the library:
      the point RemoveLibrary reaches before it removes anything. */
  ghost predicate OwnsLibrary(s: Store, userId: int, libraryId: int)
  {
    userId in s.users && FindLibrary(s, libraryId).Ok? && s.libraries[libraryId] == userId
  }

  /** Removes a library the caller owns: first its games, in list order, then the
      library row, and only when every game removal succeeded. */
  function RemoveLibrary(s: Store, userId: int, libraryId: int): (r: (Store, Outcome))
    ensures userId !in s.users ==> r == (s, Fail(NotFound))
    ensures userId in s.users && FindLibrary(s, libraryId).Err? ==> r == (s, Fail(NotFound))
    ensures r.1 == Fail(Forbidden) <==>
      userId in s.users && FindLibrary(s, libraryId).Ok? && s.libraries[libraryId] != userId
    ensures r.1 == Fail(NotFound) <==> userId !in s.users || FindLibrary(s, libraryId).Err?
    ensures r.1 == Fail(StorageFailure) <==>
      && OwnsLibrary(s, userId, libraryId)
      && var games := FindLibrary(s, libraryId).value.games;
         FirstFailingGame(s.faults, games) < |games| || LibraryRemoveFails(libraryId) in s.faults
    ensures !OwnsLibrary(s, userId, libraryId) ==> r.0 == s && r.1.Fail?
    ensures OwnsLibrary(s, userId, libraryId) ==>
      var games := FindLibrary(s, libraryId).value.games;
      var k := FirstFailingGame(s.faults, games);
      && r.0.users == s.users && r.0.faults == s.faults
      && r.0.nextUserId == s.nextUserId && r.0.nextLibraryId == s.nextLibraryId && r.0.nextGameId == s.nextGameId
      && r.0.games == s.games - RemovedIds(games, k)
      && (k < |games| ==> r.0.libraries == s.libraries && r.1 == Fail(StorageFailure))
      && (k == |games| ==>
            (r.1 == Pass <==> LibraryRemoveFails(libraryId) !in s.faults)
            && r.0.libraries == (if r.1 == Pass then s.libraries - {libraryId} else s.libraries))
  {
    match FindUser(s, userId)
    case Err(e) => (s, Fail(e))
    case Ok(_) =>
      match FindLibrary(s, libraryId)
      case Err(e) => (s, Fail(e))
      case Ok(library) =>
        if userId != library.user.id then (s, Fail(Forbidden))
        else
          var cleared := RemoveGames(s, library.games);
          if cleared.1.Fail? then cleared else DeleteLibrary(cleared.0, library)
  }

  // ---- AddGame ----

  /** True when the user and the library can be loaded: the point AddGame and
      RemoveGame reach before their permission checks. */
  ghost predicate BothLoad(s: Store, userId: int, libraryId: int)
  {
    userId in s.users && FindLibrary(s, libraryId).Ok?
  }

  /** Stores a game in a library owned by the caller (same user id). */
  function AddGame(s: Store, userId: int, libraryId: int, name: string, producer: string, value: Value): (r: (Store, Result<int>))
    ensures !BothLoad(s, userId, libraryId) ==> r == (s, Err(NotFound))
    ensures r.1 == Err(Forbidden) <==> BothLoad(s, userId, libraryId) && s.libraries[libraryId] != userId
    ensures r.1.Ok? <==> BothLoad(s, userId, libraryId) && s.libraries[libraryId] == userId && GameStoreFails !in s.faults
    ensures r.1 == Err(NotFound) <==> !BothLoad(s, userId, libraryId)
    ensures r.1 == Err(StorageFailure) <==>
      BothLoad(s, userId, libraryId) && s.libraries[libraryId] == userId && GameStoreFails in s.faults
    ensures r.1.Err? ==> r.0 == s
    ensures r.1.Ok? ==>
      && FindGame(r.0, r.1.value) == Ok(Game(r.1.value, libraryId, name, producer, value))
      && r.0.games == s.games[r.1.value := GameRow(libraryId, name, producer, value)]
      && r.0.users == s.users && r.0.libraries == s.libraries && r.0.faults == s.faults
      && r.0.nextGameId == s.nextGameId + 1
      && r.0.nextUserId == s.nextUserId && r.0.nextLibraryId == s.nextLibraryId
    ensures Valid(s) ==> Valid(r.0)
    ensures r.1.Ok? ==> r.1.value == s.nextGameId
    ensures Valid(s) && r.1.Ok? ==> r.1.value !in s.games
  {
    match FindUser(s, userId)
    case Err(e) => (s, Err(e))
    case Ok(user) =>
      match FindLibrary(s, libraryId)
      case Err(e) => (s, Err(e))
      case Ok(library) =>
        if user.id != library.user.id then (s, Err(Forbidden))
        else InsertGame(s, Game(0, library.id, name, producer, value))
  }

  // ---- RemoveGame ----

  /** True when the caller's player also owns the user that owns the library. */
  ghost predicate SamePlayer(s: Store, userId: int, libraryId: int)
    requires BothLoad(s, userId, libraryId)
  {
    s.users[userId].player.id == s.users[s.libraries[libraryId]].player.id
  }

  /** Removes a game when the caller and the library's owner belong to the same player.
      The permission check comes before the game is looked up, and the game need not
      belong to that library. */
  function RemoveGame(s: Store, userId: int, libraryId: int, gameId: int): (r: (Store, Outcome))
    ensures !BothLoad(s, userId, libraryId) ==> r == (s, Fail(NotFound))
    ensures r.1 == Fail(Forbidden) <==> BothLoad(s, userId, libraryId) && !SamePlayer(s, userId, libraryId)
    ensures r.1 == Pass <==>
      BothLoad(s, userId, libraryId) && SamePlayer(s, userId, libraryId)
      && gameId in s.games && GameRemoveFails(gameId) !in s.faults
    ensures BothLoad(s, userId, libraryId) && SamePlayer(s, userId, libraryId) && gameId !in s.games ==>
      r == (s, Fail(NotFound))
    ensures r.1 == Fail(NotFound) <==>
      !BothLoad(s, userId, libraryId) || (SamePlayer(s, userId, libraryId) && gameId !in s.games)
    ensures r.1 == Fail(StorageFailure) <==>
      && BothLoad(s, userId, libraryId) && SamePlayer(s, userId, libraryId)
      && gameId in s.games && GameRemoveFails(gameId) in s.faults
    ensures r.1.Fail? ==> r.0 == s
    ensures r.1 == Pass ==>
      && r.0.games == s.games - {gameId}
      && r.0.users == s.users && r.0.libraries == s.libraries && r.0.faults == s.faults
      && r.0.nextUserId == s.nextUserId && r.0.nextLibraryId == s.nextLibraryId && r.0.nextGameId == s.nextGameId
    ensures Valid(s) ==> Valid(r.0)
  {
    match FindUser(s, userId)
    case Err(e) => (s, Fail(e))
    case Ok(user) =>
      match FindLibrary(s, libraryId)
      case Err(e) => (s, Fail(e))
      case Ok(library) =>
        if user.player.id != library.user.player.id then (s, Fail(Forbidden))
        else match FindGame(s, gameId)
          case Err(e) => (s, Fail(e))
          case Ok(game) => DeleteGame(s, game)
  }
}
