/** Properties that relate the profile use cases to each other and to the store's
    invariant: the RemoveLibrary cascade never orphans a game, stops at the first
    failing removal and leaves the library reachable for a retry; a new library holds
    no games; removing a game twice; and the quirks of ShowLibrary and RemoveUser. */
module ProfileProperties {
  import opened Entities
  import opened Storage
  import opened Profile

  /** The cascade removes a library row only after every game pointing at it is gone,
      so no game is ever left pointing at a removed library. */
  lemma RemoveLibraryPreservesValid(s: Store, userId: int, libraryId: int)
    requires Valid(s)
    ensures Valid(RemoveLibrary(s, userId, libraryId).0)
  {
    var r := RemoveLibrary(s, userId, libraryId);
    if OwnsLibrary(s, userId, libraryId) && r.1 == Pass {
      AllGamesOfLibraryRemoved(s, libraryId);
    }
  }

  /** After a successful RemoveLibrary no game points at the library, and the library
      cannot be found any more. */
  lemma RemoveLibraryLeavesNoGames(s: Store, userId: int, libraryId: int)
    requires Valid(s)
    requires RemoveLibrary(s, userId, libraryId).1 == Pass
    ensures var t := RemoveLibrary(s, userId, libraryId).0;
      && (forall id :: id in t.games ==> t.games[id].libraryId != libraryId)
      && FindLibrary(t, libraryId) == Err(NotFound)
  {
    AllGamesOfLibraryRemoved(s, libraryId);
  }

  /** Removing every game a found library lists removes every game that points at it. */
  lemma AllGamesOfLibraryRemoved(s: Store, libraryId: int)
    requires Valid(s) && FindLibrary(s, libraryId).Ok?
    ensures var games := FindLibrary(s, libraryId).value.games;
      forall id :: id in s.games && s.games[id].libraryId == libraryId ==> id in RemovedIds(games, |games|)
  {
    var games := FindLibrary(s, libraryId).value.games;
    LibraryListsAllItsGames(s, libraryId);
    forall id | id in s.games && s.games[id].libraryId == libraryId
      ensures id in RemovedIds(games, |games|)
    {
      var i :| 0 <= i < |games| && games[i].id == id;
    }
  }

  /** When removing game k of the library fails, game k and every later game are still
      stored, unchanged, and the library can still be found by a retry. */
  lemma RemoveLibraryStopsAtFirstFailure(s: Store, userId: int, libraryId: int)
    requires OwnsLibrary(s, userId, libraryId)
    requires FirstFailingGame(s.faults, FindLibrary(s, libraryId).value.games) < |FindLibrary(s, libraryId).value.games|
    ensures var games := FindLibrary(s, libraryId).value.games;
      var k := FirstFailingGame(s.faults, games);
      var r := RemoveLibrary(s, userId, libraryId);
      && r.1 == Fail(StorageFailure)
      && FindLibrary(r.0, libraryId).Ok?
      && (forall j :: k <= j < |games| ==> games[j].id in r.0.games && r.0.games[games[j].id] == s.games[games[j].id])
      && (forall j :: 0 <= j < k ==> games[j].id !in r.0.games)
  {
  }

  /** A library just added holds no games. */
  lemma AddLibraryHoldsNoGames(s: Store, userId: int)
    requires Valid(s) && AddLibrary(s, userId).1.Ok?
    ensures var r := AddLibrary(s, userId);
      FindLibrary(r.0, r.1.value) == Ok(Library(r.1.value, FindUser(s, userId).value, []))
  {
    var r := AddLibrary(s, userId);
    assert r.0.games == s.games && r.1.value !in s.libraries;
    GamesInNone(r.0.games, r.1.value, 1, r.0.nextGameId);
    assert FindUser(r.0, userId) == FindUser(s, userId);
  }

  /** A game just added is listed by its library, with the library's id. */
  lemma AddGameIsListed(s: Store, userId: int, libraryId: int, name: string, producer: string, value: Value)
    requires Valid(s) && AddGame(s, userId, libraryId, name, producer, value).1.Ok?
    ensures var r := AddGame(s, userId, libraryId, name, producer, value);
      && FindLibrary(r.0, libraryId).Ok?
      && exists i :: 0 <= i < |FindLibrary(r.0, libraryId).value.games|
           && FindLibrary(r.0, libraryId).value.games[i] == Game(r.1.value, libraryId, name, producer, value)
  {
    var r := AddGame(s, userId, libraryId, name, producer, value);
    LibraryListsAllItsGames(r.0, libraryId);
    var gs := FindLibrary(r.0, libraryId).value.games;
    var i :| 0 <= i < |gs| && gs[i].id == r.1.value;
    assert gs[i] == Game(r.1.value, libraryId, name, producer, value);
  }

  /** Removing the same game twice: the second request finds no game. */
  lemma RemoveGameTwice(s: Store, userId: int, libraryId: int, gameId: int)
    requires RemoveGame(s, userId, libraryId, gameId).1 == Pass
    ensures var t := RemoveGame(s, userId, libraryId, gameId).0;
      RemoveGame(t, userId, libraryId, gameId) == (t, Fail(NotFound))
  {
  }

  /** RemoveUser does not cascade: the user's libraries stay stored but can no longer be
      found, since a library lookup needs its owner. */
  lemma RemoveUserStrandsLibraries(s: Store, playerId: int, userId: int, libraryId: int)
    requires libraryId in s.libraries && s.libraries[libraryId] == userId
    requires RemoveUser(s, playerId, userId).1 == Pass && UserRemoveFails(userId) !in s.faults
    ensures var t := RemoveUser(s, playerId, userId).0;
      && libraryId in t.libraries
      && t.games == s.games
      && FindLibrary(t, libraryId) == Err(NotFound)
  {
  }

  /** Ids are never handed out twice, so a user added after a removal never takes the
      removed user's id, and the stranded library stays out of reach. */
  lemma StrandedLibraryStaysStranded(s: Store, playerId: int, userId: int, libraryId: int, player: Player, userName: string)
    requires Valid(s)
    requires libraryId in s.libraries && s.libraries[libraryId] == userId
    requires RemoveUser(s, playerId, userId).1 == Pass && UserRemoveFails(userId) !in s.faults
    ensures var t := AddUser(RemoveUser(s, playerId, userId).0, player, userName).0;
      && libraryId in t.libraries
      && FindLibrary(t, libraryId) == Err(NotFound)
  {
  }

  /** ShowLibrary's check ignores ownership: user 1 owns library 2 and is refused,
      while user 2, owned by another player, is shown the games. */
  lemma ShowLibraryIgnoresOwner()
    ensures var s := Store(
              map[1 := UserRow("ann", Player(7, "p7"), "a"), 2 := UserRow("bob", Player(8, "p8"), "b")],
              map[2 := 1],
              map[1 := GameRow(2, "Chess", "Acme", [])],
              3, 3, 2, {});
      && Valid(s)
      && ShowLibrary(s, 1, 2).err == Fail(Forbidden)
      && ShowLibrary(s, 2, 2) == Shown("b", [Game(1, 0, "Chess", "Acme", [])], Pass)
  {
  }

  /** One session from an empty store: a user, a library and a game are added (each
      table hands out id 1), the owner sees the game, a missing user is refused, the
      name cannot be taken twice, and the cascade leaves nothing behind. */
  lemma SessionFromEmptyStore()
    ensures var s0 := Empty({});
      var added := AddUser(s0, Player(1, "Cam"), "camuser");
      var created := AddLibrary(added.0, 1);
      var stored := AddGame(created.0, 1, 1, "Chess", "Acme", [9]);
      var removed := RemoveLibrary(stored.0, 1, 1);
      && added.1 == Ok(1) && created.1 == Ok(1) && stored.1 == Ok(1)
      && ShowLibrary(stored.0, 1, 1) == Shown("", [Game(1, 0, "Chess", "Acme", [9])], Pass)
      && ShowLibrary(stored.0, 2, 1).err == Fail(NotFound)
      && AddUser(stored.0, Player(1, "Cam"), "camuser") == (stored.0, Err(Taken))
      && removed.1 == Pass
      && removed.0.games == map[] && removed.0.libraries == map[]
      && ShowLibrary(removed.0, 1, 1).err == Fail(NotFound)
  {
    SessionBuildsStore();
    SessionOnStoredStore();
  }

  /** The store the session reaches after adding its user, library and game. */
  function SessionStore(): Store
  {
    Store(map[1 := UserRow("camuser", Player(1, "Cam"), "")], map[1 := 1],
          map[1 := GameRow(1, "Chess", "Acme", [9])], 2, 2, 2, {})
  }

  lemma SessionBuildsStore()
    ensures var added := AddUser(Empty({}), Player(1, "Cam"), "camuser");
      var created := AddLibrary(added.0, 1);
      var stored := AddGame(created.0, 1, 1, "Chess", "Acme", [9]);
      && added.1 == Ok(1) && created.1 == Ok(1) && stored == (SessionStore(), Ok(1))
  {
    var s0 := Empty({});
    assert !NameTaken(s0, "camuser");
    var added := AddUser(s0, Player(1, "Cam"), "camuser");
    assert added == (Store(map[1 := UserRow("camuser", Player(1, "Cam"), "")], map[], map[], 2, 1, 1, {}), Ok(1));
    var created := AddLibrary(added.0, 1);
    assert created == (added.0.(libraries := map[1 := 1], nextLibraryId := 2), Ok(1));
  }

  lemma SessionOnStoredStore()
    ensures var s := SessionStore();
      var removed := RemoveLibrary(s, 1, 1);
      && ShowLibrary(s, 1, 1) == Shown("", [Game(1, 0, "Chess", "Acme", [9])], Pass)
      && ShowLibrary(s, 2, 1).err == Fail(NotFound)
      && AddUser(s, Player(1, "Cam"), "camuser") == (s, Err(Taken))
      && removed.1 == Pass
      && removed.0.games == map[] && removed.0.libraries == map[]
      && ShowLibrary(removed.0, 1, 1).err == Fail(NotFound)
  {
    var s := SessionStore();
    assert GamesOf(s, 1) == [Game(1, 1, "Chess", "Acme", [9])];
    assert NameTaken(s, "camuser") by {
      assert s.users[1].name == "camuser";
    }
    var listed := [Game(1, 1, "Chess", "Acme", [9])];
    assert RemovedIds(listed, 1) == {1} by {
      assert listed[0].id == 1;
      forall x | x in RemovedIds(listed, 1) ensures x == 1 {
        var j :| 0 <= j < 1 && listed[j].id == x;
      }
    }
  }
}
