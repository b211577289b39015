/** The profile interactor: each use case looks entities up through the repositories,
    checks ownership, then writes. Every method leaves the repositories as the matching
    Profile function says and keeps the store's invariant. */
module Usecases {
  import opened Entities
  import opened Storage
  import opened Repositories
  import Profile
  import ProfileProperties

  class ProfileInteractor {
    const repo: MemoryStore

    constructor (repo: MemoryStore)
      ensures this.repo == repo
    {
      this.repo := repo;
    }

    /** Lists a library's games, each without its library id, when the caller's user id
        equals the library id; reads the repositories and changes nothing. */
    method ShowLibrary(userId: int, libraryId: int) returns (info: string, games: seq<Game>, err: Outcome)
      ensures Profile.Shown(info, games, err) == Profile.ShowLibrary(repo.Abs(), userId, libraryId)
    {
      var user := repo.FindUser(userId);
      if user.Err? {
        return "", [], Fail(NotFound);
      }
      var loaded := repo.LoadInfo(user.value);
      if loaded.Err? {
        return "", [], Fail(StorageFailure);
      }
      info := loaded.value;
      var library := repo.FindLibrary(libraryId);
      if library.Err? {
        return "", [], Fail(NotFound);
      }
      if user.value.id != libraryId {
        return info, [], Fail(Forbidden);
      }
      var listed := new Game[|library.value.games|];
      for i := 0 to |library.value.games|
        invariant forall j :: 0 <= j < i ==> listed[j] == Profile.Listed(library.value.games[j])
      {
        var game := library.value.games[i];
        listed[i] := Game(game.id, 0, game.name, game.producer, game.value);
      }
      games, err := listed[..], Pass;
    }

    method AddUser(player: Player, userName: string) returns (r: Result<int>)
      requires repo.Valid()
      modifies repo
      ensures repo.Valid()
      ensures (repo.Abs(), r) == Profile.AddUser(old(repo.Abs()), player, userName)
    {
      var existed := repo.UserExisted(userName);
      if existed.Err? {
        return Err(existed.error);
      }
      if existed.value {
        return Err(Taken);
      }
      var user := User(0, userName, player, "");
      r := repo.StoreUser(user);
    }

    method RemoveUser(playerId: int, userId: int) returns (err: Outcome)
      requires repo.Valid()
      modifies repo
      ensures repo.Valid()
      ensures (repo.Abs(), err) == Profile.RemoveUser(old(repo.Abs()), playerId, userId)
    {
      var user := repo.FindUser(userId);
      if user.Err? {
        return Fail(user.error);
      }
      if playerId != user.value.player.id {
        return Fail(Forbidden);
      }
      var ignored := repo.RemoveUser(user.value);
      err := Pass;
    }

    method EditUserInfo(userId: int, targetId: int, info: string) returns (err: Outcome)
      requires repo.Valid()
      modifies repo
      ensures repo.Valid()
      ensures (repo.Abs(), err) == Profile.EditUserInfo(old(repo.Abs()), userId, targetId, info)
    {
      if userId != targetId {
        return Fail(Forbidden);
      }
      var user := repo.FindUser(userId);
      if user.Err? {
        return Fail(user.error);
      }
      err := repo.StoreInfo(user.value, info);
    }

    method AddLibrary(userId: int) returns (r: Result<int>)
      requires repo.Valid()
      modifies repo
      ensures repo.Valid()
      ensures (repo.Abs(), r) == Profile.AddLibrary(old(repo.Abs()), userId)
    {
      var user := repo.FindUser(userId);
      if user.Err? {
        return Err(user.error);
      }
      var library := Library(0, user.value, []);
      r := repo.StoreLibrary(library);
    }

    /** Removes the library's games one by one, in list order, returning at the first
        failure; the library row goes only after every game is gone. */
    method RemoveLibrary(userId: int, libraryId: int) returns (err: Outcome)
      requires repo.Valid()
      modifies repo
      ensures repo.Valid()
      ensures (repo.Abs(), err) == Profile.RemoveLibrary(old(repo.Abs()), userId, libraryId)
    {
      ProfileProperties.RemoveLibraryPreservesValid(repo.Abs(), userId, libraryId);
      var user := repo.FindUser(userId);
      if user.Err? {
        return Fail(user.error);
      }
      var library := repo.FindLibrary(libraryId);
      if library.Err? {
        return Fail(library.error);
      }
      if userId != library.value.user.id {
        return Fail(Forbidden);
      }
      var games := library.value.games;
      for i := 0 to |games|
        invariant Profile.RemoveGames(old(repo.Abs()), games) == Profile.RemoveGames(repo.Abs(), games[i..])
      {
        assert games[i..][0] == games[i] && games[i..][1..] == games[i + 1..];
        err := repo.RemoveGame(games[i]);
        if err.Fail? {
          return;
        }
      }
      err := repo.RemoveLibrary(library.value);
    }

    /** Stores a game in a library whose owner is the caller. */
    method AddGame(userId: int, libraryId: int, name: string, producer: string, value: Value) returns (r: Result<int>)
      requires repo.Valid()
      modifies repo
      ensures repo.Valid()
      ensures (repo.Abs(), r) == Profile.AddGame(old(repo.Abs()), userId, libraryId, name, producer, value)
    {
      var user := repo.FindUser(userId);
      if user.Err? {
        return Err(user.error);
      }
      var library := repo.FindLibrary(libraryId);
      if library.Err? {
        return Err(library.error);
      }
      if user.value.id != library.value.user.id {
        return Err(Forbidden);
      }
      var game := Game(0, library.value.id, name, producer, value);
      r := repo.StoreGame(game);
    }

    /** Removes a game when the caller and the library's owner share a player; the game
        is looked up only after that check. */
    method RemoveGame(userId: int, libraryId: int, gameId: int) returns (err: Outcome)
      requires repo.Valid()
      modifies repo
      ensures repo.Valid()
      ensures (repo.Abs(), err) == Profile.RemoveGame(old(repo.Abs()), userId, libraryId, gameId)
    {
      var user := repo.FindUser(userId);
      if user.Err? {
        return Fail(user.error);
      }
      var library := repo.FindLibrary(libraryId);
      if library.Err? {
        return Fail(library.error);
      }
      if user.value.player.id != library.value.user.player.id {
        return Fail(Forbidden);
      }
      var game := repo.FindGame(gameId);
      if game.Err? {
        return Fail(game.error);
      }
      err := repo.RemoveGame(game.value);
    }
  }
}
