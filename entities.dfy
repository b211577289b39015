/** The records the profile use cases pass around, and their error outcomes. */
module Entities {

  /** A player identity; players are created outside this core. */
  datatype Player = Player(id: int, name: string)

  /** A user account, created by some player. */
  datatype User = User(id: int, name: string, player: Player, personalInfo: string)

  /** A game's value is carried around untouched: no arithmetic is done on it. */
  type Value = seq<bv8>

  datatype Game = Game(id: int, libraryId: int, name: string, producer: string, value: Value)

  /** A library as a lookup returns it: with its full owner and the games that point at it. */
  datatype Library = Library(id: int, user: User, games: seq<Game>)

  /** What went wrong: a missing row, an ownership refusal, a taken user name,
      or a failing repository call. */
  datatype Error = NotFound | Forbidden | Taken | StorageFailure

  /** A value, or the error that replaced it. */
  datatype Result<T> = Ok(value: T) | Err(error: Error)

  /** The outcome of a call that returns only an error (nil is Pass). */
  datatype Outcome = Pass | Fail(error: Error)
}
