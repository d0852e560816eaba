/** The in-memory game catalog: the record type the upstream provider
    returns and the store that holds the current snapshot (main.go:17-56). */
module Catalog {

  /** One catalog entry, with the ten fields of the upstream record. */
  datatype Game = Game(
    id: int,
    title: string,
    thumbnail: string,
    shortDescription: string,
    gameUrl: string,
    genre: string,
    platform: string,
    publisher: string,
    developer: string,
    releaseDate: string)

  /** Go's zero value of Game: every string empty and the id 0. */
  const ZeroGame := Game(0, "", "", "", "", "", "", "", "", "")

  /** What one GetRandom call may legitimately return for a catalog:
      `found` exactly when the catalog has an entry, an entry of the catalog
      when found, the zero value otherwise. */
  predicate IsDraw(games: seq<Game>, pick: (Game, bool)) {
    && pick.1 == (|games| > 0)
    && (pick.1 ==> pick.0 in games)
    && (!pick.1 ==> pick.0 == ZeroGame)
  }

  /** The store shared by the refresh loop and every stream session. The
      read/write lock of the original is not modelled: every operation here
      runs to completion before the next one starts. */
  class GameStore {
    var games: seq<Game>

    /** A store as the program declares it: no games until the first fetch. */
    constructor ()
      ensures games == []
    {
      games := [];
    }

    /** Installs a new snapshot wholesale; nothing of the old one survives. */
    method SetGames(newGames: seq<Game>)
      modifies this
      ensures games == newGames
    {
      games := newGames;
    }

    /** Draws one entry at an index in [0, |games|), chosen by the caller's
        random source; reports `false` with the zero value on an empty store.
        Writes nothing (no modifies clause). */
    method GetRandom() returns (game: Game, found: bool)
      ensures found <==> |games| > 0
      ensures found ==> exists i :: 0 <= i < |games| && games[i] == game
      ensures !found ==> game == ZeroGame
    {
      if |games| == 0 {
        return ZeroGame, false;
      }
      var i :| 0 <= i < |games|;
      game, found := games[i], true;
    }

    /** The number of games in the current snapshot. Writes nothing. */
    method Count() returns (n: nat)
      ensures n == |games|
      ensures n == 0 <==> games == []
    {
      n := |games|;
    }
  }
}
