/** Keeping the catalog fresh: one fetch-and-install attempt (main.go:58-74),
    the attempt made at startup and the periodic ones after it
    (main.go:76-91). The HTTP request and the JSON decoder are inputs: the
    request's outcome is a `Fetch<string>` (the response body or the
    transport error) and the decoder a function from body to games. */
module Refresh {
  import opened Catalog

  /** Outcome of an operation that can fail with an error message. */
  datatype Fetch<T> = Ok(value: T) | Err(message: string)

  datatype Option<T> = None | Some(value: T)

  /** What one attempt yields: the request's error if the request failed,
      otherwise whatever decoding its body yields. */
  function Fetched(response: Fetch<string>, decode: string -> Fetch<seq<Game>>): (r: Fetch<seq<Game>>)
    ensures r.Ok? <==> response.Ok? && decode(response.value).Ok?
    ensures r.Ok? ==> r.value == decode(response.value).value
    ensures response.Err? ==> r == Err(response.message)
  {
    match response
    case Err(e) => Err(e)
    case Ok(body) => decode(body)
  }

  /** The catalog installed after a series of attempts, starting from
      `current`: the games of the latest attempt that succeeded, or `current`
      when none did. */
  function Installed(current: seq<Game>, responses: seq<Fetch<string>>, decode: string -> Fetch<seq<Game>>): seq<Game>
    decreases |responses|
  {
    if responses == [] then current
    else
      var last := Fetched(responses[|responses| - 1], decode);
      if last.Ok? then last.value
      else Installed(current, responses[..|responses| - 1], decode)
  }

  /** One attempt: the store is written only when both the request and the
      decoding succeed, and then with exactly the decoded games; on either
      failure the error is returned and the store keeps its catalog. */
  method FetchGames(store: GameStore, response: Fetch<string>, decode: string -> Fetch<seq<Game>>)
    returns (err: Option<string>)
    modifies store
    ensures err.None? <==> Fetched(response, decode).Ok?
    ensures err.Some? ==> err.value == Fetched(response, decode).message
    ensures store.games == Installed(old(store.games), [response], decode)
  {
    match response
    case Err(e) =>
      return Some(e);
    case Ok(body) =>
      var decoded := decode(body);
      if decoded.Err? {
        return Some(decoded.message);
      }
      store.SetGames(decoded.value);
      err := None;
  }

  /** Runs the attempts in order, logging and otherwise ignoring failures:
      the store ends up with the catalog `Installed` describes. */
  method RefreshLoop(store: GameStore, responses: seq<Fetch<string>>, decode: string -> Fetch<seq<Game>>)
    modifies store
    ensures store.games == Installed(old(store.games), responses, decode)
  {
    var i := 0;
    while i < |responses|
      invariant 0 <= i <= |responses|
      invariant store.games == Installed(old(store.games), responses[..i], decode)
    {
      var err := FetchGames(store, responses[i], decode);
      assert responses[..i + 1][..i] == responses[..i];
      i := i + 1;
    }
    assert responses[..i] == responses;
  }

  /** Process start: an empty store, one attempt before serving, then one
      attempt per refresh period; a failed first attempt leaves the store
      empty rather than stopping the program. */
  method Startup(first: Fetch<string>, periodic: seq<Fetch<string>>, decode: string -> Fetch<seq<Game>>)
    returns (store: GameStore)
    ensures fresh(store)
    ensures store.games == Installed([], [first] + periodic, decode)
  {
    store := new GameStore();
    RefreshLoop(store, [first] + periodic, decode);
  }

  /** A failed attempt never clears or alters the catalog. */
  lemma {:induction false} FailuresKeepCatalog(current: seq<Game>, responses: seq<Fetch<string>>, decode: string -> Fetch<seq<Game>>)
    requires forall k :: 0 <= k < |responses| ==> Fetched(responses[k], decode).Err?
    ensures Installed(current, responses, decode) == current
    decreases |responses|
  {
    if responses != [] {
      FailuresKeepCatalog(current, responses[..|responses| - 1], decode);
    }
  }

  /** The installed catalog is always a complete snapshot: either the one
      held before, or exactly the games of one successful attempt. */
  lemma {:induction false} InstalledIsSnapshot(current: seq<Game>, responses: seq<Fetch<string>>, decode: string -> Fetch<seq<Game>>)
    ensures var r := Installed(current, responses, decode);
      r == current || exists k :: 0 <= k < |responses| && Fetched(responses[k], decode) == Ok(r)
    decreases |responses|
  {
    if responses != [] {
      var n := |responses| - 1;
      var prefix := responses[..n];
      InstalledIsSnapshot(current, prefix, decode);
      if Fetched(responses[n], decode).Err? {
        var r := Installed(current, prefix, decode);
        if r != current {
          var k :| 0 <= k < |prefix| && Fetched(prefix[k], decode) == Ok(r);
          assert responses[k] == prefix[k];
        }
      }
    }
  }

  /** The latest successful attempt wins: once an attempt succeeds and every
      later one fails, its games are the catalog. */
  lemma {:induction false} LatestSuccessWins(current: seq<Game>, responses: seq<Fetch<string>>, decode: string -> Fetch<seq<Game>>, k: nat)
    requires k < |responses| && Fetched(responses[k], decode).Ok?
    requires forall j :: k < j < |responses| ==> Fetched(responses[j], decode).Err?
    ensures Installed(current, responses, decode) == Fetched(responses[k], decode).value
    decreases |responses|
  {
    var n := |responses| - 1;
    if k < n {
      var prefix := responses[..n];
      assert forall j :: k < j < |prefix| ==> prefix[j] == responses[j];
      LatestSuccessWins(current, prefix, decode, k);
    }
  }

  /** Attempts compose: running two series one after the other is running
      their concatenation. */
  lemma {:induction false} InstalledAppend(current: seq<Game>, earlier: seq<Fetch<string>>, later: seq<Fetch<string>>, decode: string -> Fetch<seq<Game>>)
    ensures Installed(current, earlier + later, decode)
         == Installed(Installed(current, earlier, decode), later, decode)
    decreases |later|
  {
    if later == [] {
      assert earlier + later == earlier;
    } else {
      var n := |later| - 1;
      assert (earlier + later)[..|earlier + later| - 1] == earlier + later[..n];
      assert (earlier + later)[|earlier + later| - 1] == later[n];
      InstalledAppend(current, earlier, later[..n], decode);
    }
  }
}
