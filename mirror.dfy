/** The mirror process: its environment variable, its two files and the
    global games snapshot, with the operations that change them. */
module Mirror {

  import opened Wrappers
  import opened Json
  import opened Games
  import opened Auth

  /** How a games refresh ends. `NoCookie`: `BB_COOKIES` is unset, so
      decoding it raises before the request; `KeyMissing(i)`: `del` raised
      `KeyError` on record `i`; `Committed`: the function returned. */
  datatype FetchOutcome = Committed | NoCookie | KeyMissing(index: nat)

  /** The state the mirror reads and writes. */
  class Process {
    /** The `BB_COOKIES` environment variable. */
    var envCookies: Option<Cookies>
    /** The contents of `bb_cookies.txt`; None when the file does not exist. */
    var cookieFile: Option<Cookies>
    /** The global `game_data`; None is its initial value, an empty dict. */
    var gameData: Option<seq<Game>>
    /** The contents of `games.json`; None when the file does not exist. */
    var gamesFile: Option<seq<Game>>

    /** The process at start-up: `game_data` is still the empty dict. */
    constructor (env: Option<Cookies>, file: Option<Cookies>, disk: Option<seq<Game>>)
      ensures envCookies == env && cookieFile == file
      ensures gameData == None && gamesFile == disk
    {
      envCookies := env;
      cookieFile := file;
      gameData := None;
      gamesFile := disk;
    }

    /** Where the cookie is kept now. */
    function Creds(): Credentials
      reads this
    {
      Credentials(envCookies, cookieFile)
    }

    /** The body of the `/games` route: the current snapshot as JSON. Before
        the first refresh it is the empty object. */
    function ShowGames(): (v: Value)
      reads this
      ensures v.Obj? <==> gameData.None?
      ensures gameData.None? ==> v.fields == map[]
      ensures gameData.Some? ==> v.Arr? && |v.items| == |gameData.value|
      ensures gameData.Some? ==> forall i :: 0 <= i < |v.items| ==> v.items[i] == Obj(gameData.value[i])
    {
      match gameData
      case None => Obj(map[])
      case Some(gs) => Arr(GamesJson(gs))
    }

    /** Make sure a session cookie is in the environment: keep one already
        there, else copy the file's, else log in and store the login's
        cookies in both the variable and the file. `login` is what the
        sign-in request would return. */
    method SetAuthVar(login: Cookies) returns (path: AuthPath)
      modifies this
      ensures path == PathFor(old(Creds()))
      ensures Creds() == ResolveAuth(old(Creds()), login)
      ensures gameData == old(gameData) && gamesFile == old(gamesFile)
    {
      if envCookies.Some? {
        return EnvAlreadySet;
      }
      if cookieFile.Some? {
        envCookies := cookieFile;
        return LoadedFromFile;
      }
      envCookies := Some(login);
      cookieFile := Some(login);
      return LoggedIn;
    }

    /** Refresh the games snapshot from `response`, the parsed games list.
        The global is replaced first, then each record loses its event-batch
        field in place, and only then is the list written to `games.json`. */
    method GetGames(response: seq<Game>) returns (outcome: FetchOutcome)
      modifies this
      ensures envCookies == old(envCookies) && cookieFile == old(cookieFile)
      ensures old(envCookies).None? ==>
        outcome == NoCookie && gameData == old(gameData) && gamesFile == old(gamesFile)
      ensures old(envCookies).Some? && AllCarryBatches(response) ==>
        outcome == Committed && gameData == Some(StripAll(response)) && gamesFile == gameData
      ensures old(envCookies).Some? && FirstMissing(response).Some? ==>
        var k := FirstMissing(response).value;
        outcome == KeyMissing(k) && gameData == Some(StripPrefix(response, k))
        && gamesFile == old(gamesFile)
      ensures outcome == Committed ==>
        forall i :: 0 <= i < |gameData.value| ==> EventBatchesKey !in gameData.value[i]
    {
      if envCookies.None? {
        return NoCookie;
      }
      gameData := Some(response);
      StripPrefixEnds(response);
      var i := 0;
      while i < |response|
        invariant i <= |response|
        invariant gameData == Some(StripPrefix(response, i))
        invariant AllCarryBatches(response[..i])
        invariant envCookies == old(envCookies) && cookieFile == old(cookieFile)
        invariant gamesFile == old(gamesFile)
      {
        StripPrefixAt(response, i, i);
        var game := gameData.value[i];
        if EventBatchesKey !in game {
          FirstMissingIs(response, i);
          return KeyMissing(i);
        }
        StripPrefixStep(response, i);
        gameData := Some(gameData.value[i := game - {EventBatchesKey}]);
        AllCarryBatchesExtend(response, i);
        i := i + 1;
      }
      assert response[..i] == response;
      StrippedLacksBatches(response);
      gamesFile := gameData;
      return Committed;
    }

    /** The program's entry: set up the cookie, then refresh the games once.
        Set-up always leaves a cookie, so the refresh never fails for want
        of one. */
    method Startup(login: Cookies, response: seq<Game>) returns (path: AuthPath, outcome: FetchOutcome)
      modifies this
      ensures path == PathFor(old(Creds()))
      ensures Creds() == ResolveAuth(old(Creds()), login)
      ensures outcome != NoCookie
      ensures outcome == Committed <==> AllCarryBatches(response)
      ensures outcome == Committed ==> gameData == Some(StripAll(response)) && gamesFile == gameData
      ensures FirstMissing(response).Some? ==>
        var k := FirstMissing(response).value;
        outcome == KeyMissing(k) && gameData == Some(StripPrefix(response, k))
        && gamesFile == old(gamesFile)
    {
      path := SetAuthVar(login);
      outcome := GetGames(response);
    }
  }
}
