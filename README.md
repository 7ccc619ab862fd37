# blaseball-simple-mirror: the games snapshot and the session cookie

The mirror polls the Blaseball games endpoint for one fixed season, keeps the
parsed list of games in a process-wide global, strips the large
`gameEventBatches` field from every game record, writes the list to
`games.json` and serves the global at `/games`. Before its first refresh it
makes sure a session cookie is available in the `BB_COOKIES` environment
variable, taking it from `bb_cookies.txt` or from a fresh login.

This project models that logic in Dafny, with the I/O replaced by state:

- `wrappers.dfy`: `Option`, for a variable that is unset or a file that does not exist.
- `json.dfy`: `Value`, a parsed JSON document.
- `games.dfy` (module `Games`): what the refresh does to the response. `Strip`
  removes the field from one record, `StripAll` from a list, `StripPrefix` is the
  list after the loop has handled its first `n` records, and `FirstMissing` is
  the first record whose `del` raises `KeyError`. Lemmas state what a
  refresh leaves behind, both when it returns and when it raises.
- `auth.dfy` (module `Auth`): the env-variable, then file, then login precedence,
  as the function `ResolveAuth` over the two places a cookie is kept.
- `mirror.dfy` (module `Mirror`): class `Process`. Its fields are the
  environment variable, `bb_cookies.txt`, the global `game_data` and
  `games.json`. `SetAuthVar` and `GetGames` change them step by step, as the
  program does. `ShowGames` is the read behind the `/games` route. `Startup` is the
  program's entry sequence.

What `GetGames` states, in order of the program's steps:

1. If `BB_COOKIES` is unset, decoding it raises before any request is made,
   and nothing changes (`NoCookie`).
2. Otherwise the global is replaced by the new response first.
3. The loop then deletes `gameEventBatches` from each record in place.
4. If every record carries the field, the global ends up as the fully stripped
   list. Length and order are kept, and every other field keeps its value. That
   same list is what `games.json` receives (`Committed`).
5. If record `k` is the first to lack the field, `del` raises `KeyError`
   (`KeyMissing(k)`). The global then holds the NEW list, with records before
   `k` stripped and records from `k` on untouched. `games.json` keeps its
   previous contents, so memory and disk disagree.

A reader might expect a snapshot that is replaced only after a fetch fully
succeeds, so that a failed fetch leaves the previous snapshot untouched. The
code instead reassigns `game_data` before the stripping loop (mirror.py:42), so
a `KeyError` leaves a partly stripped new list in memory while `games.json`
keeps the previous one. The model follows the code. `FailedStripExposesBatches`
states the consequence: after such a failure, readers of `/games` still see
event batches exactly when some record after the failing one carries them.

## Model

| member | source | states |
|---|---|---|
| `Games.StripAll` | mirror.py:44-45 | stripping every record keeps the number of game records |
| `Games.StripAllAt` | mirror.py:44-45 | record i after the loop is record i of the response minus `gameEventBatches` (order kept) |
| `Games.StrippedLacksBatches` | mirror.py:44-45 | after a complete loop no record contains `gameEventBatches` |
| `Games.StrippedKeepsOtherFields` | mirror.py:45 | every key other than `gameEventBatches` is present after stripping exactly when it was before, with the same value |
| `Games.StripPrefixAt` | mirror.py:44-45 | after n iterations, records before n are stripped, records from n on are untouched, and the length is unchanged |
| `Games.StripPrefixStep` | mirror.py:45 | one iteration replaces exactly record n by its stripped form and nothing else |
| `Games.FirstMissing` | mirror.py:44-45 | `del` raises on some record iff not every record carries the field; the index named lacks it and every earlier record has it |
| `Games.FirstMissingIs` | mirror.py:44-45 | the first record that lacks the field, after records that all carry it, is exactly where `KeyError` is raised (the index `FirstMissing`'s contract makes unique) |
| `Games.FailedStripExposesBatches` | mirror.py:42-45 | after a `KeyError` at record k, the in-memory list shows event batches iff some record after k carries them |
| `Games.RestripFailsAtFirstRecord` | mirror.py:44-45 | a remark on non-idempotence, not a path the program takes: running the deletion loop over an already stripped non-empty list raises on its first record, which is why each refresh strips a freshly parsed response |
| `Games.GamesJson` | mirror.py:59 | the JSON list served has one object per game record, in order, equal to it |
| `Auth.PathFor` | mirror.py:10-25 | the login branch is taken iff neither the env variable nor the file holds a cookie; the env branch iff the variable is set |
| `Auth.ResolveAuth` | mirror.py:10-33 | afterwards the variable is always set; a set variable leaves everything unchanged; an existing file is never overwritten; when the variable was unset it ends equal to the file; with neither, both hold the login's cookies |
| `Auth.ResolveAuthIdempotent` | mirror.py:11-13 | a second set-up takes the env branch and changes nothing, whatever a login would return |
| `Auth.LoginIgnoredWhenStored` | mirror.py:11-18 | when a cookie is stored in the variable or the file, the login's result has no effect (no login happens) |
| `Mirror.Process.constructor` | mirror.py:8 | at start-up `game_data` is the empty dict; the variable and both files are as found |
| `Mirror.Process.ShowGames` | mirror.py:57-59 | the route returns the empty object before any refresh, otherwise the current list of game records in order; reading changes nothing |
| `Mirror.Process.SetAuthVar` | mirror.py:10-33 | takes the branch `PathFor` names and leaves the cookie state `ResolveAuth` gives; the games state is untouched |
| `Mirror.Process.GetGames` | mirror.py:36-48 | no cookie: raises first and changes nothing; all records carry the field: memory is the stripped list and `games.json` equals it; first lacking record k: memory is the new list stripped before k, `games.json` unchanged; cookies untouched |
| `Mirror.Process.Startup` | mirror.py:61-63 | set-up always leaves a cookie, so the first refresh never fails for want of one; it commits iff every record carries the field; if record k is the first to lack it, the outcome is `KeyMissing(k)`, memory holds the new list stripped before k and `games.json` is unchanged |

## Left out

- HTTP: the sign-in POST and the games GET are not modelled. The login's cookie
  jar is the parameter `login` of `SetAuthVar`, and the parsed games list is the
  parameter `response` of `GetGames`. No status code is inspected by the
  program, so a failed login still yields a (possibly empty) cookie map, and
  the model stores it. Network exceptions are not modelled.
- A games body that is not JSON at all (an HTML error page, say) is not
  modelled: `.json()` raises at mirror.py:42 before the assignment, so
  `game_data` and `games.json` both keep their previous values. It is the one
  failure after the request that leaves memory untouched.
- Responses that are not a list of JSON objects are not modelled: the
  model's response type only admits lists of objects. In the program, an empty
  object `{}` or an empty string `""` makes the loop run zero times, so it is
  committed as is: written to `games.json` and served at `/games`. Any other
  such response raises, after it has already replaced `game_data` at
  mirror.py:42. A non-empty error object (for example one sent for an expired
  cookie) raises `TypeError` in `del` on its first key. A list mixing objects
  and non-objects raises `TypeError` in `del` at its first non-object, or
  `KeyError` if an object lacking the field comes before it; the records
  before the failing one are already stripped. Either way `/games` serves that
  value until the next refresh, while `games.json` keeps its previous contents.
- Mirror.Process.Startup: the model ends with the refresh's outcome. In the
  program, the exception raised by a failed first refresh (`KeyError` or
  `TypeError`) is not caught, so the process ends and `app.run` (mirror.py:64)
  is never reached; the model does not state this process exit.
- JSON serialisation: the environment variable and both files hold the decoded
  value, not its text. Failures of `open` or `json.dump` are not modelled.
- A `bb_cookies.txt` whose text is not JSON at all is not modelled: `json.load`
  raises at mirror.py:17, and `set_auth_var` fails with the variable still
  unset. A cookie file holding JSON other than a dictionary is not modelled
  either; the file branch copies it into the variable, with the effects below.
- A `BB_COOKIES` whose text is not a JSON object is not modelled: `envCookies`
  (unset or a cookie map) cannot represent it. `set_auth_var` keeps it
  (mirror.py:11-13). For most such texts (a number, a non-empty string) every
  `get_games` then raises at mirror.py:40 before anything changes. Texts that
  decode to `null`, `[]` or `""` do not raise there: the request is sent
  without cookies, and the refresh goes on as for any other response
  (mirror.py:42-48).
- Numbers are integers in the model's JSON `Value`, so a game record's
  floating-point fields are not represented exactly. Every field other than
  `gameEventBatches` is only carried, never inspected (`StrippedKeepsOtherFields`).
- The e-mail and password read from the environment for the login are
  inputs of the login only, folded into `login`.
- The fixed season id in the games URL is part of the request, which is not modelled.
- The APScheduler job that reruns the refresh every 20 minutes is not modelled,
  nor its concurrency with the Flask route. Each call of `GetGames` is one run.
- Flask app set-up, `jsonify`'s HTTP response, `app.run` and `print` logging are not modelled.
- Retries, and the sim, teams and players fetches: this code has none of them.
