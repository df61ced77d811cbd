# DoorDash relay: credential lifecycle model

This project models the credential handling in `server.js`, a small Express relay that forwards
delivery-quote requests to the DoorDash Drive API. It signs short-lived JWTs for that API, stores
the current one in the `.env` file, and retries a quote once when DoorDash rejects the token.
The model covers four pieces:

- **The `.env` rewrite** (module `EnvFile`, `env_file.dfy`). `updateEnvFile` runs
  `content.replace(/DOORDASH_API_KEY=.+/, "DOORDASH_API_KEY=" + token)`. The model follows JavaScript
  regex semantics: the match is the leftmost, `.` excludes LF, CR, U+2028 and U+2029, and the greedy
  `.+` runs to the end of the line. The replacement string's `$$`, `$&`, `` $` `` and `$'` patterns
  are expanded as `String.prototype.replace` does when the pattern has no capture groups.
- **The JWT claim set** (module `Jwt`, `jwt.dfy`). `generateJWTToken` builds `aud`, `iss`, `kid`,
  `exp` and `iat` from two separate `Date.now()` readings, and uses a fixed HS256 / `DD-JWT-V1`
  header. The signer is a function parameter. Its result is assumed to be a non-empty string of
  base64url characters and dots, as a compact JWT is.
- **The quote relay** (module `Relay`, `relay.dfy`, and `Server.RelayServer.GetDeliveryQuote`).
  `Relay.Quote` is the recursive definition the source gives. `GetDeliveryQuote` is a loop of at
  most two attempts, proved to produce the same reply, attempt count and final state. The
  downstream API is a function from (request, attempt number, Authorization header) to a reply.
- **The refresh scheduler and the watcher** (module `Scheduler`, `scheduler.dfy`, and the class
  `Server.RelayServer`, `server.dfy`). The class holds the module variable `DOORDASH_API_KEY`,
  `process.env`, the `.env` text and whether the timer is armed. Ghost logs record every token
  generated and every token written. `Start`, `Tick` and `WatcherFired` stand for `autoUpdateToken`,
  one `setInterval` firing and the chokidar callback.

Three behaviours of `server.js` that a quick reading does not suggest:

- The retry path (`server.js:101-107`) writes the new token to `.env` and to `process.env`. It does
  not assign the module variable that line 92 builds the header from. Both attempts therefore send
  the same `Authorization` header (`Relay.RetryRefreshesOnce`), unless the watcher has fired in
  between. The model keeps this behaviour.
- `exp` and `iat` come from two clock readings (`server.js:33-34`). The lifetime is therefore 300
  seconds only when both readings fall in the same second, and 299 seconds when a second boundary
  falls between them. `Jwt.ExpiryWindow` states this for readings less than one second apart.
  `t1 <= t2` alone is not enough: readings 5 s apart give 295.
- The key line is not matched by exact name. The pattern is unanchored, so it also matches inside
  `X_DOORDASH_API_KEY=`. A key line with an empty value is skipped in favour of a later one. When
  no key line has a value, the file is left unchanged.

In the table below, the "matched value" of a `.env` text (`EnvFile.MatchedValue`) is what the
pattern's `.+` covers in its leftmost match. It is not what a `.env` parser would load for
`DOORDASH_API_KEY`: it may belong to a longer name such as `X_DOORDASH_API_KEY`, and it includes
any trailing comment on the line.

## Model

| member | source | states |
|---|---|---|
| EnvFile.FindFrom | server.js:55-56 | the result is the leftmost index at or after the start where `DOORDASH_API_KEY=` is followed by a non-terminator; no index before it matches; on None, nothing matches |
| EnvFile.LineEnd | server.js:56 | the greedy `.+` stops at the first line terminator (LF, CR, U+2028, U+2029) or at the end, and covers no terminator |
| EnvFile.MatchedValue | server.js:56 | the value the pattern covers is non-empty and contains no line terminator |
| EnvFile.Expand | server.js:57 | the replacement string's expansion by `String.prototype.replace` without capture groups; its contract is carried by `ExpandLiteral` (a text without `$` is inserted literally) and `ExpandDollarAmp` (`$&` is the matched line) |
| EnvFile.ReplaceKeyLine | server.js:55-58 | the text `updateEnvFile` writes back; its contract is carried by `ReplaceAtLeftmost` (prefix kept, key and token written, rest of the text from the line end kept), `NoMatchUnchanged`, `MatchedValueAfterReplace` and `ReplaceIdempotent` |
| EnvFile.ExpandLiteral | server.js:57 | a replacement text without `$` is inserted literally |
| EnvFile.ExpandDollarAmp | server.js:57 | `$&` in the replacement text stands for the matched line, so `$` in a token would not be literal |
| EnvFile.NoMatchUnchanged | server.js:55-58 | when no position matches, the content comes back unchanged and has no matched value |
| EnvFile.MatchedValueExists | server.js:56 | a matched value exists exactly when the pattern matches somewhere |
| EnvFile.ReplaceAtLeftmost | server.js:55-58 | with the leftmost match at i, the result is the content before i, then `DOORDASH_API_KEY=` and the token, then the content from the first line terminator after the key (a CRLF's CR included) |
| EnvFile.OnlyKeyLineChanges | server.js:55-61 | in a record with a `DOORDASH_API_KEY=old` line and unrelated lines, only that line's value is replaced and all other text is identical |
| EnvFile.LongerNameMatches | server.js:56 | the unanchored pattern also matches behind a longer name such as `X_DOORDASH_API_KEY=`, and the name's prefix is kept |
| EnvFile.EmptyValueSkipped | server.js:56 | a key line with an empty value is skipped and the next key line with a value is rewritten |
| EnvFile.MatchedValueAfterReplace | server.js:55-58 | after the rewrite the matched value is exactly the token, at the same position; with no matched value, the content is unchanged |
| EnvFile.ReplaceIdempotent | server.js:55-58 | rewriting twice with the same non-empty token free of `$` and terminators equals rewriting once |
| Jwt.ClaimSet | server.js:29-35 | the claim set from the two clock readings; its contract is carried by `FixedFields` (`aud`, `iss`, `kid` fixed), `Timestamps` (`exp`, `iat` in whole seconds) and `ExpiryWindow` |
| Jwt.Options | server.js:37 | the signing options, HS256 with `dd-ver` `DD-JWT-V1`; stated by `FixedFields` |
| Jwt.GenerateToken | server.js:28-47 | the signer applied to `ClaimSet`, the secret and `Options`; its result type makes it a non-empty string of base64url characters and dots, which `TokenIsPlain` shows the rewrite inserts literally |
| Jwt.SecondsOf | server.js:33-34 | `Math.floor(ms / 1000 + extra)` on the exact quotient equals integer division plus `extra` |
| Jwt.FixedFields | server.js:29-37 | `aud` is `doordash`, `iss` is the developer id and `kid` is the key id whatever the clock reads; the options are HS256 with `dd-ver` `DD-JWT-V1` |
| Jwt.Timestamps | server.js:33-34 | `exp` is the first reading in whole seconds plus 300; `iat` is the second reading in whole seconds |
| Jwt.ExpiryWindow | server.js:33-34 | for ordered readings less than a second apart, `exp - iat` is 299 or 300, exactly 300 iff both readings fall in the same second, and `iat < exp` |
| Jwt.SameInstant | server.js:33-34 | equal readings give a lifetime of exactly 300 seconds |
| Jwt.TokenIsPlain | server.js:40-44 | a compact JWT is non-empty and holds no `$` and no line terminator |
| Relay.Authorization | server.js:92 | the header `Bearer ` followed by the module variable, `undefined` when it is missing; `ReplyIsLastAttempt` and `RetryRefreshesOnce` show every attempt of a call uses the one built at its start |
| Relay.Refreshed | server.js:103-105 | the retry branch's state change: one token generated, written to `.env` and set in `process.env`; stated by `RetryRefreshesOnce` and `RetryPersistsToken` |
| Relay.Quote | server.js:87-111 | the recursive definition of `getDeliveryQuote`; its contract is carried by `AttemptCount`, `ReplyIsLastAttempt`, `NoRetryNoChange`, `RetryRefreshesOnce`, `RetryPersistsToken` and `PersistentRejection`, and `GetDeliveryQuote` is proved equal to it |
| Relay.AttemptCount | server.js:87-111 | two POSTs exactly when `retry` is false and the first fails with code `authentication_error`; otherwise one |
| Relay.ReplyIsLastAttempt | server.js:90-110 | the caller gets the last attempt's reply: the data on success, the error rethrown on failure; the module variable is unchanged by the call |
| Relay.NoRetryNoChange | server.js:96-110 | on first-attempt success, any other failure code, or `retry` true, there is one attempt, its reply is returned or rethrown, and no state changes |
| Relay.RetryRefreshesOnce | server.js:92-107 | on the retry path exactly one token is generated and written; `.env` and `process.env` get it; the module variable keeps its value, so both POSTs carry the same Authorization header |
| Relay.RetryPersistsToken | server.js:103-105 | after a retry the `.env` matched value is the new token, if the file had a matched value before |
| Relay.PersistentRejection | server.js:101-110 | a downstream that always answers `authentication_error` is tried exactly twice and the second error reaches the caller |
| Scheduler.Tokens | server.js:66-73 | a run of refreshes yields one token per pair of clock readings |
| Scheduler.RewriteAll | server.js:68-72 | the `.env` text after one `updateEnvFile` per token in turn; its contract is carried by `LastTokenWins`, and `StartAndTick` is proved to produce it |
| Scheduler.TokenAt | server.js:67-72 | the k-th token comes from the k-th pair of clock readings |
| Scheduler.LastTokenWins | server.js:66-73 | after a non-empty run of rewrites, the `.env` matched value is the last token written, if there was one at the start; if there was none, the text never changes |
| Server.RelayServer.constructor | server.js:17 | at startup the module variable is the `process.env` entry, or undefined when it is missing |
| Server.RelayServer.GenerateJwtToken | server.js:28-47 | returns the signer's token over the claim set and options, and logs exactly one issued token |
| Server.RelayServer.UpdateEnvFile | server.js:50-63 | the `.env` text becomes the rewrite of the old text with the token; the invariant holds that the file carries the last token written |
| Server.RelayServer.Refresh | server.js:67-68 | one refresh generates a token, writes it to `.env`, and changes nothing else |
| Server.RelayServer.Start | server.js:66-74 | refreshes once at once and arms the timer; the module variable and `process.env` are unchanged |
| Server.RelayServer.Tick | server.js:70-73 | one timer firing refreshes once; the module variable and `process.env` are unchanged |
| Server.RelayServer.WatcherFired | server.js:78-83 | the module variable takes the `process.env` entry (undefined when missing) |
| Server.RelayServer.StartAndTick | server.js:66-74 | `Start` and N ticks generate and write exactly N+1 tokens, in clock order; the `.env` matched value is the last one when the file had a matched value |
| Server.RelayServer.RefreshThenWatch | server.js:66-83 | after `Start`, any number of ticks and a watcher firing, the module variable is the `process.env` entry from before: refreshes write only `.env`, so they never change the Authorization header |
| Server.RelayServer.GetDeliveryQuote | server.js:87-112 | the two-attempt loop returns the same reply, attempt count and final state as the recursive definition `Relay.Quote` |

## Left out

- Relay.Quote / Server.RelayServer.GetDeliveryQuote: the `async` call is modelled as one atomic
  step. While a POST is pending at `await axios.post` (`server.js:90`), other tasks can run: a timer
  tick can rewrite `.env` (`server.js:70-73`), the watcher can reassign the module variable
  (`server.js:81`), and another quote's retry path can write `.env` and `process.env`
  (`server.js:103-105`). The model excludes these interleavings. "Both POSTs carry the same
  Authorization header" and "the module variable is unchanged by the call" hold only for a call that
  no other task interleaves.

- HMAC-SHA256 signing and the base64 decoding of the signing secret (`server.js:40-44`). The signer
  is a function parameter. Its output is taken to be a compact JWT, which is what `jsonwebtoken`
  produces.
- The file system (`server.js:51-52, 61`). The `.env` file is a string field. Read and write
  failures are I/O and are not modelled.
- The `dotenv` reload in the watcher (`server.js:80`). Its effect on `process.env` belongs to a
  library that is not part of this model. `WatcherFired` copies the `process.env` entry as it
  stands. The chokidar subscription (`server.js:78`) is an external event source; callers decide
  when `WatcherFired` runs. External edits to `.env` are not modelled.
- Timer scheduling (`server.js:70-73`). Ticks are explicit method calls, and wall-clock timing is
  not modelled.
- Floating point in `Math.floor(Date.now() / 1000 + 300)`. The model divides exactly. At present
  epoch magnitudes the rounding of the double quotient cannot cross an integer.
- Express routing, CORS, JSON parsing and the HTTP 500 responses (`server.js:11-14, 115-131,
  159-161`). This is framework plumbing.
- The axios POST (`server.js:88-95`). It is the `Downstream` oracle, and the URL and
  `Content-Type` header are not modelled. A thrown error is reduced to its `response.data.code`
  (absent for network errors) and a message.
- The Stripe payment-intent route (`server.js:133-152`). It is a third-party SDK call, and
  `amount * 100` is a floating-point product on unchecked input.
- `genrate.js`. It repeats the claim builder of `server.js:28-47` and only logs the token.
- Identity values missing from the environment (`server.js:21-25`) are not modelled. The access
  key's fields are strings.
- Logging (`console.log` / `console.error`).
- Strings are sequences of Unicode scalar values rather than UTF-16 code units. A non-BMP character
  inside the value is one element rather than two. This does not change what the pattern matches
  or replaces.
