/**
 * `getDeliveryQuote(quoteDetails, retry = false)` as the recursive definition
 * the source gives: one POST with the current module-level key; on an
 * `authentication_error` when `retry` is false, a new token is generated,
 * written to the `.env` text and to `process.env`, and the call repeats once
 * with `retry = true`. This is the reference the imperative relay is proved
 * against.
 */
module Relay {
  import opened Wrappers
  import EnvFile
  import Jwt

  /** The name of the key in `process.env`. */
  const EnvKey: string := "DOORDASH_API_KEY"
  const AuthenticationError: string := "authentication_error"

  datatype QuoteDetails = QuoteDetails(
    externalDeliveryId: string, pickupAddress: string, dropoffAddress: string, dropoffPhoneNumber: string)

  /**
   * What one POST yields: the response body, or the error thrown, seen
   * through `error.response?.data?.code` (None when there is no response or
   * no code) and its message.
   */
  datatype Reply = Success(data: string) | Failure(code: Option<string>, message: string)

  /** The downstream API: the reply to attempt number `n` carrying the given Authorization header. */
  type Downstream = (QuoteDetails, nat, string) -> Reply

  /** The state the relay reads and writes, and the ghost logs of tokens generated and written. */
  datatype Credentials = Credentials(
    apiKey: Option<string>,       // the module variable `DOORDASH_API_KEY`
    env: map<string, string>,     // `process.env`
    envFile: string,              // the text of `.env`
    issued: seq<string>,          // every token `generateJWTToken` returned, in order
    written: seq<string>)         // every token `updateEnvFile` was given, in order

  datatype Outcome = Outcome(reply: Reply, after: Credentials, attempts: nat)

  /** The header template `Bearer ${DOORDASH_API_KEY}`; an undefined key prints as `undefined`. */
  function Authorization(apiKey: Option<string>): string {
    "Bearer " + match apiKey case Some(k) => k case None => "undefined"
  }

  predicate IsAuthenticationError(r: Reply) {
    r.Failure? && r.code == Some(AuthenticationError)
  }

  /** The state after the retry branch: new token generated, written to `.env` and to `process.env`. */
  function Refreshed(st: Credentials, token: string): Credentials {
    st.(envFile := EnvFile.ReplaceKeyLine(st.envFile, token),
        env := st.env[EnvKey := token],
        issued := st.issued + [token],
        written := st.written + [token])
  }

  /** The call as the source writes it; `attempt` counts the POSTs made so far. */
  function Quote(sign: Jwt.Signer, key: Jwt.AccessKey, st: Credentials, details: QuoteDetails,
                 retry: bool, attempt: nat, down: Downstream, t1: int, t2: int): Outcome
    decreases !retry
  {
    var reply := down(details, attempt, Authorization(st.apiKey));
    if reply.Success? then Outcome(reply, st, attempt + 1)
    else if IsAuthenticationError(reply) && !retry then
      var token := Jwt.GenerateToken(sign, key, t1, t2);
      Quote(sign, key, Refreshed(st, token), details, true, attempt + 1, down, t1, t2)
    else Outcome(reply, st, attempt + 1)
  }

  /**
   * Two attempts exactly when the first fails with `authentication_error`
   * and `retry` is false; otherwise one.
   */
  lemma AttemptCount(sign: Jwt.Signer, key: Jwt.AccessKey, st: Credentials, details: QuoteDetails,
                     retry: bool, down: Downstream, t1: int, t2: int)
    ensures var first := down(details, 0, Authorization(st.apiKey));
      Quote(sign, key, st, details, retry, 0, down, t1, t2).attempts
        == if !retry && IsAuthenticationError(first) then 2 else 1
  {
  }

  /**
   * The caller gets the reply of the last attempt: the data on success, the
   * error rethrown otherwise. Every attempt sends the header built from the
   * module variable as it was at the call, which the retry does not change.
   */
  lemma ReplyIsLastAttempt(sign: Jwt.Signer, key: Jwt.AccessKey, st: Credentials, details: QuoteDetails,
                           retry: bool, down: Downstream, t1: int, t2: int)
    ensures var o := Quote(sign, key, st, details, retry, 0, down, t1, t2);
      1 <= o.attempts <= 2 && o.reply == down(details, o.attempts - 1, Authorization(st.apiKey))
    ensures Quote(sign, key, st, details, retry, 0, down, t1, t2).after.apiKey == st.apiKey
  {
  }

  /** Success, or a failure that is not retried: the state is untouched. */
  lemma NoRetryNoChange(sign: Jwt.Signer, key: Jwt.AccessKey, st: Credentials, details: QuoteDetails,
                        retry: bool, down: Downstream, t1: int, t2: int)
    requires var first := down(details, 0, Authorization(st.apiKey));
      first.Success? || retry || !IsAuthenticationError(first)
    ensures var o := Quote(sign, key, st, details, retry, 0, down, t1, t2);
      o.after == st && o.attempts == 1 && o.reply == down(details, 0, Authorization(st.apiKey))
  {
  }

  /**
   * The retry path: exactly one token is generated and written, the `.env`
   * text and `process.env` get it, and the module variable keeps its old
   * value, so the second POST carries the same Authorization as the first.
   */
  lemma RetryRefreshesOnce(sign: Jwt.Signer, key: Jwt.AccessKey, st: Credentials, details: QuoteDetails,
                           down: Downstream, t1: int, t2: int)
    requires IsAuthenticationError(down(details, 0, Authorization(st.apiKey)))
    ensures var o := Quote(sign, key, st, details, false, 0, down, t1, t2);
      var token := Jwt.GenerateToken(sign, key, t1, t2);
      o.attempts == 2 &&
      o.reply == down(details, 1, Authorization(st.apiKey)) &&
      o.after.issued == st.issued + [token] && o.after.written == st.written + [token] &&
      o.after.envFile == EnvFile.ReplaceKeyLine(st.envFile, token) &&
      o.after.env == st.env[EnvKey := token] && EnvKey in o.after.env && o.after.env[EnvKey] == token &&
      o.after.apiKey == st.apiKey
  {
  }

  /**
   * After a retry the `.env` text holds the new token as the key's value,
   * provided it held a non-empty value before.
   */
  lemma RetryPersistsToken(sign: Jwt.Signer, key: Jwt.AccessKey, st: Credentials, details: QuoteDetails,
                           down: Downstream, t1: int, t2: int)
    requires IsAuthenticationError(down(details, 0, Authorization(st.apiKey)))
    requires EnvFile.MatchedValue(st.envFile).Some?
    ensures EnvFile.MatchedValue(Quote(sign, key, st, details, false, 0, down, t1, t2).after.envFile)
         == Some(Jwt.GenerateToken(sign, key, t1, t2))
  {
    var token := Jwt.GenerateToken(sign, key, t1, t2);
    Jwt.TokenIsPlain(token);
    EnvFile.MatchedValueAfterReplace(st.envFile, token);
  }

  /**
   * A downstream that rejects every attempt as unauthenticated is tried
   * exactly twice, and the second rejection reaches the caller.
   */
  lemma PersistentRejection(sign: Jwt.Signer, key: Jwt.AccessKey, st: Credentials, details: QuoteDetails,
                            down: Downstream, t1: int, t2: int)
    requires forall n: nat, h :: IsAuthenticationError(down(details, n, h))
    ensures var o := Quote(sign, key, st, details, false, 0, down, t1, t2);
      o.attempts == 2 && o.reply == down(details, 1, Authorization(st.apiKey))
  {
  }
}
