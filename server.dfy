/**
 * The mutable state of the server process and the operations that change it:
 * the module variable `DOORDASH_API_KEY`, `process.env`, the text of `.env`,
 * and whether the refresh timer has been armed.
 */
module Server {
  import opened Wrappers
  import EnvFile
  import Jwt
  import Relay
  import Scheduler

  /**
   * The `.env` text keeps or lacks a matched value as it did at startup; with
   * one, it holds the last token written; without one, it never changes.
   */
  ghost predicate FileInvariant(envFile: string, written: seq<string>, keyLinePresent: bool, initialFile: string) {
    EnvFile.MatchedValue(envFile).Some? == keyLinePresent &&
    (keyLinePresent && written != [] ==> EnvFile.MatchedValue(envFile) == Some(written[|written| - 1])) &&
    (!keyLinePresent ==> envFile == initialFile)
  }

  class RelayServer {
    const accessKey: Jwt.AccessKey
    const sign: Jwt.Signer
    /** The module-level `let DOORDASH_API_KEY`, the value every POST's header is built from. */
    var apiKey: Option<string>
    /** `process.env`. */
    var env: map<string, string>
    /** The text of the `.env` file. */
    var envFile: string
    /** Whether `setInterval` has armed the periodic refresh. */
    var refreshing: bool
    /** Every token generated, in order. */
    ghost var issued: seq<string>
    /** Every token written to `.env`, in order. */
    ghost var written: seq<string>
    /** Whether `.env` had a key line with a non-empty value at startup. */
    ghost const keyLinePresent: bool
    ghost const initialFile: string

    /** The object invariant: the `.env` text agrees with the tokens written to it. */
    ghost predicate Valid()
      reads this
    {
      FileInvariant(envFile, written, keyLinePresent, initialFile)
    }

    ghost function Snapshot(): Relay.Credentials
      reads this
    {
      Relay.Credentials(apiKey, env, envFile, issued, written)
    }

    /** Process start: `DOORDASH_API_KEY` is read from `process.env`, which may lack it. */
    constructor (key: Jwt.AccessKey, signer: Jwt.Signer, env0: map<string, string>, file0: string)
      ensures Valid() && !refreshing
      ensures accessKey == key && sign == signer
      ensures apiKey == (if Relay.EnvKey in env0 then Some(env0[Relay.EnvKey]) else None)
      ensures env == env0 && envFile == file0 && issued == [] && written == []
    {
      accessKey, sign := key, signer;
      apiKey := if Relay.EnvKey in env0 then Some(env0[Relay.EnvKey]) else None;
      env, envFile := env0, file0;
      refreshing := false;
      issued, written := [], [];
      keyLinePresent := EnvFile.MatchedValue(file0).Some?;
      initialFile := file0;
    }

    /** `generateJWTToken`, with the two `Date.now()` readings as parameters. */
    method GenerateJwtToken(t1: int, t2: int) returns (token: Jwt.CompactToken)
      modifies this`issued
      ensures token == Jwt.GenerateToken(sign, accessKey, t1, t2)
      ensures issued == old(issued) + [token]
    {
      token := sign(Jwt.ClaimSet(accessKey, t1, t2), accessKey.signingSecret, Jwt.Options());
      issued := issued + [token];
    }

    /** `updateEnvFile`: read `.env`, rewrite the key line, write it back. */
    method UpdateEnvFile(token: Jwt.CompactToken)
      requires Valid()
      modifies this`envFile, this`written
      ensures Valid()
      ensures envFile == EnvFile.ReplaceKeyLine(old(envFile), token)
      ensures written == old(written) + [token]
      ensures keyLinePresent ==> EnvFile.MatchedValue(envFile) == Some(token)
    {
      Jwt.TokenIsPlain(token);
      EnvFile.MatchedValueAfterReplace(envFile, token);
      envFile := EnvFile.ReplaceKeyLine(envFile, token);
      written := written + [token];
    }

    /** One refresh: generate a token and write it to `.env`; nothing else changes. */
    method Refresh(t1: int, t2: int) returns (token: Jwt.CompactToken)
      requires Valid()
      modifies this`issued, this`envFile, this`written
      ensures Valid()
      ensures token == Jwt.GenerateToken(sign, accessKey, t1, t2)
      ensures issued == old(issued) + [token] && written == old(written) + [token]
      ensures envFile == EnvFile.ReplaceKeyLine(old(envFile), token)
    {
      token := GenerateJwtToken(t1, t2);
      UpdateEnvFile(token);
    }

    /** `autoUpdateToken`: refresh at once and arm the timer. */
    method Start(t1: int, t2: int)
      requires Valid() && !refreshing
      modifies this
      ensures Valid() && refreshing
      ensures var token := Jwt.GenerateToken(sign, accessKey, t1, t2);
        issued == old(issued) + [token] && written == old(written) + [token] &&
        envFile == EnvFile.ReplaceKeyLine(old(envFile), token)
      ensures apiKey == old(apiKey) && env == old(env)
    {
      var _ := Refresh(t1, t2);
      refreshing := true;
    }

    /** One firing of the five-minute timer. */
    method Tick(t1: int, t2: int)
      requires Valid() && refreshing
      modifies this
      ensures Valid() && refreshing
      ensures var token := Jwt.GenerateToken(sign, accessKey, t1, t2);
        issued == old(issued) + [token] && written == old(written) + [token] &&
        envFile == EnvFile.ReplaceKeyLine(old(envFile), token)
      ensures apiKey == old(apiKey) && env == old(env)
    {
      var _ := Refresh(t1, t2);
    }

    /** The watcher's callback: the module variable takes the `process.env` entry. */
    method WatcherFired()
      requires Valid()
      modifies this`apiKey
      ensures Valid()
      ensures apiKey == (if Relay.EnvKey in env then Some(env[Relay.EnvKey]) else None)
    {
      apiKey := if Relay.EnvKey in env then Some(env[Relay.EnvKey]) else None;
    }

    /**
     * `Start` followed by one `Tick` per remaining pair of clock readings:
     * N ticks generate and write exactly N + 1 tokens, and the `.env` text
     * ends up holding the last one when it had a matched value to replace.
     */
    method StartAndTick(clock: seq<(int, int)>)
      requires Valid() && !refreshing && |clock| > 0
      modifies this
      ensures Valid() && refreshing
      ensures var tokens := Scheduler.Tokens(sign, accessKey, clock);
        issued == old(issued) + tokens && written == old(written) + tokens &&
        envFile == Scheduler.RewriteAll(old(envFile), tokens)
      ensures |issued| == |old(issued)| + |clock| && |written| == |old(written)| + |clock|
      ensures keyLinePresent ==>
        EnvFile.MatchedValue(envFile) == Some(Jwt.GenerateToken(sign, accessKey, clock[|clock| - 1].0, clock[|clock| - 1].1))
      ensures apiKey == old(apiKey) && env == old(env)
    {
      Start(clock[0].0, clock[0].1);
      ghost var done := Scheduler.Tokens(sign, accessKey, clock[..1]);
      Scheduler.TokensExtend(sign, accessKey, clock, 0);
      Scheduler.RewriteAllExtend(old(envFile), [], done[0]);
      var i := 1;
      while i < |clock|
        invariant 1 <= i <= |clock|
        invariant done == Scheduler.Tokens(sign, accessKey, clock[..i])
        invariant Valid() && refreshing
        invariant issued == old(issued) + done && written == old(written) + done
        invariant envFile == Scheduler.RewriteAll(old(envFile), done)
        invariant apiKey == old(apiKey) && env == old(env)
      {
        ghost var token := Jwt.GenerateToken(sign, accessKey, clock[i].0, clock[i].1);
        Tick(clock[i].0, clock[i].1);
        Scheduler.TokensExtend(sign, accessKey, clock, i);
        Scheduler.RewriteAllExtend(old(envFile), done, token);
        done := done + [token];
        i := i + 1;
      }
      assert clock[..i] == clock;
      Scheduler.TokenAt(sign, accessKey, clock, |clock| - 1);
    }

    /**
     * Scheduled refreshes never reach the header: after `Start`, any number
     * of ticks and a watcher firing, the module variable is the `process.env`
     * entry from before them, because refreshes write only the `.env` text.
     */
    method RefreshThenWatch(clock: seq<(int, int)>)
      requires Valid() && !refreshing && |clock| > 0
      modifies this
      ensures Valid() && refreshing
      ensures env == old(env)
      ensures apiKey == (if Relay.EnvKey in old(env) then Some(old(env)[Relay.EnvKey]) else None)
    {
      StartAndTick(clock);
      WatcherFired();
    }

    /**
     * `getDeliveryQuote` as an explicit loop of at most two attempts,
     * proved to do what the recursive definition does.
     */
    method GetDeliveryQuote(details: Relay.QuoteDetails, retry: bool, down: Relay.Downstream, t1: int, t2: int)
      returns (reply: Relay.Reply, attempts: nat)
      requires Valid()
      modifies this
      ensures Valid()
      ensures Relay.Outcome(reply, Snapshot(), attempts)
           == Relay.Quote(sign, accessKey, old(Snapshot()), details, retry, 0, down, t1, t2)
      ensures refreshing == old(refreshing)
    {
      var retried := retry;
      attempts := 0;
      while true
        invariant Valid() && refreshing == old(refreshing)
        invariant Relay.Quote(sign, accessKey, Snapshot(), details, retried, attempts, down, t1, t2)
               == Relay.Quote(sign, accessKey, old(Snapshot()), details, retry, 0, down, t1, t2)
        decreases !retried
      {
        reply := down(details, attempts, Relay.Authorization(apiKey));
        if reply.Success? {
          attempts := attempts + 1;
          return;
        } else if Relay.IsAuthenticationError(reply) && !retried {
          ghost var before := Snapshot();
          var token := GenerateJwtToken(t1, t2);
          UpdateEnvFile(token);
          env := env[Relay.EnvKey := token];
          assert Snapshot() == Relay.Refreshed(before, token);
          retried := true;
          attempts := attempts + 1;
        } else {
          attempts := attempts + 1;
          return;
        }
      }
    }
  }
}
