/**
 * `autoUpdateToken`: one refresh at once, then one per timer firing. Each
 * refresh generates a token from the two clock readings it takes and
 * rewrites the `.env` text with it.
 */
module Scheduler {
  import opened Wrappers
  import EnvFile
  import Jwt

  /** The tokens generated for a run of refreshes, one per pair of clock readings. */
  function Tokens(sign: Jwt.Signer, key: Jwt.AccessKey, clock: seq<(int, int)>): (ts: seq<Jwt.CompactToken>)
    ensures |ts| == |clock|
  {
    if clock == [] then []
    else
      var n := |clock| - 1;
      Tokens(sign, key, clock[..n]) + [Jwt.GenerateToken(sign, key, clock[n].0, clock[n].1)]
  }

  /** The `.env` text after rewriting it with each token in turn. */
  function RewriteAll(content: string, tokens: seq<string>): string {
    if tokens == [] then content
    else EnvFile.ReplaceKeyLine(RewriteAll(content, tokens[..|tokens| - 1]), tokens[|tokens| - 1])
  }

  /** One more pair of readings adds one token at the end. */
  lemma TokensExtend(sign: Jwt.Signer, key: Jwt.AccessKey, clock: seq<(int, int)>, i: nat)
    requires i < |clock|
    ensures Tokens(sign, key, clock[..i + 1])
         == Tokens(sign, key, clock[..i]) + [Jwt.GenerateToken(sign, key, clock[i].0, clock[i].1)]
  {
    assert clock[..i + 1][..i] == clock[..i];
  }

  /** One more token rewrites the text once more. */
  lemma RewriteAllExtend(content: string, tokens: seq<string>, token: string)
    ensures RewriteAll(content, tokens + [token]) == EnvFile.ReplaceKeyLine(RewriteAll(content, tokens), token)
  {
  }

  /** The k-th token generated comes from the k-th pair of clock readings. */
  lemma {:induction false} TokenAt(sign: Jwt.Signer, key: Jwt.AccessKey, clock: seq<(int, int)>, k: nat)
    requires k < |clock|
    ensures Tokens(sign, key, clock)[k] == Jwt.GenerateToken(sign, key, clock[k].0, clock[k].1)
  {
    var n := |clock| - 1;
    if k < n {
      TokenAt(sign, key, clock[..n], k);
    }
  }

  /**
   * After any non-empty run of refreshes the `.env` value is the last token
   * written, when the key line had a non-empty value to begin with; when it
   * had none, the text is never changed.
   */
  lemma {:induction false} LastTokenWins(content: string, tokens: seq<Jwt.CompactToken>)
    ensures EnvFile.MatchedValue(content).Some? && tokens != [] ==>
      EnvFile.MatchedValue(RewriteAll(content, tokens)) == Some(tokens[|tokens| - 1])
    ensures EnvFile.MatchedValue(content).None? ==> RewriteAll(content, tokens) == content
    decreases |tokens|
  {
    if tokens != [] {
      var n := |tokens| - 1;
      LastTokenWins(content, tokens[..n]);
      var before := RewriteAll(content, tokens[..n]);
      Jwt.TokenIsPlain(tokens[n]);
      EnvFile.MatchedValueAfterReplace(before, tokens[n]);
      if EnvFile.MatchedValue(content).Some? && n > 0 {
        assert EnvFile.MatchedValue(before).Some?;
      }
    }
  }
}
