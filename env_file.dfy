/**
 * The rewrite of the `.env` text done by `updateEnvFile`:
 *   content.replace(/DOORDASH_API_KEY=.+/, `DOORDASH_API_KEY=${token}`)
 * The pattern is neither anchored nor global, and `.` excludes the four
 * JavaScript line terminators, so the match is the LEFTMOST position where
 * `DOORDASH_API_KEY=` is followed by at least one non-terminator character,
 * and the greedy `.+` runs to the end of that line.
 */
module EnvFile {
  import opened Wrappers

  const Key: string := "DOORDASH_API_KEY="

  /** The characters `.` does not match: LF, CR, LINE SEPARATOR, PARAGRAPH SEPARATOR. */
  predicate IsLineTerminator(c: char) {
    c == '\n' || c == '\r' || c == '\U{2028}' || c == '\U{2029}'
  }

  predicate NoLineTerminator(s: string) {
    forall k :: 0 <= k < |s| ==> !IsLineTerminator(s[k])
  }

  predicate NoDollar(s: string) {
    forall k :: 0 <= k < |s| ==> s[k] != '$'
  }

  /** The regular expression matches when started at index `i` of `s`. */
  predicate MatchesAt(s: string, i: nat) {
    i + |Key| < |s| && s[i..i + |Key|] == Key && !IsLineTerminator(s[i + |Key|])
  }

  /** The regex engine's scan for the leftmost match at or after `from`. */
  function FindFrom(s: string, from: nat): (r: Option<nat>)
    ensures r.Some? ==> from <= r.value && MatchesAt(s, r.value)
    ensures r.Some? ==> forall j :: from <= j < r.value ==> !MatchesAt(s, j)
    ensures r.None? ==> forall j :: from <= j ==> !MatchesAt(s, j)
    decreases |s| - from
  {
    if |s| <= from + |Key| then None
    else if MatchesAt(s, from) then Some(from)
    else FindFrom(s, from + 1)
  }

  /** Where the greedy `.+` that starts at `k` stops: the first line terminator at or after `k`, or the end. */
  function LineEnd(s: string, k: nat): (e: nat)
    requires k <= |s|
    ensures k <= e <= |s|
    ensures e == |s| || IsLineTerminator(s[e])
    ensures forall m :: k <= m < e ==> !IsLineTerminator(s[m])
    decreases |s| - k
  {
    if k == |s| || IsLineTerminator(s[k]) then k else LineEnd(s, k + 1)
  }

  /**
   * The expansion of a replacement string by `String.prototype.replace` for a
   * pattern without capture groups: `$$`, `$&`, `` $` `` and `$'` are special,
   * every other `$` stands for itself.
   */
  function Expand(tpl: string, matched: string, before: string, after: string): (r: string)
    decreases |tpl|
  {
    if tpl == [] then []
    else if tpl[0] == '$' && 2 <= |tpl| && tpl[1] == '$' then "$" + Expand(tpl[2..], matched, before, after)
    else if tpl[0] == '$' && 2 <= |tpl| && tpl[1] == '&' then matched + Expand(tpl[2..], matched, before, after)
    else if tpl[0] == '$' && 2 <= |tpl| && tpl[1] == '`' then before + Expand(tpl[2..], matched, before, after)
    else if tpl[0] == '$' && 2 <= |tpl| && tpl[1] == '\'' then after + Expand(tpl[2..], matched, before, after)
    else [tpl[0]] + Expand(tpl[1..], matched, before, after)
  }

  /** The content `updateEnvFile` writes back, given what it read and the new token. */
  function ReplaceKeyLine(content: string, token: string): string {
    match FindFrom(content, 0)
    case None => content
    case Some(i) =>
      var e := LineEnd(content, i + |Key|);
      content[..i] + Expand(Key + token, content[i..e], content[..i], content[e..]) + content[e..]
  }

  /**
   * The value the pattern's `.+` covers in the leftmost match, if there is
   * one. It is not the value a `.env` parser would load for the key: it may
   * belong to a longer name such as `X_DOORDASH_API_KEY`, and it includes
   * any trailing comment on the line.
   */
  function MatchedValue(content: string): (v: Option<string>)
    ensures v.Some? ==> |v.value| > 0 && NoLineTerminator(v.value)
  {
    match FindFrom(content, 0)
    case None => None
    case Some(i) => Some(content[i + |Key|..LineEnd(content, i + |Key|)])
  }

  /** A replacement text without `$` is inserted literally. */
  lemma {:induction false} ExpandLiteral(tpl: string, matched: string, before: string, after: string)
    requires NoDollar(tpl)
    ensures Expand(tpl, matched, before, after) == tpl
    decreases |tpl|
  {
    if tpl != [] {
      ExpandLiteral(tpl[1..], matched, before, after);
    }
  }

  /** A `$&` in the replacement text re-inserts the matched line: the characters are not literal. */
  lemma ExpandDollarAmp(matched: string, before: string, after: string)
    ensures Expand("$&", matched, before, after) == matched
  {
  }

  /** No match: the content comes back unchanged, and the pattern finds no value. */
  lemma NoMatchUnchanged(content: string, token: string)
    requires forall j :: !MatchesAt(content, j)
    ensures ReplaceKeyLine(content, token) == content
    ensures MatchedValue(content) == None
  {
  }

  /** There is a value for the key exactly when the pattern matches somewhere. */
  lemma MatchedValueExists(content: string)
    ensures MatchedValue(content).Some? <==> exists j :: MatchesAt(content, j)
  {
  }

  /**
   * With its leftmost match at `i`, the rewrite keeps everything before `i`,
   * writes the key and the token, and keeps everything from the first line
   * terminator after the key (a CRLF's `\r` included) onward.
   */
  lemma ReplaceAtLeftmost(content: string, token: string, i: nat)
    requires MatchesAt(content, i)
    requires forall j :: 0 <= j < i ==> !MatchesAt(content, j)
    requires NoDollar(token)
    ensures var e := LineEnd(content, i + |Key|);
      ReplaceKeyLine(content, token) == content[..i] + Key + token + content[e..]
    ensures var e := LineEnd(content, i + |Key|);
      i + |Key| < e && (e == |content| || IsLineTerminator(content[e]))
  {
    LeftmostFound(content, i);
    var e := LineEnd(content, i + |Key|);
    ExpandKeyToken(token, content[i..e], content[..i], content[e..]);
  }

  /** The scan from the start stops at the leftmost match. */
  lemma LeftmostFound(content: string, i: nat)
    requires MatchesAt(content, i)
    requires forall j :: 0 <= j < i ==> !MatchesAt(content, j)
    ensures FindFrom(content, 0) == Some(i)
  {
  }

  /** The replacement text `DOORDASH_API_KEY=<token>` is inserted literally when the token has no `$`. */
  lemma ExpandKeyToken(token: string, matched: string, before: string, after: string)
    requires NoDollar(token)
    ensures Expand(Key + token, matched, before, after) == Key + token
  {
    assert forall k :: 0 <= k < |Key| ==> Key[k] != '$';
    assert NoDollar(Key + token) by {
      forall k | 0 <= k < |Key + token|
        ensures (Key + token)[k] != '$'
      {
        if k < |Key| {
          assert (Key + token)[k] == Key[k];
        } else {
          assert (Key + token)[k] == token[k - |Key|];
        }
      }
    }
    ExpandLiteral(Key + token, matched, before, after);
  }

  /**
   * A record made of unrelated text, one `DOORDASH_API_KEY=old` line and more
   * unrelated lines: only the value of that line changes.
   */
  lemma {:induction false} OnlyKeyLineChanges(pre: string, stale: string, post: string, token: string)
    requires forall j :: 0 <= j < |pre| ==> !MatchesAt(pre + Key + stale + post, j)
    requires |stale| > 0 && NoLineTerminator(stale)
    requires post == [] || IsLineTerminator(post[0])
    requires NoDollar(token)
    ensures ReplaceKeyLine(pre + Key + stale + post, token) == pre + Key + token + post
  {
    var s := pre + Key + stale + post;
    var i := |pre|;
    assert s[i..i + |Key|] == Key;
    assert s[i + |Key|] == stale[0];
    assert MatchesAt(s, i);
    ReplaceAtLeftmost(s, token, i);
    var e := LineEnd(s, i + |Key|);
    LineEndOver(s, i + |Key|, |stale|);
    assert s[..i] == pre;
    assert s[e..] == post;
  }

  /** The greedy `.+` stops exactly after `n` non-terminators followed by a terminator or the end. */
  lemma LineEndOver(s: string, k: nat, n: nat)
    requires k + n <= |s|
    requires forall m :: k <= m < k + n ==> !IsLineTerminator(s[m])
    requires k + n == |s| || IsLineTerminator(s[k + n])
    ensures LineEnd(s, k) == k + n
  {
  }

  /** The pattern's verdict at `j` depends only on the first `j + |Key| + 1` characters. */
  lemma MatchesAtPrefix(s: string, t: string, j: nat, p: nat)
    requires j + |Key| < p <= |s| && p <= |t| && s[..p] == t[..p]
    ensures MatchesAt(s, j) <==> MatchesAt(t, j)
  {
  }

  /** A token that is non-empty and free of `$` and line terminators. */
  predicate PlainToken(token: string) {
    |token| > 0 && NoDollar(token) && NoLineTerminator(token)
  }

  /**
   * The text the rewrite produces at the leftmost match `i` has its own
   * leftmost match at `i`, and the `.+` there covers exactly the token.
   */
  lemma RewrittenLine(content: string, token: string, i: nat)
    requires MatchesAt(content, i)
    requires forall j :: 0 <= j < i ==> !MatchesAt(content, j)
    requires PlainToken(token)
    ensures var e := LineEnd(content, i + |Key|);
      var r := content[..i] + Key + token + content[e..];
      FindFrom(r, 0) == Some(i) && LineEnd(r, i + |Key|) == i + |Key| + |token| &&
      r[..i] == content[..i] && r[i + |Key|..i + |Key| + |token|] == token &&
      r[i + |Key| + |token|..] == content[e..]
  {
    var p := i + |Key|;
    var e := LineEnd(content, p);
    var r := content[..i] + Key + token + content[e..];
    assert r[..p] == content[..p];
    forall j | 0 <= j < i
      ensures !MatchesAt(r, j)
    {
      MatchesAtPrefix(content, r, j, p);
    }
    assert r[i..p] == Key;
    assert r[p] == token[0];
    LeftmostFound(r, i);
    assert r[p + |token|..] == content[e..];
    LineEndOver(r, p, |token|);
  }

  /**
   * After the rewrite the pattern finds the same place, now holding exactly
   * the token; with no match, the content is unchanged and still has none.
   */
  lemma MatchedValueAfterReplace(content: string, token: string)
    requires PlainToken(token)
    ensures MatchedValue(content).None? ==> ReplaceKeyLine(content, token) == content
    ensures MatchedValue(content).Some? ==> MatchedValue(ReplaceKeyLine(content, token)) == Some(token)
    ensures FindFrom(ReplaceKeyLine(content, token), 0) == FindFrom(content, 0)
  {
    match FindFrom(content, 0)
    case None =>
    case Some(i) =>
      ReplaceAtLeftmost(content, token, i);
      RewrittenLine(content, token, i);
  }

  /** Rewriting twice with the same plain token is the same as rewriting once. */
  lemma ReplaceIdempotent(content: string, token: string)
    requires PlainToken(token)
    ensures ReplaceKeyLine(ReplaceKeyLine(content, token), token) == ReplaceKeyLine(content, token)
  {
    match FindFrom(content, 0)
    case None =>
    case Some(i) =>
      var e := LineEnd(content, i + |Key|);
      var r := content[..i] + Key + token + content[e..];
      ReplaceAtLeftmost(content, token, i);
      RewrittenLine(content, token, i);
      ReplaceAtLeftmost(r, token, i);
      assert r[..i] + Key + token + r[i + |Key| + |token|..] == r;
  }

  /**
   * The pattern is unanchored: behind a longer name such as `X_DOORDASH_API_KEY=`
   * it still matches, the name's prefix stays and only the value changes.
   */
  lemma {:induction false} LongerNameMatches(prefix: string, stale: string, post: string, token: string)
    requires forall k :: 0 <= k < |prefix| ==> prefix[k] != 'D'
    requires |stale| > 0 && NoLineTerminator(stale)
    requires post == [] || IsLineTerminator(post[0])
    requires NoDollar(token)
    ensures ReplaceKeyLine(prefix + Key + stale + post, token) == prefix + Key + token + post
  {
    var s := prefix + Key + stale + post;
    forall j | 0 <= j < |prefix|
      ensures !MatchesAt(s, j)
    {
      if j + |Key| < |s| {
        assert s[j..j + |Key|][0] == prefix[j];
      }
    }
    OnlyKeyLineChanges(prefix, stale, post, token);
  }

  /**
   * A key line whose value is empty does not match; the rewrite goes to the
   * next key line that has a value.
   */
  lemma {:induction false} EmptyValueSkipped(lt: char, stale: string, post: string, token: string)
    requires IsLineTerminator(lt)
    requires |stale| > 0 && NoLineTerminator(stale)
    requires post == [] || IsLineTerminator(post[0])
    requires NoDollar(token)
    ensures ReplaceKeyLine(Key + [lt] + Key + stale + post, token) == Key + [lt] + Key + token + post
  {
    var pre := Key + [lt];
    var s := pre + Key + stale + post;
    assert forall k :: 0 <= k < |Key| - 1 ==> Key[k] != '=';
    forall j | 0 <= j < |pre|
      ensures !MatchesAt(s, j)
    {
      if 0 < j && j + |Key| < |s| {
        assert s[j..j + |Key|][|Key| - 1] == s[j + |Key| - 1];
        if j == 1 {
          assert s[j + |Key| - 1] == lt;
        } else {
          assert s[j + |Key| - 1] == Key[j - 2];
        }
      }
    }
    OnlyKeyLineChanges(pre, stale, post, token);
  }
}
