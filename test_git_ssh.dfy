/**
 * The log masking of scripts/test-git-ssh.js:
 * `gitUrl.includes('@') ? gitUrl.replace(/^(.*?@)/, '***@') : gitUrl`.
 */
module TestGitSsh {
  import opened Wrappers

  /** The characters JavaScript's `.` does not match without the `s` flag. */
  predicate IsLineTerminator(c: char)
  {
    c == '\n' || c == '\r' || c == '\U{2028}' || c == '\U{2029}'
  }

  /**
   * `^(.*?@)` once the lazy `.*?` holds `k` characters: the end of the match.
   * The engine tries '@' first and takes one more character only when that
   * fails and `.` accepts it.
   */
  function LazyToAt(s: string, k: nat): (end: Option<nat>)
    requires k <= |s|
    ensures end.Some? ==> k < end.value <= |s| && s[end.value - 1] == '@'
    decreases |s| - k
  {
    if k == |s| then None
    else if s[k] == '@' then Some(k + 1)
    else if IsLineTerminator(s[k]) then None
    else LazyToAt(s, k + 1)
  }

  /** `maskedUrl`: everything up to and including the first '@' becomes "***@". */
  function MaskedUrl(gitUrl: string): (masked: string)
    ensures '@' !in gitUrl ==> masked == gitUrl
  {
    if '@' in gitUrl then
      match LazyToAt(gitUrl, 0)
      case Some(end) => "***@" + gitUrl[end..]
      case None => gitUrl
    else gitUrl
  }

  /** The lazy group stops at the first '@' when no line terminator comes before it. */
  lemma {:induction false} LazyFindsFirstAt(s: string, k: nat, i: nat)
    requires k <= i < |s| && s[i] == '@'
    requires forall j :: k <= j < i ==> s[j] != '@' && !IsLineTerminator(s[j])
    ensures LazyToAt(s, k) == Some(i + 1)
    decreases i - k
  {
    if k < i {
      LazyFindsFirstAt(s, k + 1, i);
    }
  }

  /** A line terminator before any '@' stops the lazy group: no match. */
  lemma {:induction false} LazyBlocked(s: string, k: nat, i: nat)
    requires k <= i < |s| && IsLineTerminator(s[i])
    requires forall j :: k <= j < i ==> s[j] != '@'
    ensures LazyToAt(s, k) == None
    decreases i - k
  {
    if k < i {
      LazyBlocked(s, k + 1, i);
    }
  }

  /**
   * With no '@' and no line terminator before the first '@', the text up to it
   * becomes "***@" and the rest, later '@' included, is kept.
   */
  lemma MaskFirstAt(pre: string, post: string)
    requires '@' !in pre
    requires forall j :: 0 <= j < |pre| ==> !IsLineTerminator(pre[j])
    ensures MaskedUrl(pre + "@" + post) == "***@" + post
  {
    var s := pre + "@" + post;
    assert s[|pre|] == '@';
    forall j | 0 <= j < |pre|
      ensures s[j] != '@' && !IsLineTerminator(s[j])
    {
      assert s[j] == pre[j];
    }
    LazyFindsFirstAt(s, 0, |pre|);
    assert s[|pre| + 1..] == post;
  }

  /** A line terminator before the first '@' leaves the text unchanged. */
  lemma MaskLineBreakFirst(pre: string, c: char, rest: string)
    requires '@' !in pre && IsLineTerminator(c)
    ensures MaskedUrl(pre + [c] + rest) == pre + [c] + rest
  {
    var s := pre + [c] + rest;
    assert s[|pre|] == c;
    forall j | 0 <= j < |pre|
      ensures s[j] != '@'
    {
      assert s[j] == pre[j];
    }
    LazyBlocked(s, 0, |pre|);
  }
}
