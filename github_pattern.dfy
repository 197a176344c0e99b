/**
 * The pattern `/https:\/\/github\.com\/([^\/]+)\/([^\/]+)(\.git)?$/` that
 * scripts/convert-git-url.js and scripts/test-ssh-key.js pass to
 * `String.prototype.match`, with JavaScript's matching order: start positions
 * from left to right, a greedy group gives back one character at a time, and
 * an optional group is tried before it is skipped. Only `$` anchors it.
 */
module GitHubPattern {
  import opened Wrappers
  import opened Text

  /** The literal text the pattern begins with. */
  const Host: string := "https://github.com/"

  /** Capture groups 1 to 3 of a match; group 3 is `undefined` unless it took part. */
  datatype Groups = Groups(user: string, repo: string, gitExt: Option<string>)

  /** How far `[^\/]+` first runs in `t`: the length of its longest prefix without '/'. */
  function SlashFreeRun(t: string): (n: nat)
    ensures n <= |t|
    ensures '/' !in t[..n]
    ensures n < |t| ==> t[n] == '/'
  {
    if t == [] || t[0] == '/' then 0
    else
      var n := 1 + SlashFreeRun(t[1..]);
      assert t[..n] == [t[0]] + t[1..][..n - 1];
      n
  }

  /**
   * `([^\/]+)(\.git)?$` on `t`, the greedy repository group holding `k`
   * characters; on failure it gives one back.
   */
  function RepoFrom(user: string, t: string, k: nat): Option<Groups>
    requires k <= |t|
  {
    if k == 0 then None
    else if t[k..] == ".git" then Some(Groups(user, t[..k], Some(".git")))
    else if k == |t| then Some(Groups(user, t[..k], None))
    else RepoFrom(user, t, k - 1)
  }

  /**
   * `([^\/]+)\/([^\/]+)(\.git)?$` on `t`, the greedy user group holding `k`
   * characters; on failure it gives one back.
   */
  function UserFrom(t: string, k: nat): Option<Groups>
    requires k <= |t|
  {
    if k == 0 then None
    else if k < |t| && t[k] == '/' then
      var rest := t[k + 1..];
      var m := RepoFrom(t[..k], rest, SlashFreeRun(rest));
      if m.Some? then m else UserFrom(t, k - 1)
    else UserFrom(t, k - 1)
  }

  /** The whole pattern tried at start position `p` of `s`. */
  function MatchAt(s: string, p: nat): Option<Groups>
    requires p <= |s|
  {
    var t := s[p..];
    if StartsWith(t, Host) then
      var u := t[|Host|..];
      UserFrom(u, SlashFreeRun(u))
    else None
  }

  /** The first start position at or after `p` where the pattern matches. */
  function Search(s: string, p: nat): Option<Groups>
    requires p <= |s|
    decreases |s| - p
  {
    var m := MatchAt(s, p);
    if m.Some? || p == |s| then m else Search(s, p + 1)
  }

  /**
   * `s.match(pattern)`, reduced to its capture groups: it matches exactly when
   * some suffix has the accepted shape, and the groups are that suffix's two
   * segments (`SearchSound` adds that group 3 is never set).
   */
  function Match(s: string): (m: Option<Groups>)
    ensures m.Some? <==> HasGitHubSuffix(s)
    ensures m.Some? ==> (exists q :: 0 <= q <= |s| && Shaped(s[q..], m.value.user, m.value.repo))
  {
    SearchSound(s, 0);
    SearchComplete(s);
    Search(s, 0)
  }

  /** `t` is the host followed by two non-empty segments, neither holding '/'. */
  predicate Shaped(t: string, user: string, repo: string)
  {
    t == Host + user + "/" + repo && user != [] && repo != [] && '/' !in user && '/' !in repo
  }

  /** Some suffix of `s` has the shape the pattern accepts. */
  ghost predicate HasGitHubSuffix(s: string)
  {
    exists q, user, repo :: 0 <= q <= |s| && Shaped(s[q..], user, repo)
  }

  /** An accepted text starts with the host, does not end in '/', and has one '/' after the host. */
  lemma ShapedFacts(t: string, user: string, repo: string)
    ensures Shaped(t, user, repo) ==> StartsWith(t, Host) && t[|t| - 1] != '/'
    ensures forall i :: Shaped(t, user, repo) && |Host| <= i < |t| && t[i] == '/' ==> i == |Host| + |user|
  {
    if Shaped(t, user, repo) {
      assert t[..|Host|] == Host;
      assert t[|t| - 1] == repo[|repo| - 1];
      assert forall k :: 0 <= k < |user| ==> t[|Host| + k] == user[k];
      assert forall k :: 0 <= k < |repo| ==> t[|Host| + |user| + 1 + k] == repo[k];
    }
  }

  /** The host text occurs in `s` at index `q`. */
  predicate HostAt(s: string, q: nat)
  {
    q <= |s| && StartsWith(s[q..], Host)
  }

  /** The run length is the only `n` with no '/' before it and '/' (or the end) at it. */
  lemma SlashFreeRunUnique(t: string, n: nat)
    requires n <= |t| && '/' !in t[..n] && (n < |t| ==> t[n] == '/')
    ensures SlashFreeRun(t) == n
  {
  }

  /** While a '/' lies inside or right after the repository group, nothing matches. */
  lemma {:induction false} RepoFromBlocked(user: string, t: string, k: nat, slash: nat)
    requires k <= slash < |t| && t[slash] == '/'
    ensures RepoFrom(user, t, k) == None
  {
    if k > 0 {
      assert t[k..][slash - k] == '/';
      assert '/' !in ".git";
      RepoFromBlocked(user, t, k - 1, slash);
    }
  }

  /**
   * The repository part matches exactly when the rest is non-empty and free
   * of '/', and the greedy group then swallows any ".git": group 3 stays unset.
   */
  lemma RepoMatch(user: string, t: string)
    ensures RepoFrom(user, t, SlashFreeRun(t)) ==
            if t != [] && '/' !in t then Some(Groups(user, t, None)) else None
  {
    var n := SlashFreeRun(t);
    if n < |t| {
      RepoFromBlocked(user, t, n, n);
    } else {
      assert t[..n] == t;
      assert |t[n..]| != |".git"|;
    }
  }

  /** Shorter user groups end before a character other than '/', so they never match. */
  lemma {:induction false} UserFromBlocked(t: string, k: nat)
    requires k < SlashFreeRun(t)
    ensures UserFrom(t, k) == None
  {
    if k > 0 {
      assert t[..SlashFreeRun(t)][k] == t[k];
      UserFromBlocked(t, k - 1);
    }
  }

  /** What follows the host matches when it is two non-empty '/'-free segments, and gives them. */
  lemma UserMatch(u: string)
    ensures UserFrom(u, SlashFreeRun(u)).Some? ==>
              var g := UserFrom(u, SlashFreeRun(u)).value;
              g.gitExt == None && u == g.user + "/" + g.repo &&
              g.user != [] && g.repo != [] && '/' !in g.user && '/' !in g.repo
  {
    var n := SlashFreeRun(u);
    if 0 < n {
      UserFromBlocked(u, n - 1);
    }
    if 0 < n < |u| {
      RepoMatch(u[..n], u[n + 1..]);
      assert u == u[..n] + "/" + u[n + 1..];
    }
  }

  /** A match at `p` means the text from `p` on has the accepted shape, with group 3 unset. */
  lemma MatchAtSound(s: string, p: nat)
    requires p <= |s|
    ensures MatchAt(s, p).Some? ==>
              var g := MatchAt(s, p).value;
              g.gitExt == None && Shaped(s[p..], g.user, g.repo)
  {
    var t := s[p..];
    if StartsWith(t, Host) {
      var u := t[|Host|..];
      UserMatch(u);
      assert t == Host + u;
    }
  }

  /** Text of the accepted shape from `p` on matches at `p`, yielding its two segments. */
  lemma MatchAtComplete(s: string, p: nat, user: string, repo: string)
    requires p <= |s| && Shaped(s[p..], user, repo)
    ensures MatchAt(s, p) == Some(Groups(user, repo, None))
  {
    var t := s[p..];
    assert t[..|Host|] == Host;
    var u := t[|Host|..];
    assert u == user + "/" + repo;
    assert u[..|user|] == user;
    SlashFreeRunUnique(u, |user|);
    UserFromBlocked(u, |user| - 1);
    assert u[|user| + 1..] == repo;
    RepoMatch(user, repo);
  }

  /** The host's "//". */
  lemma HostDoubleSlash()
    ensures Host[6] == '/' && Host[7] == '/'
  {
  }

  /** The only '/' characters of the host. */
  lemma HostSlashes(i: nat)
    requires i < |Host| && Host[i] == '/'
    ensures i == 6 || i == 7 || i == 18
  {
  }

  /** `w` does not start with '/' and never holds two '/' in a row. */
  predicate SingleSlashes(w: string)
  {
    (w != [] ==> w[0] != '/') && forall i :: 0 <= i < |w| - 1 && w[i] == '/' ==> w[i + 1] != '/'
  }

  /** A non-empty '/'-free segment, a '/', then text with single slashes: still single slashes. */
  lemma SegmentsSingleSlashes(user: string, repo: string)
    requires user != [] && repo != [] && '/' !in user && SingleSlashes(repo)
    ensures SingleSlashes(user + "/" + repo)
  {
    var w := user + "/" + repo;
    forall i | 0 <= i < |w| - 1 && w[i] == '/'
      ensures w[i + 1] != '/'
    {
      if |user| < i {
        assert w[i] == repo[i - |user| - 1] && w[i + 1] == repo[i - |user|];
      } else if |user| == i {
        assert w[i + 1] == repo[0];
      }
    }
  }

  /** After the host, "//" can only be the host's own, at index 6. */
  lemma HostDoubleSlashOnly(w: string, i: nat)
    requires SingleSlashes(w)
    requires i + 1 < |Host + w| && (Host + w)[i] == '/' && (Host + w)[i + 1] == '/'
    ensures i == 6
  {
    var t := Host + w;
    if i < |Host| {
      assert t[i] == Host[i];
      HostSlashes(i);
    }
  }

  /** The host text occurs in the host followed by single slashes only at the start. */
  lemma HostOnlyAtStart(w: string, d: nat)
    requires SingleSlashes(w) && 0 < d <= |Host + w|
    ensures !StartsWith((Host + w)[d..], Host)
  {
    var t := Host + w;
    if StartsWith(t[d..], Host) {
      HostDoubleSlash();
      assert t[d..][..|Host|] == Host;
      assert t[d + 6] == '/' && t[d + 7] == '/';
      HostDoubleSlashOnly(w, d + 6);
    }
  }

  /** Two different start positions cannot both carry an accepted text. */
  lemma ShapedUnique(s: string, q: nat, p: nat, user: string, repo: string, user': string, repo': string)
    requires q < p <= |s|
    requires Shaped(s[p..], user, repo)
    ensures !Shaped(s[q..], user', repo')
  {
    if Shaped(s[q..], user', repo') {
      var w := user' + "/" + repo';
      SegmentsSingleSlashes(user', repo');
      assert (Host + w)[p - q..] == s[p..];
      assert StartsWith(s[p..], Host);
      HostOnlyAtStart(w, p - q);
    }
  }

  /** The pattern cannot match before a position where the text has the accepted shape. */
  lemma ShapedOnce(s: string, q: nat, p: nat, user: string, repo: string)
    requires q < p <= |s|
    requires Shaped(s[p..], user, repo)
    ensures MatchAt(s, q) == None
  {
    MatchAtSound(s, q);
    if MatchAt(s, q).Some? {
      ShapedUnique(s, q, p, user, repo, MatchAt(s, q).value.user, MatchAt(s, q).value.repo);
    }
  }

  /** The search returns the match at the first position that has one. */
  lemma {:induction false} SearchFinds(s: string, i: nat, p: nat)
    requires i <= p <= |s| && MatchAt(s, p).Some?
    requires forall q :: i <= q < p ==> MatchAt(s, q) == None
    ensures Search(s, i) == MatchAt(s, p)
    decreases p - i
  {
    if i < p {
      SearchFinds(s, i + 1, p);
    }
  }

  /** Whatever the search returns comes from an accepted suffix, with group 3 unset. */
  lemma {:induction false} SearchSound(s: string, i: nat)
    requires i <= |s|
    ensures Search(s, i).Some? ==>
              var g := Search(s, i).value;
              g.gitExt == None && exists q :: i <= q <= |s| && Shaped(s[q..], g.user, g.repo)
    decreases |s| - i
  {
    MatchAtSound(s, i);
    if MatchAt(s, i).None? && i < |s| {
      SearchSound(s, i + 1);
    }
  }

  /** When some suffix has the accepted shape, the search finds a match. */
  lemma SearchComplete(s: string)
    ensures HasGitHubSuffix(s) ==> Search(s, 0).Some?
  {
    if HasGitHubSuffix(s) {
      var q, user, repo :| 0 <= q <= |s| && Shaped(s[q..], user, repo);
      MatchAtComplete(s, q, user, repo);
      forall q' | 0 <= q' < q
        ensures MatchAt(s, q') == None
      {
        ShapedOnce(s, q', q, user, repo);
      }
      SearchFinds(s, 0, q);
    }
  }

  /**
   * Whatever precedes the host, a text ending in the host and two '/'-free
   * segments yields those segments, and group 3 is never set.
   */
  lemma MatchSuffix(pre: string, user: string, repo: string)
    requires user != [] && repo != [] && '/' !in user && '/' !in repo
    ensures Match(pre + Host + user + "/" + repo) == Some(Groups(user, repo, None))
  {
    var s := pre + Host + user + "/" + repo;
    var p := |pre|;
    assert s[p..] == Host + user + "/" + repo;
    MatchAtComplete(s, p, user, repo);
    forall q | 0 <= q < p
      ensures MatchAt(s, q) == None
    {
      ShapedOnce(s, q, p, user, repo);
    }
    SearchFinds(s, 0, p);
  }
}
