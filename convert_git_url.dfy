/**
 * `convertToSSHUrl` of scripts/convert-git-url.js: rewrites an HTTPS GitHub
 * URL into the `git@github.com:` form that SSH authentication expects.
 */
module ConvertGitUrl {
  import opened Wrappers
  import opened Text
  import opened GitHubPattern

  /** The prefix every SSH-form URL produced here carries. */
  const SshHost: string := "git@github.com:"

  /**
   * A URL already starting with "git@" is kept; otherwise the groups of the
   * first match are reassembled behind `SshHost`, with ".git" when group 3 is
   * unset (`gitExt || '.git'`); a URL that does not match is kept.
   */
  function ConvertToSshUrl(url: string): (r: string)
    ensures StartsWith(url, "git@") ==> r == url
    ensures r != url ==> StartsWith(r, SshHost)
  {
    if StartsWith(url, "git@") then url
    else
      match Match(url)
      case Some(g) =>
        var extension := if g.gitExt.Some? && g.gitExt.value != "" then g.gitExt.value else ".git";
        var r := SshHost + g.user + "/" + g.repo + extension;
        assert r[..|SshHost|] == SshHost;
        r
      case None => url
  }

  /** Every converted URL starts with "git@", so converting twice is converting once. */
  lemma ConvertIdempotent(url: string)
    ensures ConvertToSshUrl(ConvertToSshUrl(url)) == ConvertToSshUrl(url)
  {
    var r := ConvertToSshUrl(url);
    if r != url {
      assert r[..4] == SshHost[..4];
    }
  }

  /**
   * A URL ending in the host and two '/'-free segments becomes the SSH form of
   * those segments plus ".git"; whatever stood before the host is dropped.
   */
  lemma ConvertOnMatch(pre: string, user: string, repo: string)
    requires user != [] && repo != [] && '/' !in user && '/' !in repo
    requires !StartsWith(pre + Host + user + "/" + repo, "git@")
    ensures ConvertToSshUrl(pre + Host + user + "/" + repo) == SshHost + user + "/" + repo + ".git"
  {
    MatchSuffix(pre, user, repo);
  }

  /** An HTTPS URL never starts with "git@". */
  lemma HostIsNotSsh(rest: string)
    ensures !StartsWith(Host + rest, "git@")
  {
    assert (Host + rest)[0] == 'h';
  }

  /**
   * The greedy repository group swallows ".git", so group 3 never takes part
   * and ".git" is appended a second time.
   */
  lemma ConvertDoubleGit(user: string, name: string)
    requires user != [] && '/' !in user && '/' !in name
    ensures ConvertToSshUrl(Host + user + "/" + name + ".git") == SshHost + user + "/" + name + ".git.git"
  {
    var repo := name + ".git";
    assert '/' !in ".git";
    assert Host + user + "/" + name + ".git" == [] + Host + user + "/" + repo;
    HostIsNotSsh(user + "/" + repo);
    ConvertOnMatch([], user, repo);
    assert SshHost + user + "/" + repo + ".git" == SshHost + user + "/" + name + ".git.git";
  }

  /** A URL with no suffix of the accepted shape comes back unchanged. */
  lemma ConvertUnmatched(url: string)
    requires !HasGitHubSuffix(url)
    ensures ConvertToSshUrl(url) == url
  {
    SearchSound(url, 0);
  }

  /** A trailing '/' leaves the repository segment empty: the URL comes back unchanged. */
  lemma ConvertTrailingSlash(url: string)
    requires url != [] && url[|url| - 1] == '/'
    ensures ConvertToSshUrl(url) == url
  {
    forall q, user, repo | 0 <= q <= |url|
      ensures !Shaped(url[q..], user, repo)
    {
      ShapedFacts(url[q..], user, repo);
      assert q < |url| ==> url[q..][|url[q..]| - 1] == '/';
    }
    ConvertUnmatched(url);
  }

  /** A URL in which the host text never occurs comes back unchanged. */
  lemma ConvertOtherHost(url: string)
    requires forall q :: 0 <= q <= |url| ==> !HostAt(url, q)
    ensures ConvertToSshUrl(url) == url
  {
    forall q, user, repo | 0 <= q <= |url|
      ensures !Shaped(url[q..], user, repo)
    {
      ShapedFacts(url[q..], user, repo);
      assert !HostAt(url, q);
    }
    ConvertUnmatched(url);
  }

  /** A path of three segments does not match: the URL comes back unchanged. */
  lemma ConvertThreeSegments(user: string, repo: string, extra: string)
    requires user != [] && repo != [] && extra != []
    requires '/' !in user && '/' !in repo && '/' !in extra
    ensures var url := Host + user + "/" + repo + "/" + extra;
            ConvertToSshUrl(url) == url
  {
    var w := user + "/" + repo + "/" + extra;
    var url := Host + w;
    assert url == Host + user + "/" + repo + "/" + extra;
    SegmentsSingleSlashes(repo, extra);
    assert w == user + "/" + (repo + "/" + extra);
    SegmentsSingleSlashes(user, repo + "/" + extra);
    var i, j := |Host| + |user|, |Host| + |user| + 1 + |repo|;
    assert url[i] == '/' && url[j] == '/';
    forall q, user', repo' | 0 <= q <= |url|
      ensures !Shaped(url[q..], user', repo')
    {
      ShapedFacts(url[q..], user', repo');
      if 0 < q {
        HostOnlyAtStart(w, q);
      } else {
        assert url[q..] == url;
      }
    }
    ConvertUnmatched(url);
  }

  /**
   * A repository segment ending in ".git" (and longer than it) loses that
   * suffix; this is what a lazy repository group `([^\/]+?)` would capture.
   */
  function StripGitSuffix(repo: string): (r: string)
    ensures |repo| > 4 && repo[|repo| - 4..] == ".git" ==> repo == r + ".git" && r != []
    ensures !(|repo| > 4 && repo[|repo| - 4..] == ".git") ==> r == repo
  {
    if |repo| > 4 && repo[|repo| - 4..] == ".git" then repo[..|repo| - 4] else repo
  }

  /**
   * The conversion the comment at scripts/convert-git-url.js:15 describes: a
   * trailing ".git" of the repository is kept once, not doubled.
   */
  function ConvertToSshUrlIntended(url: string): (r: string)
    ensures StartsWith(url, "git@") ==> r == url
  {
    if StartsWith(url, "git@") then url
    else
      match Match(url)
      case Some(g) => SshHost + g.user + "/" + StripGitSuffix(g.repo) + ".git"
      case None => url
  }

  /**
   * With or without ".git" on the HTTPS URL, the intended conversion gives
   * `git@github.com:user/name.git`, the example in the comment.
   */
  lemma ConvertIntendedMatchesComment(user: string, name: string)
    requires user != [] && name != [] && '/' !in user && '/' !in name
    requires !(|name| > 4 && name[|name| - 4..] == ".git")
    ensures ConvertToSshUrlIntended(Host + user + "/" + name + ".git") == SshHost + user + "/" + name + ".git"
    ensures ConvertToSshUrlIntended(Host + user + "/" + name) == SshHost + user + "/" + name + ".git"
  {
    var repo := name + ".git";
    assert '/' !in ".git";
    assert Host + user + "/" + name + ".git" == [] + Host + user + "/" + repo;
    assert Host + user + "/" + name == [] + Host + user + "/" + name;
    HostIsNotSsh(user + "/" + repo);
    HostIsNotSsh(user + "/" + name);
    MatchSuffix([], user, repo);
    MatchSuffix([], user, name);
    assert repo[|repo| - 4..] == ".git" && repo[..|repo| - 4] == name;
  }
}
