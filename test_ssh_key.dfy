/**
 * The copy of `convertToSSHUrl` in scripts/test-ssh-key.js. Its text is the
 * same as in scripts/convert-git-url.js, so it is written out again here and
 * shown to agree with that one.
 */
module TestSshKey {
  import opened Wrappers
  import opened Text
  import opened GitHubPattern
  import ConvertGitUrl

  /** The same steps as `ConvertGitUrl.ConvertToSshUrl`. */
  function ConvertToSshUrl(url: string): (r: string)
    ensures StartsWith(url, "git@") ==> r == url
  {
    if StartsWith(url, "git@") then url
    else
      match Match(url)
      case Some(g) =>
        var extension := if g.gitExt.Some? && g.gitExt.value != "" then g.gitExt.value else ".git";
        "git@github.com:" + g.user + "/" + g.repo + extension
      case None => url
  }

  /** The copy and the original give the same result on every input. */
  lemma ConvertAgrees(url: string)
    ensures ConvertToSshUrl(url) == ConvertGitUrl.ConvertToSshUrl(url)
  {
  }

  /** Like the original, the copy is idempotent. */
  lemma ConvertIdempotent(url: string)
    ensures ConvertToSshUrl(ConvertToSshUrl(url)) == ConvertToSshUrl(url)
  {
    ConvertAgrees(url);
    ConvertAgrees(ConvertToSshUrl(url));
    ConvertGitUrl.ConvertIdempotent(url);
  }

  /**
   * Like the original, the copy drops any text before the host and doubles a
   * trailing ".git", against its own comment.
   */
  lemma ConvertOnMatch(pre: string, user: string, name: string)
    requires user != [] && '/' !in user && '/' !in name
    requires !StartsWith(pre + Host + user + "/" + name + ".git", "git@")
    ensures ConvertToSshUrl(pre + Host + user + "/" + name + ".git") ==
            "git@github.com:" + user + "/" + name + ".git.git"
  {
    var repo := name + ".git";
    assert '/' !in ".git";
    assert pre + Host + user + "/" + name + ".git" == pre + Host + user + "/" + repo;
    ConvertAgrees(pre + Host + user + "/" + repo);
    ConvertGitUrl.ConvertOnMatch(pre, user, repo);
  }
}
