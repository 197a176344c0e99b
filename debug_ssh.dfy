// The log masking of scripts/debug-ssh.js: `url.replace(/https:\/\/[^@]*@/, 'https://***@')`,
// without the `g` flag, so only the first match is replaced by `MaskedScheme`.
module DebugSsh {
  import opened Wrappers

  /** The literal text the pattern begins with. */
  const Scheme: string := "https://"

  /** The replacement text. */
  const MaskedScheme: string := "https://***@"

  /** `s` holds "https://" at index `p`. */
  predicate SchemeAt(s: string, p: nat)
  {
    p + |Scheme| <= |s| && s[p..p + |Scheme|] == Scheme
  }

  /**
   * `[^@]*@` from index `k`: the greedy run stops at the first '@', which then
   * matches; giving characters back only puts a non-'@' where '@' is needed.
   */
  function RunToAt(s: string, k: nat): (end: Option<nat>)
    requires k <= |s|
    ensures end.Some? ==> k < end.value <= |s| && s[end.value - 1] == '@'
    decreases |s| - k
  {
    if k == |s| then None
    else if s[k] == '@' then Some(k + 1)
    else RunToAt(s, k + 1)
  }

  /** The span `[start, end)` of a match. */
  datatype Span = Span(start: nat, end: nat)

  /** The whole pattern tried at start position `p`: where its match ends. */
  function MatchAt(s: string, p: nat): (end: Option<nat>)
    requires p <= |s|
    ensures end.Some? ==> p + |Scheme| < end.value <= |s|
  {
    if SchemeAt(s, p) then RunToAt(s, p + |Scheme|) else None
  }

  /** The first start position at or after `p` where the pattern matches. */
  function Search(s: string, p: nat): (m: Option<Span>)
    requires p <= |s|
    ensures m.Some? ==> p <= m.value.start && m.value.start + |Scheme| < m.value.end <= |s|
    decreases |s| - p
  {
    match MatchAt(s, p)
    case Some(end) => Some(Span(p, end))
    case None => if p == |s| then None else Search(s, p + 1)
  }

  /** No "https://" in `url` is followed, anywhere later, by an '@'. */
  predicate NoCredential(url: string)
  {
    forall q :: 0 <= q <= |url| && SchemeAt(url, q) ==> '@' !in url[q + |Scheme|..]
  }

  /**
   * `maskedUrl`: the first match is replaced by `MaskedScheme`; when no
   * "https://" is followed later by an '@', the text is unchanged.
   */
  function MaskedUrl(url: string): (masked: string)
    ensures NoCredential(url) ==> masked == url
  {
    SearchFindsNone(url);
    match Search(url, 0)
    case Some(m) => url[..m.start] + MaskedScheme + url[m.end..]
    case None => url
  }

  /** The run stops at the first '@' from `k` on. */
  lemma {:induction false} RunFindsFirstAt(s: string, k: nat, i: nat)
    requires k <= i < |s| && s[i] == '@'
    requires forall j :: k <= j < i ==> s[j] != '@'
    ensures RunToAt(s, k) == Some(i + 1)
    decreases i - k
  {
    if k < i {
      RunFindsFirstAt(s, k + 1, i);
    }
  }

  /** With no '@' from `k` on, the run finds none. */
  lemma {:induction false} RunFindsNone(s: string, k: nat)
    requires k <= |s| && '@' !in s[k..]
    ensures RunToAt(s, k) == None
    decreases |s| - k
  {
    if k < |s| {
      assert s[k..][0] == s[k];
      assert s[k + 1..] == s[k..][1..];
      RunFindsNone(s, k + 1);
    }
  }

  /** The search passes over positions where nothing matches. */
  lemma {:induction false} SearchSkips(s: string, i: nat, p: nat)
    requires i <= p <= |s|
    requires forall q :: i <= q < p ==> MatchAt(s, q) == None
    ensures Search(s, i) == Search(s, p)
    decreases p - i
  {
    if i < p {
      SearchSkips(s, i + 1, p);
    }
  }

  /** When no "https://" is followed later by an '@', the search finds no match. */
  lemma SearchFindsNone(url: string)
    ensures NoCredential(url) ==> Search(url, 0) == None
  {
    if NoCredential(url) {
      forall q | 0 <= q <= |url|
        ensures MatchAt(url, q) == None
      {
        if SchemeAt(url, q) {
          RunFindsNone(url, q + |Scheme|);
        }
      }
      SearchSkips(url, 0, |url|);
    }
  }

  /**
   * When no "https://" starts before the end of `pre`, the first "https://"
   * and everything up to the next '@' become `MaskedScheme`; the text before
   * and after, later "https://…@" included, is kept.
   */
  lemma MaskOnMatch(pre: string, cred: string, post: string)
    requires '@' !in cred
    requires forall q :: 0 <= q < |pre| ==> !SchemeAt(pre + Scheme + cred + "@" + post, q)
    ensures MaskedUrl(pre + Scheme + cred + "@" + post) == pre + MaskedScheme + post
  {
    var s := pre + Scheme + cred + "@" + post;
    var p := |pre|;
    var at := p + |Scheme| + |cred|;
    assert SchemeAt(s, p) by {
      assert s[p..p + |Scheme|] == Scheme;
    }
    assert s[at] == '@';
    forall j | p + |Scheme| <= j < at
      ensures s[j] != '@'
    {
      assert s[j] == cred[j - p - |Scheme|];
    }
    RunFindsFirstAt(s, p + |Scheme|, at);
    SearchSkips(s, 0, p);
    assert s[..p] == pre && s[at + 1..] == post;
  }
}
