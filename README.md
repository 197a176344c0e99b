# russ5 visit history and CI URL helpers, in Dafny

This project models two small pieces of the russ5 Safari-extension repository.

The first is the visit history of the host app. `HistoryDatabase` keeps a
newest-first log of `WebHistoryItem` records under the key `webHistory` of a
shared `UserDefaults` suite. `addHistoryItem` puts a new record on top and keeps
the first 100. `getHistory` decodes the log and reads every failure (no suite,
no key, bad data) as the empty log. `clearHistory` removes the key.

The second is the string rewriting in the CI scripts:
- `convertToSSHUrl`, which turns an HTTPS GitHub URL into its `git@github.com:` form. It appears twice, in `scripts/convert-git-url.js` and in `scripts/test-ssh-key.js`.
- the two expressions that mask credentials in a git URL before it is logged.

Layout, one module per source file plus helpers:

- `common.dfy`: `Wrappers` (an `Option` type) and `Text` (`StartsWith`, `Min`, and `Prefix` for Swift's `prefix(n)`).
- `web_history.dfy`: `WebHistory`, the record as an immutable datatype whose constructor has the initializer's defaults.
- `history_store.dfy`: `HistoryStore`. It holds the class `HistoryDatabase` with two fields: `suiteAvailable`, and `stored`, the slot under the key (`Absent | Valid(log) | Undecodable`). It also holds the specification functions `Pushed` (one add) and `Replay` (a run of adds), with lemmas about them.
- `github_pattern.dfy`: `GitHubPattern`, the regular expression `/https:\/\/github\.com\/([^\/]+)\/([^\/]+)(\.git)?$/` as a backtracking matcher in JavaScript's order. The lemmas say exactly which strings it matches and what it captures.
- `convert_git_url.dfy`: `ConvertGitUrl`, for `scripts/convert-git-url.js`.
- `test_ssh_key.dfy`: `TestSshKey`, for the copy in `scripts/test-ssh-key.js`.
- `test_git_ssh.dfy`: `TestGitSsh`, the `^(.*?@)` mask.
- `debug_ssh.dfy`: `DebugSsh`, the `https:\/\/[^@]*@` mask.

Inputs the source takes from the platform are parameters:
- `UUID()` and `Date()` are the `id` and `now` arguments of `AddHistoryItem`.
- Whether the App Group suite exists is the `suiteAvailable` argument of the constructor.
- Whether `JSONEncoder` succeeds is the `encodes` argument.

Two properties one might expect of such a store do not hold in the code:
- `addHistoryItem` has no lock, so concurrent adds can lose an update. Only sequential calls are modelled, and no atomicity is claimed.
- URLs are not validated and timestamps are not made monotonic. The store keeps whatever `URL` and `Date()` it is given.

## Model

| member | source | states |
|---|---|---|
| `WebHistory.InitStoresArguments` | russ5/WebHistoryItem.swift:13-21 | every initializer argument lands unchanged in the field of the same name |
| `WebHistory.InitDefaults` | russ5/WebHistoryItem.swift:13 | omitted `title`, `pageDescription`, `previewImageURL`, `faviconURL`, `articleText` are `nil` |
| `HistoryStore.Pushed` | russ5/HistoryDatabase.swift:16-21 | one add gives a log of length min(old length + 1, 100), with the new item at index 0 and the old log's first entries after it, in order; only the oldest tail entries are dropped |
| `HistoryStore.ReplayNewestFirst` | russ5/HistoryDatabase.swift:13-23 | any non-empty run of adds leaves the visits newest first, then the earlier log, cut to 100 from the tail: FIFO eviction, no dedup |
| `HistoryStore.ReplayFromEmpty` | russ5/HistoryDatabase.swift:13-23 | from an empty log, n adds leave exactly the last min(n, 100) visits; the later of two visits comes first |
| `HistoryStore.HistoryDatabase.constructor` | russ5/HistoryDatabase.swift:8-11 | the store starts with the given suite availability and stored slot |
| `HistoryStore.HistoryDatabase.GetHistory` | russ5/HistoryDatabase.swift:26-38 | a non-empty result comes only from an available suite holding a decodable log, and is that log; a missing suite, an absent key or undecodable data give the empty log |
| `HistoryStore.HistoryDatabase.SaveHistory` | russ5/HistoryDatabase.swift:40-51 | the slot becomes the given log when the suite exists and encoding succeeds; otherwise nothing changes |
| `HistoryStore.HistoryDatabase.AddHistoryItem` | russ5/HistoryDatabase.swift:13-24 | the slot becomes `Pushed(old log, new record)` (url and title given, other optional fields nil), so it has 1 to 100 entries; over undecodable or absent data it is exactly the new record; with no suite or a failed encoding nothing changes |
| `HistoryStore.HistoryDatabase.ClearHistory` | russ5/HistoryDatabase.swift:53-59 | the key becomes absent when the suite exists, nothing changes otherwise, and the history reads empty afterwards (so a second clear changes nothing) |
| `GitHubPattern.RepoMatch` | scripts/convert-git-url.js:17 | `([^\/]+)(\.git)?$` matches exactly a non-empty '/'-free rest, and the greedy group takes all of it, so group 3 is never set |
| `GitHubPattern.MatchAtSound` | scripts/convert-git-url.js:17-18 | a match at a position means the text from there on is the host and two non-empty '/'-free segments, which are the groups; group 3 is unset |
| `GitHubPattern.MatchAtComplete` | scripts/convert-git-url.js:17-18 | text of that shape from a position on matches there, with exactly those two segments as groups |
| `GitHubPattern.ShapedUnique` | scripts/convert-git-url.js:17 | since the pattern is anchored only at the end, two different positions could both start a match, but the shape makes that impossible |
| `GitHubPattern.SearchSound` | scripts/convert-git-url.js:18 | whatever `url.match` returns comes from some suffix of the accepted shape, with group 3 unset |
| `GitHubPattern.SearchComplete` | scripts/convert-git-url.js:17-18 | when some suffix has the accepted shape, the left-to-right search finds a match |
| `GitHubPattern.Match` | scripts/convert-git-url.js:17-18 | `url.match(httpsRegex)` succeeds exactly when some suffix is `https://github.com/` followed by two non-empty '/'-free segments, and its groups are those segments |
| `GitHubPattern.MatchSuffix` | scripts/convert-git-url.js:17-18 | for any text before the host, the match yields the two segments of the suffix |
| `ConvertGitUrl.ConvertToSshUrl` | scripts/convert-git-url.js:8-32 | a URL starting with "git@" is returned unchanged; any changed result starts with "git@github.com:" |
| `ConvertGitUrl.ConvertIdempotent` | scripts/convert-git-url.js:10-23 | converting twice equals converting once |
| `ConvertGitUrl.ConvertOnMatch` | scripts/convert-git-url.js:17-23 | a URL ending in `https://github.com/user/repo`, with user and repo non-empty and '/'-free, becomes `git@github.com:user/repo.git`; text before the host is dropped |
| `ConvertGitUrl.ConvertDoubleGit` | scripts/convert-git-url.js:15-22 | `https://github.com/user/name.git` becomes `git@github.com:user/name.git.git`, not the form the comment gives |
| `ConvertGitUrl.ConvertUnmatched` | scripts/convert-git-url.js:26-27 | a URL with no suffix of the accepted shape is returned unchanged |
| `ConvertGitUrl.ConvertTrailingSlash` | scripts/convert-git-url.js:17-27 | a URL ending in '/' is returned unchanged |
| `ConvertGitUrl.ConvertOtherHost` | scripts/convert-git-url.js:17-27 | a URL not containing `https://github.com/` is returned unchanged |
| `ConvertGitUrl.ConvertThreeSegments` | scripts/convert-git-url.js:17-27 | `https://github.com/a/b/c` (three segments) is returned unchanged |
| `ConvertGitUrl.StripGitSuffix` | scripts/convert-git-url.js:15 | a repository segment longer than ".git" and ending in it loses the suffix; any other is kept |
| `ConvertGitUrl.ConvertToSshUrlIntended` | scripts/convert-git-url.js:15 | the corrected conversion keeps a URL starting with "git@" |
| `ConvertGitUrl.ConvertIntendedMatchesComment` | scripts/convert-git-url.js:15 | the corrected conversion maps `https://github.com/user/name.git` and `https://github.com/user/name` both to `git@github.com:user/name.git` |
| `TestSshKey.ConvertToSshUrl` | scripts/test-ssh-key.js:66-90 | a URL starting with "git@" is returned unchanged |
| `TestSshKey.ConvertAgrees` | scripts/test-ssh-key.js:66-90 | the copy agrees with `scripts/convert-git-url.js` on every input |
| `TestSshKey.ConvertIdempotent` | scripts/test-ssh-key.js:68-81 | the copy is idempotent |
| `TestSshKey.ConvertOnMatch` | scripts/test-ssh-key.js:73-81 | the copy drops text before the host and turns `…/user/name.git` into `git@github.com:user/name.git.git`, against its comment |
| `TestGitSsh.LazyToAt` | scripts/test-git-ssh.js:21 | a match of `^(.*?@)` ends just after an '@' |
| `TestGitSsh.LazyFindsFirstAt` | scripts/test-git-ssh.js:21 | the lazy group stops at the first '@' when no line terminator precedes it |
| `TestGitSsh.LazyBlocked` | scripts/test-git-ssh.js:21 | a line terminator before any '@' prevents the match |
| `TestGitSsh.MaskedUrl` | scripts/test-git-ssh.js:20-22 | a URL without '@' is returned unchanged |
| `TestGitSsh.MaskFirstAt` | scripts/test-git-ssh.js:20-22 | `pre@post`, with `pre` free of '@' and line terminators, becomes `***@post`; later '@' in `post` are kept |
| `TestGitSsh.MaskLineBreakFirst` | scripts/test-git-ssh.js:20-22 | a line terminator before the first '@' leaves the URL unchanged |
| `DebugSsh.RunToAt` | scripts/debug-ssh.js:72 | the `[^@]*@` part of the pattern, run from an index, ends its match just after an '@' |
| `DebugSsh.RunFindsFirstAt` | scripts/debug-ssh.js:72 | the `[^@]*@` part ends at the first '@' after "https://", so later '@' stay outside the masked span |
| `DebugSsh.Search` | scripts/debug-ssh.js:72 | the leftmost match of the pattern at or after an index lies within the text and is longer than "https://" |
| `DebugSsh.MaskOnMatch` | scripts/debug-ssh.js:72 | with no "https://" starting earlier, the `replace` turns `pre + "https://" + cred + "@" + post` (cred free of '@') into `pre + "https://***@" + post`; with no `g` flag, a later "https://…@" in `post` is kept |
| `DebugSsh.SearchFindsNone` | scripts/debug-ssh.js:72 | when no "https://" is followed later by an '@', the pattern matches nowhere |
| `DebugSsh.MaskedUrl` | scripts/debug-ssh.js:72 | the `replace` leaves the text unchanged when no "https://" is followed later by an '@' (an SSH-form `git@…` URL, say); `MaskOnMatch` gives the result in every other case |

## Findings

| source | as written | input that shows it | evidently intended | confidence | as-written member | corrected member |
|---|---|---|---|---|---|---|
| scripts/convert-git-url.js:17-22 | the repository group `([^\/]+)` is greedy and takes ".git", so `(\.git)?` never captures and ".git" is appended again | `https://github.com/username/repo.git` gives `git@github.com:username/repo.git.git` | `git@github.com:username/repo.git`, as the comment on line 15 says | high; not executed | `ConvertGitUrl.ConvertDoubleGit` | `ConvertGitUrl.ConvertIntendedMatchesComment` |
| scripts/test-ssh-key.js:75-81 | the same greedy group, in the copy of the function | `https://github.com/username/repo.git` gives `git@github.com:username/repo.git.git` | `git@github.com:username/repo.git`, as the comment on line 73 says | high; not executed | `TestSshKey.ConvertOnMatch` | `ConvertGitUrl.ConvertIntendedMatchesComment` |

## Left out

- `UserDefaults(suiteName:)`, the App Group, `JSONEncoder` and `JSONDecoder` are replaced by the `stored` slot. Encoding failure is the `encodes` flag. Decoding failure is the `Undecodable` slot.
- `UUID()` and `Date()` are platform calls, so they are supplied as `id` and `now`. A `Date` is an integer instant, not a floating-point one.
- Concurrency: the unsynchronised read-modify-write in `addHistoryItem` can lose an update when two processes add at once. Calls are modelled one at a time, and no atomicity is claimed.
- The `shared` singleton and the `print` diagnostics are not modelled.
- `HistoryStore.HistoryDatabase.GetHistory`: being a function, it cannot change the store, so two reads with nothing between them are equal by construction. It does not cut a stored log that was written longer than 100 entries by someone else, and neither does the source.
- The capacity bound is stated after each add, not as a class invariant, because a log stored before the first add may be longer.
- russ5 Extension/SafariWebExtensionHandler.swift (message dispatch, URL parsing) is not part of this model. It calls `addHistoryItem` with four metadata arguments that russ5/HistoryDatabase.swift does not declare; the model follows the declaration, which takes only `url` and `title`.
- `ConvertGitUrl.ConvertToSshUrl`: the `catch` branch and non-string arguments are not modelled. On a string, neither `startsWith` nor `match` throws, and the callers check that the variable is set.
- Outside the named functions, the four string-helper scripts are SSH, git, environment and process plumbing, and are not modelled.
- The UI (russ5/ViewController.swift, russ5UITests), the BrowserStack, signing, certificate and build-report scripts, and scripts/validate-js.js are outside this model. They are network, keychain, file and process calls.
