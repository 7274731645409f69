# Verified model of the EndPointBlank Python SDK

A Dafny model of the parts of the SDK whose correctness is not evident from reading one
function, with proofs for all inputs, all runs and all interleavings.

| module | models |
|---|---|
| `MaskingTransform`, `MaskingLaws`, `MaskingPath`, `MaskingRegex`, `Masking`, `MaskingRules` | the masking engine: JSONPath subset, recursive rewriter, replacement templates, global regex replacement, rule application, and what one rule does |
| `AccessTokens`, `AccessTokensRefresh`, `AccessTokensThreads`, `AccessTokensSolo` | the access-token cache: the singleton as a class, repeated refreshes, the same code as atomic steps of any number of threads, and these steps without interference |
| `AuthenticationCache`, `EndpointAuthorize` | the TTL cache of authorizations, and the grants recorded on requests from it |
| `ManagementRetry` | the management client's retry loop against a server that honours idempotency keys |
| `DelayedWriter`, `DelayedWriterSolo` | producers, the bounded queue and the batching workers, and their steps without interference |
| `Utf8`, `StringTruncator`, `XmlTruncator`, `FastJsonTruncator` | byte budgets; UTF-8 as in sections 3 and 4 of RFC 3629 |
| `BaseUrl`, `BaseUrlHeaders` | scheme, host and port of a request, and which header each comes from; authorities as in section 3.2 of RFC 3986 |
| `RoutePath` | route-pattern normalization by decorators and registrars |
| `RouteIntake`, `RoutePieces`, `RouteAgreement`, `RouteBraces`, `RouteExamples` | intake's normalizer, when the decorators' and the Django registrar's paths become one there, and routes for which they do not |
| `JsonValues`, `OrderedDict`, `Options`, `Text` | shared data types: ordered JSON, insertion-ordered dicts, optional values, ASCII text |

Code that updates state in place is a class or a method with its loop, proved against a
specification function; the theorems are lemmas about those functions. Concurrent code is a
state machine whose steps are the single reads and rebindings of shared fields. Libraries
(JSON and XML codecs, the regex engine, HTTP, clocks) are parameters constrained only by the
laws stated where they are introduced.

`dafny verify dfyconfig.toml` checks everything.

Beside the members listed under "Model": a request resolves the same whatever the earlier hops of its
forwarded headers say, or a malformed last one (`BaseUrl.OnlyCleanedLastHopMatters`); untrusted, those
headers are not read at all (`BaseUrl.UntrustedHeadersIgnored`); and a request known to be proxied hides
the connection's own scheme and port (`BaseUrl.ProxiedHidesConnection`). However often management POSTs are
repeated, within calls and across them, each key takes effect at most once (`ManagementRetry.EachKeyOnce`),
and without keys a retried request can take effect twice, which is why a PATCH is not repeated after a failure
(`ManagementRetry.KeylessRetryRunsTwice`). An authorization cached in the shape used up to 0.13 names its
environment and no organization (`EndpointAuthorize.OldEntries`).

## Where code and documentation differ

The model follows the code.

- README.md:509 says an uncompilable regex degrades to a no-op. A rule that also has a valid
  path still masks by path (`Masking.BadRegexStillMasks` is an input, `Masking.BadRegexIsNoOp` the
  exact condition).
- `last_failure` (src/end_point_blank/tokens/access_tokens.py:232-270) promises None when nothing covering
  the URL failed since the last success. A failure recorded for a shorter prefix survives
  that success (`AccessTokens.FailureAfterSuccess` gives the exact condition).
- `StringTruncator` (src/end_point_blank/string_truncator.py:20-23) promises at most `limit` bytes. With a limit
  smaller than the suffix the result is longer (`StringTruncator.WithinLimit` gives the exact condition).
- `FastJsonTruncator` (src/end_point_blank/fast_json_truncator.py:52-56) reserves 20 bytes for a marker of 21,
  so its result can be one byte over (`FastJsonTruncator.JsonBudget`).
- `normalize_route_pattern` is meant to be idempotent (tests/commands/test_route_path.py:57-60). It is for identifiers,
  not for `<<a>>` (`RoutePath.NormalizeTwice` gives the exact condition).
- tests/commands/test_route_path.py:92-96 promises that both spellings of a path survive intake's normalizer
  identically. They do not where a literal `{` reaches into a parameter, as in `a{<id>}/`, nor where
  the scanner finds a name that intake does not give back. An identifier always is; but of the
  `re_path` `^t/(?P<t>[^<]+)/(?P<id>x)/$` the scanner takes `]+)/(?P<id` for a name, and a slash in a
  name keeps intake from reading it. `RouteAgreement.NamesDecidePaths` and
  `RouteBraces.IntakeAgreesExactly` give the conditions.
- `token_result` (src/end_point_blank/tokens/access_tokens.py:107-137) documents what it raises. It also raises a
  TypeError for every URL whose longest match was minted with an expiry that has no offset, until that
  entry is invalidated, cleared or minted anew through another URL
  (`AccessTokensRefresh.NaiveMintBlocks` and `AccessTokensRefresh.NaiveEntryStays`).

## Model

| member | source | states |
|---|---|---|
| `MaskingTransform.TransformIsReplace` | src/end_point_blank/masking.py:114-155 | For every JSON value, every token list (any mix of children, indexes, wildcards and several descendants) and every scalar mask, the bottom-up rewriter yields the original with the outermost originally selected positions replaced; selection is the independent predicate `Matches` on paths |
| `MaskingTransform.DescendIsReplace` | src/end_point_blank/masking.py:158-167 | Recursive descent, although it applies the rest of the path to an already rewritten subtree, selects exactly what the declarative reading of `..name` selects on the original |
| `MaskingTransform.ReplaceTwice` | src/end_point_blank/masking.py:114-167 | Masking what is already masked amounts to masking the original with the union of the two selections |
| `MaskingLaws.MaskReplacesOutermost` | src/end_point_blank/masking.py:114-155 | Position by position: an outermost selected position holds the replacement, and a node neither selected nor inside a selected one keeps its kind, keys, size and scalar value |
| `MaskingLaws.NothingSelectedSurvives` | src/end_point_blank/masking.py:114-155 | Every selected position of the original lies at or below a replacement in the result |
| `MaskingLaws.DescendantMatches` | src/end_point_blank/masking.py:158-167 | `..name` followed by more tokens matches a path exactly when some step of it is `name` and the rest matches what is left |
| `MaskingLaws.MaskAllIsReplace` | src/end_point_blank/masking.py:247-264 | Path-only rules applied one after the other select on the original what any one of them selects there |
| `MaskingLaws.RuleOrderIrrelevant` | src/end_point_blank/masking.py:247-264 | Two lists with the same set of path-only rules give the same value, whatever the order and repetition |
| `MaskingLaws.MaskTwiceIsMaskOnce` | src/end_point_blank/masking.py:114-155 | Path-only masking is idempotent |
| `MaskingLaws.MaskIsIdle` | src/end_point_blank/masking.py:114-155 | Path-only masking leaves a value unchanged if and only if every outermost selected position already holds the replacement |
| `MaskingLaws.ReachedWhenSelected` | src/end_point_blank/masking.py:327-349 | A string is reached by a path+regex rule exactly when it or something it lies in is selected |
| `MaskingLaws.TransformStringsIsRewrite` | src/end_point_blank/masking.py:327-349 | Path+regex masking keeps the tree's shape and rewrites each string once for every way in which the path leads to it or above it |
| `MaskingLaws.RegexReachesExactly` | src/end_point_blank/masking.py:327-349 | Position by position: each string is rewritten that many times and every other node is what it was |
| `MaskingPath.ParseSpelled` | src/end_point_blank/masking.py:44-107 | Parsing inverts every spelling of a path, with a free choice for each token of `.name`, `['name']`, `["name"]`, `[digits]`, `.*`, `[*]` and `..name` |
| `MaskingPath.ParsesExactly` | src/end_point_blank/masking.py:44-107 | A path parses to a token list if and only if it is such a spelling of it: nothing else is accepted |
| `MaskingPath.ParsePrinted` | src/end_point_blank/masking.py:44-107 | Parsing the printed form of a token list, one spelling each, gives back the same tokens |
| `MaskingPath.ParserRange` | src/end_point_blank/masking.py:44-107 | A token list is the parse of some path if and only if every token can be spelled: no child name holding both closing sequences, no descendant name outside the name characters |
| `MaskingPath.ReprintStable` | src/end_point_blank/masking.py:44-82 | Printing an accepted path and parsing again gives the same tokens |
| `MaskingRegex.ExpandTemplate` | src/end_point_blank/masking.py:182-209 | The index loop over a template computes the template's expansion, for every template and group list |
| `MaskingRegex.ExpandSpelled` | src/end_point_blank/masking.py:182-209 | A template spelled from literals, dollars and group references expands to exactly their meaning; absent groups give nothing |
| `MaskingRegex.GroupWrites` | src/end_point_blank/masking.py:182-209 | `$k` writes the k-th capture and `$0` the whole match; a group that took no part in the match or that the expression does not have writes nothing |
| `MaskingRegex.PiecesTile` | src/end_point_blank/masking.py:212-239 | Gaps and matches, put together, are the subject string, and each match lies where the pieces before it end, for every matcher, zero-width matches included |
| `MaskingRegex.RegexReplaceAll` | src/end_point_blank/masking.py:212-239 | The scan loop ends for every matcher and returns the gaps as they are with each match replaced by its expansion |
| `MaskingRegex.WholeMatchIsIdentity` | src/end_point_blank/masking.py:212-239 | Template `$0` gives back every string unchanged |
| `MaskingRegex.MapIdentity` | src/end_point_blank/masking.py:341-349 | A string function that changes nothing changes no JSON tree, however often it is applied at each leaf |
| `Masking.Apply` | src/end_point_blank/masking.py:247-264 | The rule loop computes the rules one after the other, skipping entries that are not rules or are disabled |
| `Masking.OnlyTargetsChange` | src/end_point_blank/masking.py:247-277 | No field is added or removed, and a field no active rule targets keeps its value |
| `Masking.BadRegexFallsBackToPath` | src/end_point_blank/masking.py:280-298 | A rule whose expression does not compile does what it would do without one |
| `Masking.BadRegexIsNoOp` | src/end_point_blank/masking.py:280-298 | Such a rule has no effect if and only if its path is absent or malformed, does not apply to the field, or selects nothing that is not already the replacement |
| `Masking.BadRegexStillMasks` | src/end_point_blank/masking.py:290-333 | A concrete rule with an expression that does not compile, and headers it masks all the same |
| `Masking.BadPathMasksNothing` | src/end_point_blank/masking.py:280-298 | A path that does not parse disables the rule: the decoded field is unchanged |
| `Masking.PathRulesMaskDecoded` | src/end_point_blank/masking.py:247-318 | After any list of path-only rules a field decodes to its old value masked by the paths that target it, or to itself when they do not apply to it; bodies held as text or as a dict |
| `Masking.PayloadOrderIrrelevant` | src/end_point_blank/masking.py:247-318 | Reordering or repeating path-only rules with one replacement changes no field as its reader decodes it, if no body is a dict or the replacement reads as itself |
| `Masking.DictBodyMaskedTwice` | src/end_point_blank/masking.py:301-318 | Otherwise it can: a body held as a dict and masked as a whole becomes text that the next rule decodes, so that masking twice differs from masking once |
| `Masking.WholeMatchRuleChangesNothing` | src/end_point_blank/masking.py:301-349 | A regex rule with replacement `$0`, with or without a path, leaves the decoded field unchanged |
| `MaskingRules.RegexRuleMasks` | src/end_point_blank/masking.py:268-349 | For every replacement: a rule with an expression rewrites every string of the field it is for, once without a path and with one as often as the path leads to it or above it, and leaves every other node alone; text that is no body or does not decode is rewritten as a whole |
| `MaskingRules.PathRuleMasks` | src/end_point_blank/masking.py:268-333 | A rule with a path alone puts the replacement, `...` unless it has one, at the outermost selected positions of its field and leaves everything outside them and all plain text alone |
| `MaskingRules.IdleRulesCanGo` | src/end_point_blank/masking.py:247-271 | An entry that is no rule, is switched off, or names a target this record type does not have changes nothing wherever it stands in the list |
| `MaskingRules.FieldKeyIsWireField` | src/end_point_blank/masking.py:20-25 | A target names a payload field in a record of its own type only: five pairs in all |
| `AccessTokens.AccessTokens.constructor` | src/end_point_blank/tokens/access_tokens.py:70-79 | The singleton starts with no entry and no failure |
| `AccessTokens.AccessTokens.TokenResultFor` | src/end_point_blank/tokens/access_tokens.py:107-221 | The method leaves exactly the store and returns exactly the answer of the sequential model of a call, for a hit, a second-look hit, a mint of any outcome, an expiry that cannot be compared, a raised exception and a bad URL |
| `AccessTokens.AccessTokens.Longest` | src/end_point_blank/tokens/access_tokens.py:340-365 | The loop over the keys computes the model's match |
| `AccessTokens.AccessTokens.RecordFailure` | src/end_point_blank/tokens/access_tokens.py:303-322 | Records the failure at the end of the map and trims from the front to the cap |
| `AccessTokens.AccessTokens.LastFailureFor` | src/end_point_blank/tokens/access_tokens.py:232-270 | Answers the record of the longest failed prefix, None for a URL that strips to nothing |
| `AccessTokens.AccessTokens.Invalidate` | src/end_point_blank/tokens/access_tokens.py:272-295 | Key by key: an entry goes exactly if it holds the stale token, every other one is what it was, and None changes nothing |
| `AccessTokens.AccessTokens.Clear` | src/end_point_blank/tokens/access_tokens.py:297-301 | Empties both maps |
| `AccessTokens.CachedExactly` | src/end_point_blank/tokens/access_tokens.py:138-156 | A call is answered from the cache with an entry if and only if that is held under the longest key covering the URL and expires more than 120 seconds after one of the call's two clock readings; the store is then left alone |
| `AccessTokens.ExpiryMeaning` | src/end_point_blank/tokens/access_tokens.py:435-442 | A minted token expires when intake says, or an hour after it is stored if that cannot be read |
| `AccessTokens.ClassifyMeaning` | src/end_point_blank/commands/generate_access_token.py:95-160 | Which answers of intake are a success, a rejected credential, a rejected request, a server error and a lost answer, each exactly |
| `AccessTokens.SuccessStores` | src/end_point_blank/tokens/access_tokens.py:158-189 | A successful mint holds intake's token under intake's base URL with that expiry; of all other entries only the refreshed one goes |
| `AccessTokens.RecordExactly` | src/end_point_blank/tokens/access_tokens.py:303-322 | A failure is written over the URL's own record or put last, and of 64 others only the oldest goes |
| `AccessTokens.MatchKeyLongest` | src/end_point_blank/tokens/access_tokens.py:340-365 | The key found covers the URL and no stored key covering it is longer; none is found only when none covers it |
| `AccessTokens.LookupIgnoresOrder` | src/end_point_blank/tokens/access_tokens.py:340-365 | Maps with the same keys in any order give the same match |
| `AccessTokens.CallKeepsValid` | src/end_point_blank/tokens/access_tokens.py:107-221 | Every call keeps the keys of both maps distinct and at most 64 failures |
| `AccessTokens.FailedMint` | src/end_point_blank/tokens/access_tokens.py:191-200 | A failed mint removes exactly the longest match, keeps every other entry, and is the very result `last_failure` gives next for that URL |
| `AccessTokens.SuccessForgets` | src/end_point_blank/tokens/access_tokens.py:324-338 | After a success no failure is left at the URL, at the canonical key or under it, and every other record stays |
| `AccessTokens.FailureAfterSuccess` | src/end_point_blank/tokens/access_tokens.py:232-270 | After a success `last_failure` is None if and only if every recorded proper prefix of the URL is at or under the canonical key |
| `AccessTokens.ShorterFailureSurvives` | src/end_point_blank/tokens/access_tokens.py:324-338 | A run of two calls from the empty store: an unanswered mint for a host, a successful one for a resource below it, and the host's failure is still what `last_failure` answers for the resource |
| `AccessTokensRefresh.MintStep` | src/end_point_blank/tokens/access_tokens.py:158-189 | While intake answers under one key covering the URL, each mint removes one longer stored key if there is one, and afterwards only a longer key can cause a mint |
| `AccessTokensRefresh.RefreshConverges` | src/end_point_blank/tokens/access_tokens.py:151-189 | However many calls follow, at most n mints are made, or one when n is 0, where n is the number of stored keys longer than the canonical one that cover the URL |
| `AccessTokensRefresh.SteadyAnswers` | src/end_point_blank/tokens/access_tokens.py:141-189 | Every such call is answered from the cache or by a successful mint, or raises because the expiry of its longest match has no offset |
| `AccessTokensRefresh.NaiveMintBlocks` | src/end_point_blank/tokens/access_tokens.py:432-441 | After a successful mint whose entry is now the URL's match, every later call for the URL raises and changes nothing if and only if the expiry intake sent has no offset |
| `AccessTokensRefresh.NaiveEntryStays` | src/end_point_blank/tokens/access_tokens.py:141-189 | Such an entry survives every call for every URL, those for which it is the match raising, but for a successful mint under its own key for a URL with another match |
| `AccessTokensThreads.ActKeepsInv` | src/end_point_blank/tokens/access_tokens.py:141-221 | Each atomic step of any thread keeps the invariant: who holds the lock, what each thread knows of the shared maps, and where every published entry came from |
| `AccessTokensThreads.ReachableInv` | src/end_point_blank/tokens/access_tokens.py:107-301 | Every state of every run satisfies it |
| `AccessTokensThreads.RunExists` | src/end_point_blank/tokens/access_tokens.py:107-301 | Every sequence of actions has a run, so the theorems about runs are not empty |
| `AccessTokensThreads.OneMintAndOnlyWhenNeeded` | src/end_point_blank/tokens/access_tokens.py:151-164 | In every interleaving at most one mint is in flight, and only while the newest map has no usable longest match for its URL |
| `AccessTokensThreads.CachedAnswerWasPublished` | src/end_point_blank/tokens/access_tokens.py:141-149 | Every answer from the cache is the usable longest match of a map that was current at some instant of the call |
| `AccessTokensThreads.StoredTokenWasMinted` | src/end_point_blank/tokens/access_tokens.py:164-189 | Every entry of every map ever published came from a SUCCESS mint and is stored under the base URL that mint named |
| `AccessTokensThreads.RaisingMintChangesNothing` | src/end_point_blank/tokens/access_tokens.py:151-164 | From a mint that raises, whatever other threads do meanwhile, both maps stay what they were up to and including this thread's next step, which frees the lock and ends the call |
| `AccessTokensSolo.SoloCallIsTokenCall` | src/end_point_blank/tokens/access_tokens.py:107-221 | With no other thread in between, the atomic steps of a call end in the store and the answer of the sequential model |
| `AccessTokensSolo.SoloInvalidate` | src/end_point_blank/tokens/access_tokens.py:272-295 | So do the steps of `invalidate` |
| `AccessTokensSolo.SoloClear` | src/end_point_blank/tokens/access_tokens.py:297-301 | And those of `clear` |
| `AuthenticationCache.AuthenticationCache.CurrentTtlOrClear` | src/end_point_blank/commands/authentication_cache.py:71-90 | None and an emptied cache when the TTL disables caching, else the TTL and an untouched cache |
| `AuthenticationCache.AuthenticationCache.StoreCredentials` | src/end_point_blank/commands/authentication_cache.py:116-147 | New cache contents of a store: None ignored before the disabled check, expired entries swept, oldest evicted at capacity, position kept on overwrite |
| `AuthenticationCache.AuthenticationCache.RetrieveCredentials` | src/end_point_blank/commands/authentication_cache.py:149-175 | The value of a valid entry; an entry found invalid is dropped |
| `AuthenticationCache.AuthenticationCache.ExistsValid` | src/end_point_blank/commands/authentication_cache.py:177-193 | True exactly when a retrieve would hit, with the same effect on the cache |
| `AuthenticationCache.AuthenticationCache.RemoveCredentials` | src/end_point_blank/commands/authentication_cache.py:195-203 | Removes the key and returns its value, valid or not |
| `AuthenticationCache.AuthenticationCache.ClearAll` | src/end_point_blank/commands/authentication_cache.py:205-208 | Empties the cache |
| `AuthenticationCache.StepGet` | src/end_point_blank/commands/authentication_cache.py:71-208 | One call, one key: what the key holds afterwards is what the call wrote, or what it held before if the call and capacity spare it; at most one key is added behind it |
| `AuthenticationCache.RunSound` | src/end_point_blank/commands/authentication_cache.py:130-147 | After any run keys are distinct and there are at most 1000 entries |
| `AuthenticationCache.CachedMeansLive` | src/end_point_blank/commands/authentication_cache.py:71-208 | An entry present after a run was written by an enabled store that nothing since disabled, removed, cleared, replaced or saw expired |
| `AuthenticationCache.HitIsLatestStore` | src/end_point_blank/commands/authentication_cache.py:93-175 | A hit returns the latest enabled store of its key, made at w under TTL T, with now < w+T and now-w < the current TTL and no flush, removal or missed read of the key since; raising the TTL or re-enabling resurrects nothing |
| `AuthenticationCache.HitExactly` | src/end_point_blank/commands/authentication_cache.py:93-175 | In raw instants, while fewer than 1000 keys can stand behind the key: a read answers credentials if and only if they were stored last, at w under TTL T, every sweep and read of the key since and this read fell before w+T and within their own TTL of w, and nothing since removed, cleared or disabled |
| `AuthenticationCache.FewStoresLeaveRoom` | src/end_point_blank/commands/authentication_cache.py:130-147 | Up to a thousand stores in all leave that much room |
| `AuthenticationCache.LiveMeansCached` | src/end_point_blank/commands/authentication_cache.py:116-147 | Conversely a live entry is present as long as too few stores followed to push it out |
| `AuthenticationCache.RewriteKeepsPlace` | src/end_point_blank/commands/authentication_cache.py:130-147 | Storing a present key again never leaves more keys behind it than before |
| `AuthenticationCache.NewKeySurvives` | src/end_point_blank/commands/authentication_cache.py:130-147 | A key appended as new is present with its latest value through the next 999 stores, overwrites of the key itself included, and the keys behind it never outnumber the stores since |
| `EndpointAuthorize.RequestStore.Set` | src/end_point_blank/request_store.py:45-54 | The new environ's three caller fields are empty whatever it carried, its uuid is the request's or a fresh one, and no other key changes |
| `EndpointAuthorize.RequestStore.Clear` | src/end_point_blank/request_store.py:97-102 | The thread has no environ afterwards |
| `EndpointAuthorize.RequestStore.Put` | src/end_point_blank/request_store.py:104-108 | One key of the current environ is set, nothing without an environ |
| `EndpointAuthorize.RequestStore.Record` | src/end_point_blank/commands/endpoint_authorize.py:130-136 | The three caller fields are those of the grant and nothing else changes |
| `EndpointAuthorize.Authorize` | src/end_point_blank/commands/endpoint_authorize.py:60-127 | The verdict, the new cache and the recorded caller of one authorization; a 201 fetches environment, organization and block from their positions in the answer, and every refused, failed or unanswered one leaves all three fields empty |
| `EndpointAuthorize.AloneIsAuthorize` | src/end_point_blank/commands/endpoint_authorize.py:60-127 | With no other thread in between, a look-up and a reply come to what one call of `authorize` does to the cache and to the recorded caller |
| `EndpointAuthorize.LookNamesLatestGrant` | src/end_point_blank/commands/endpoint_authorize.py:83-122 | In every interleaving of any number of threads' look-ups, replies and request changes and of other uses of the cache, a look-up that hits names exactly the environment, organization and block at their positions in the latest 201 stored under its key, within that store's lifetime and the current TTL, and nothing since has removed the key or cleared the cache |
| `EndpointAuthorize.WaitingNamesNobody` | src/end_point_blank/commands/endpoint_authorize.py:60-97 | In every interleaving a request that waits for intake names no caller |
| `EndpointAuthorize.RequestsStayApart` | src/end_point_blank/request_store.py:45-54 | A thread's next request names nobody, and no step of one thread changes whom another's request names |
| `EndpointAuthorize.RefusedNamesNobody` | src/end_point_blank/commands/endpoint_authorize.py:111-127 | In every interleaving a refused or unanswered authorization leaves its request naming no caller |
| `EndpointAuthorize.GrantDescribes` | src/end_point_blank/commands/endpoint_authorize.py:151-212 | The grant's environment and organization are the non-empty texts at `data[0].source_application_environment_id` and `data[0].source_organization_id` of the answer, its block the object at `deprecation`, and each is empty otherwise |
| `EndpointAuthorize.HitNamesTheSame` | src/end_point_blank/commands/endpoint_authorize.py:79-122 | A later call that hits names the same environment, organization and block as the 201 it was stored by |
| `EndpointAuthorize.KeySpelling` | src/end_point_blank/commands/endpoint_authorize.py:78-78 | The cache key is the five fields in their order behind `epb_auth:` |
| `EndpointAuthorize.KeyInjective` | src/end_point_blank/commands/endpoint_authorize.py:78-78 | Cache keys tell requests apart if and only if at most one of the joined fields may hold a colon |
| `EndpointAuthorize.KeysCollide` | src/end_point_blank/commands/endpoint_authorize.py:78-78 | For all other fields, a colon moved from the application's name into the version gives two requests one cache key; and no version and the version None are spelled alike |
| `ManagementRetry.Request` | src/end_point_blank/management/client.py:196-281 | The loop ends at the first attempt without a pause, sends at most max_retries+1 equal requests (one key for a POST), waits the sum of the pauses, and a POST or PATCH takes effect at most once |
| `ManagementRetry.PauseMeaning` | src/end_point_blank/management/client.py:261-281 | A pause means a retry is left, lies between 0 and max(8, max_retry_wait), and for a PATCH follows only a 429 that ran nothing |
| `ManagementRetry.PauseExactly` | src/end_point_blank/management/client.py:261-281 | When a request is sent again and after exactly how long: a lost or failing answer to anything but a PATCH after 0.5, 1, 2, 4 and then 8 seconds, a 429 after its Retry-After, or as long without one, if that is not over the maximum |
| `ManagementRetry.OneKeyOnce` | src/end_point_blank/management/client.py:196-206 | However often it is sent, a POST takes effect exactly once if its key is new and one of its attempts runs, and else not at all |
| `ManagementRetry.RetriedPatchRanNothing` | src/end_point_blank/management/client.py:266-281 | A PATCH is only repeated after attempts that ran nothing |
| `ManagementRetry.WaitBound` | src/end_point_blank/management/client.py:261-281 | The total wait of n pauses is at most n times the longest wait |
| `ManagementRetry.CallBounds` | src/end_point_blank/management/client.py:196-281 | Wait and effect of a whole call, for every verb |
| `DelayedWriter.ActKeepsInv` | src/end_point_blank/writers/delayed_writer.py:35-64 | Every step of every producer and worker keeps the bookkeeping of queue, batches and unfinished count |
| `DelayedWriter.ReachableInv` | src/end_point_blank/writers/delayed_writer.py:25-64 | Every state of every interleaving satisfies it |
| `DelayedWriter.AcceptedAreTakenThenQueued` | src/end_point_blank/writers/delayed_writer.py:35-58 | Submitted payloads split into accepted and dropped; accepted, in order, are those taken followed by those queued; the queue holds at most 500 |
| `DelayedWriter.TakenIsInOneBatch` | src/end_point_blank/writers/delayed_writer.py:43-58 | Every payload taken is at exactly one place of exactly one batch, and batches hold 1 to 4 |
| `DelayedWriter.UnfinishedMeaning` | src/end_point_blank/writers/delayed_writer.py:58-64 | The unfinished count is the queue's length plus what unfinished batches still owe, and is 0 only when all is flushed and acknowledged, failed flushes included |
| `DelayedWriter.EveryScheduleDrains` | src/end_point_blank/writers/delayed_writer.py:43-64 | However the workers are scheduled, without another write they stop within a number of steps fixed by the state, and where none can go on every accepted payload is in a finished batch and nothing is unfinished |
| `DelayedWriter.AcceptedGetsOut` | src/end_point_blank/writers/delayed_writer.py:43-64 | From every reachable state one worker of our choice, with those already holding a batch, can bring this about |
| `DelayedWriter.DelayedWriter.WriteAll` | src/end_point_blank/writers/delayed_writer.py:35-41 | Queue plus dropped is the old queue plus the payloads, and something is dropped only at a full queue |
| `DelayedWriter.DelayedWriter.ProcessBatch` | src/end_point_blank/writers/delayed_writer.py:43-64 | A round takes the first up to four payloads in order and acknowledges as many, and what it held is lost if the flush fails |
| `DelayedWriterSolo.WritesAlone` | src/end_point_blank/writers/delayed_writer.py:35-41 | Without interference payloads are queued in order until 500 wait and dropped from then on |
| `DelayedWriterSolo.RoundAlone` | src/end_point_blank/writers/delayed_writer.py:43-64 | Without interference a worker's steps take the first up to four payloads into one finished batch in order and acknowledge exactly these, whether or not the flush fails |
| `Utf8.DecodeEncode` | src/end_point_blank/string_truncator.py:24-36 | Decoding gives back the encoded text |
| `Utf8.DecodeCut` | src/end_point_blank/string_truncator.py:32-36 | Cutting the bytes anywhere and decoding with `errors="ignore"` keeps exactly the whole characters that fit |
| `Utf8.FitIsLongest` | src/end_point_blank/string_truncator.py:32-36 | Those characters are the longest prefix within the bytes |
| `Utf8.CutsCharMeaning` | src/end_point_blank/string_truncator.py:32-36 | They leave bytes unfilled if and only if the byte after the cut is a continuation byte |
| `StringTruncator.TruncateMeaning` | src/end_point_blank/string_truncator.py:15-37 | With room for the suffix: the text if it fits, else its longest whole-character prefix within limit minus suffix, then the suffix |
| `StringTruncator.TruncatedText` | src/end_point_blank/string_truncator.py:15-37 | For every limit, one below the suffix included: the text if it fits, else its longest whole-character prefix within the bytes before the suffix, counted from the back if there are none, then the suffix |
| `StringTruncator.WithinLimit` | src/end_point_blank/string_truncator.py:15-37 | The result is within the limit if and only if the text fits or the suffix does |
| `StringTruncator.SuffixOverflows` | src/end_point_blank/string_truncator.py:15-37 | A concrete text and limit for which the result is over the limit |
| `XmlTruncator.PruneElement` | src/end_point_blank/xml_truncator.py:54-78 | The loops over attributes and children compute the pruned element |
| `XmlTruncator.CopyAttributes` | src/end_point_blank/xml_truncator.py:57-61 | The attribute loop stops after the first twenty, each cut to its bytes |
| `XmlTruncator.XmlWithinLimit` | src/end_point_blank/xml_truncator.py:24-44 | On every branch the result is within the limit if and only if the limit is at least 12, or the text or its pruned document fits |
| `XmlTruncator.TextBound` | src/end_point_blank/xml_truncator.py:81-90 | A truncated text is within its byte maximum |
| `XmlTruncator.PrunedIsBounded` | src/end_point_blank/xml_truncator.py:54-78 | Every node of a pruned tree has at most 21 children, 20 attributes and short texts, with one level left per depth |
| `XmlTruncator.PrunedKeeps` | src/end_point_blank/xml_truncator.py:46-90 | Node by node: the tag, the first 20 attributes in order with values cut to 100 bytes, the text cut to 200, the first 20 children pruned in order and a marker behind them exactly if there are more; only a marker below the sixth level |
| `XmlTruncator.PrunedAt` | src/end_point_blank/xml_truncator.py:46-78 | Position by position: down to six levels, along the first 20 children, each element is the original one at that place, pruned |
| `XmlTruncator.TruncatedDocument` | src/end_point_blank/xml_truncator.py:24-44 | Which of document, pruned document, root around a marker, and bare marker comes out |
| `XmlTruncator.PrunedDocument` | src/end_point_blank/xml_truncator.py:54-78 | A pruned document has at most 7 levels below its root |
| `XmlTruncator.FittingIsKept` | src/end_point_blank/xml_truncator.py:54-78 | A document within all bounds is unchanged if and only if no element of it carries a tail, and otherwise loses nothing but its tails |
| `XmlTruncator.MixedContentLosesTail` | src/end_point_blank/xml_truncator.py:54-78 | The text behind the child of a small document with mixed content is lost |
| `FastJsonTruncator.PruneValue` | src/end_point_blank/fast_json_truncator.py:28-49 | The loop over a dict and the comprehension over a list compute the pruned value |
| `FastJsonTruncator.PrunedIsBounded` | src/end_point_blank/fast_json_truncator.py:28-49 | Containers keep at most 20 entries, strings at most 203 bytes, and depth is bounded |
| `FastJsonTruncator.PruneKeeps` | src/end_point_blank/fast_json_truncator.py:28-49 | Node by node: the first 20 entries in order under their own keys, pruned; text over 200 bytes cut and dotted; a marker below the fifth level |
| `FastJsonTruncator.PrunedLocate` | src/end_point_blank/fast_json_truncator.py:28-49 | Position by position: down to six levels the pruned value has exactly the positions among the first 20 of every container on the way, and what stood there, pruned |
| `FastJsonTruncator.TruncatedJson` | src/end_point_blank/fast_json_truncator.py:22-56 | The text if it fits, else its longest whole-character prefix within all but the last 20 bytes, and the marker |
| `FastJsonTruncator.FittingIsKept` | src/end_point_blank/fast_json_truncator.py:28-49 | A value within all bounds is not changed |
| `FastJsonTruncator.JsonBudget` | src/end_point_blank/fast_json_truncator.py:22-56 | For limit >= 20 the result has at most limit+1 bytes; it is within the limit if and only if the text fits or the cut falls inside a character |
| `FastJsonTruncator.AsciiOverflows` | src/end_point_blank/fast_json_truncator.py:52-56 | Every ASCII text over the limit comes out one byte too long |
| `BaseUrl.ResolveRendered` | src/end_point_blank/base_url.py:57-121 | Rendering a resolved origin into a direct request and resolving again gives the same origin, for every environ |
| `BaseUrl.SplitRendered` | src/end_point_blank/base_url.py:181-196 | Splitting a rendered Host header gives back its host and port, IPv6 literals included |
| `BaseUrl.HopsConcat` | src/end_point_blank/base_url.py:147-154 | The hops of two comma-joined values are the hops of the first followed by those of the second |
| `BaseUrl.EarlierHopsIgnored` | src/end_point_blank/base_url.py:147-154 | What an earlier hop sent is ignored once a later one says anything |
| `BaseUrl.ResolveOrigin` | src/end_point_blank/base_url.py:57-121 | Every well-formed origin, rendered into a direct request, resolves to itself |
| `BaseUrlHeaders.ForwardedScheme` | src/end_point_blank/base_url.py:76-98 | Whatever else the environ holds, the last hop of a trusted X-Forwarded-Proto that is a scheme, in any case and with or without a colon, is the scheme |
| `BaseUrlHeaders.ForwardedHost` | src/end_point_blank/base_url.py:80-108 | The last hop of a trusted X-Forwarded-Host that is a host, in any case and with or without a port, is the host |
| `BaseUrlHeaders.ForwardedPort` | src/end_point_blank/base_url.py:83-118 | The last hop of a trusted X-Forwarded-Port that is a port is the port where a scheme is known, unless it is the scheme's own |
| `BaseUrlHeaders.ForwardedHostPort` | src/end_point_blank/base_url.py:99-118 | Without a usable one the port that came with the forwarded host is |
| `BaseUrlHeaders.DirectOrigin` | src/end_point_blank/base_url.py:92-118 | With nothing trusted or usable forwarded: the connection's scheme, the host of the Host header or else the server's name, and the port named with it or else the server's |
| `BaseUrlHeaders.HostnameIsAddressed` | src/end_point_blank/base_url.py:124-146 | The authorize path takes the addressed host, whatever was forwarded |
| `BaseUrlHeaders.ResolvedIsWellFormed` | src/end_point_blank/base_url.py:198-250 | What is resolved always has the shape of a scheme, a host and a port, and never a scheme's own port |
| `RoutePath.PiecesOfWritten` | src/end_point_blank/commands/route_path.py:7-7 | Scanning a written pattern, converters and all, recovers exactly its literals and parameter names |
| `RoutePath.SamePieces` | src/end_point_blank/commands/route_path.py:10-25 | For every pattern the decorators' and the Django registrar's paths are the same pieces with one leading slash, differing only in how a parameter is spelled |
| `RoutePath.FlaskAgrees` | src/end_point_blank/flask/endpoint_registrar.py:57-59 | The Flask registrar publishes the decorators' very string if and only if the rule has exactly one leading slash |
| `RoutePath.NormalizeTwice` | src/end_point_blank/commands/route_path.py:25-25 | Normalizing twice is normalizing once if and only if no parameter name holding `<` is followed by a surviving `>` |
| `RoutePath.IdentifiersSettle` | src/end_point_blank/commands/route_path.py:25-25 | So it is for every pattern whose parameter names hold no `<` |
| `RoutePath.DoubledBracketUnsettled` | src/end_point_blank/commands/route_path.py:7-25 | A concrete pattern that normalizes further the second time |
| `RouteAgreement.NamesDecidePaths` | src/end_point_blank/django/endpoint_registrar.py:12-60 | If no literal `{` reaches into a parameter, the decorators' and the registrar's path become one at intake if and only if intake gives back every name the scanner finds: something before its first `/`, `:` or `}`, only `}` from there on, and no `{` in it that opens a variable; for all names but a `{` in or behind one with a constraint |
| `RouteAgreement.IntakeAgrees` | tests/commands/test_route_path.py:92-96 | One way it holds for all names whatever: braces that settle and names that are given back make the two paths one |
| `RouteExamples.SlashNameDisagrees` | src/end_point_blank/django/endpoint_registrar.py:12-60 | A family of regular-expression routes, with identifiers for parameters and no literal brace, that come apart because the scanner takes a character class's `<` for an opening bracket; with both results |
| `RouteExamples.SlashNameExample` | src/end_point_blank/django/endpoint_registrar.py:12-60 | The route `^t/(?P<t>[^<]+)/(?P<id>x)/$` with both its paths at intake, which differ |
| `RouteExamples.NamesByAccident` | src/end_point_blank/django/endpoint_registrar.py:12-60 | Why the excepted names are excepted: a family with a `{` in a name with a constraint, whose names are not given back and whose paths agree all the same |
| `RouteAgreement.BraceFreeIsCanonical` | tests/commands/test_route_path.py:32-36 | With no `{` in literals and names intake leaves the Django registrar's path alone, and makes it of the decorators' path if and only if it gives every name back |
| `RouteAgreement.WrittenPatternsAgree` | tests/commands/test_route_path.py:32-36 | Every pattern written from literals and parameters, with or without converters, whose braces settle agrees if and only if intake gives back the names as written, and identifiers it always gives back |
| `RouteBraces.IntakeAgreesExactly` | src/end_point_blank/django/endpoint_registrar.py:12-60 | With literal braces that may reach into parameters: the two paths become one if and only if none does and intake gives every name back, for names without `{` whose first `/`, `:` or `}` is no colon, as long as every constraint that such a brace opens is closed by a later `}` |
| `RouteExamples.OpenBraceDisagrees` | src/end_point_blank/django/endpoint_registrar.py:12-60 | A family of patterns Django accepts, a brace directly before a parameter, for which the two paths differ at intake, with both results |
| `RouteExamples.OpenBraceExample` | src/end_point_blank/django/endpoint_registrar.py:12-60 | The pattern `a{<id>}/`: `/a:{id}/` of the decorators' path, `/a{:id}/` of the registrar's |
| `RouteExamples.AgreesByAccident` | src/end_point_blank/django/endpoint_registrar.py:12-60 | Why the constraints have to end: a family of patterns that reach into their parameters and come to one path if and only if the parameters are called by a certain name |
| `RouteExamples.ColonByAccident` | src/end_point_blank/django/endpoint_registrar.py:12-60 | Why no name may be cut at a colon: a family with such a name, no `{` in any name and constraints that end, whose reaching brace leaves the two paths one all the same |
| `RouteExamples.BraceByAccident` | src/end_point_blank/django/endpoint_registrar.py:12-60 | Why no name may hold `{`: the same for a family with a `}` and a `{` in its name |

## Left out

- MaskingPath.ParserRange: name characters and digits are the ASCII ones; Python's `\w` and `\d` also take other scripts.
- Masking.PathRulesMaskDecoded: where a body is held as a dict and not as the text the writers send (src/end_point_blank/masking.py:24-26), takes a replacement that reads as itself, because `Masking.DictBodyMaskedTwice` shows the claim false otherwise; and states the value before the user's mask hook, which is arbitrary code.
- Masking.Apply: a rule's `path` and `regex` are text or absent; values of other types count as absent.
- MaskingRegex.RegexReplaceAll: the regex engine is a parameter known only to search within bounds; Python's limit on the digits of an int in templates and indexes is not modelled.
- AccessTokens.AccessTokens.TokenResultFor: takes the URL already stripped by `strip_url`, which rests on `urlsplit`; `datetime.fromisoformat` is a parameter, which may answer with or without an offset.
- AccessTokens: `token`, `exists` and the logged failure reasons are wrappers over what is modelled.
- AuthenticationCache.HitIsLatestStore: all operations of this cache run under one lock, so a run is a sequence of whole calls.
- EndpointAuthorize.Authorize: takes the cache key as built; the reply's fields are read as in src/end_point_blank/commands/endpoint_authorize.py:165-212, without the log lines.
- ManagementRetry.Request: a request that the network delivers only later counts at the attempt that sent it; key validation, `Retry-After` parsing and the not-found answer of a repeated DELETE are not modelled.
- DelayedWriter.DelayedWriter.ProcessBatch: the wait with a timeout on an empty queue is left to the interleaving model, where a worker without work takes no step.
- Utf8.DecodeCut: text is made of Unicode scalar values; lone surrogates are not modelled.
- XmlTruncator.XmlWithinLimit: parsing and serializing are parameters; namespaces, comments and processing instructions are not modelled.
- FastJsonTruncator.JsonBudget: the JSON encoder is a parameter, and values are JSON values.
- BaseUrl.ResolveRendered: header values are ASCII text; a port of more than 4300 digits, at which current Pythons raise out of `resolve` (src/end_point_blank/base_url.py:240), is resolved as absent; an environ that is not a dict and values that are not text are not modelled.
- RouteAgreement.NamesDecidePaths: says nothing of a `{` in or behind a name that has something before a colon (`x:{c`). What both spellings lose can then coincide, as `RouteExamples.NamesByAccident` shows; one way, `RouteAgreement.IntakeAgrees` covers these names too.
- RouteBraces.IntakeAgreesExactly: says nothing of names holding `{`, names whose first `/`, `:` or `}` is a colon, and constraints that never end. Where a literal brace reaches into a parameter, what both spellings lose can then coincide, as `RouteExamples.BraceByAccident`, `ColonByAccident` and `AgreesByAccident` show; where none does, `RouteAgreement.NamesDecidePaths` covers them.
- HTTP sessions, TLS, management models and resource methods, framework decorators and signal wiring, configuration precedence, header scrubbing, version lookup and logging: field copying and plumbing without a deep property.
