# GitLab Pages: a Dafny model of its hard parts

GitLab Pages serves static sites. Most of it is plumbing around HTTP; this project models the
parts whose correctness is not visible from reading one function, and proves what they promise.

- **Symbolic links in a virtual root** (`Paths`, `CleanRules`, `Symlinks`, `SymlinkTheorems`,
  `LinkSteps`, `LocalRoot`). The link-evaluating loop rewrites strings in place. `Symlinks.Resolve`
  is a resolver over component lists that only ever holds a cleaned position, and
  `Symlinks.WalkSymlinks` computes exactly what it says, for every tree (cyclic links included) and
  every request; `LinkSteps` states what it does at every kind of node. A tree is any function from
  a cleaned position to a node; `LocalRoot.LookupByPlace` shows that a disk root looks no further.
- **Redirect rules** (`Regex`, `RedirectPatterns`, `RedirectSegments`, `Redirects`,
  `RedirectTargets`). A pattern is compiled to a regular expression, matched by ordered
  backtracking and expanded into a target. The search is compared with a declarative reading,
  splat-free patterns with a reading segment by segment, templating with plain substitution, and
  the exact-match shortcut with the general path; whole rules are followed from path to target.
- **The domain-lookup cache** (`DomainCache`, `DomainCacheInvariant`, `DomainCacheTheorems`,
  `DomainCacheStaleness`, `DomainCacheOutcomes`). Callers, retrievals, refreshes, evictions and the
  clock are interleaved one atomic step at a time; the theorems hold of every finite run.
- **Range reads** (`HttpRange`, `RangedReads`). A seekable reader over lazily opened range
  responses: compared with a plain section held in memory, behind `ReadAt`, and many at once.
- **The shared connection limiter** (`ConnLimiter`, `ConnLimiterProgress`), again over every run.
- **The archive cache** (`ZipArchives`, `ZipArchivesTheorems`, `ZipArchivesKeys`) and the caches
  beside it (`SideCache`); **an archive's index** (`ZipIndex`) and what the walk reaches in it
  (`ZipTree`).
- **Header scanners and routing** (`Headers`, `ETags`, `Routing`).

Some things one would expect turn out not to hold, and the exact condition is proved instead:

- The comment above `Refresh` says a response outlives failed refreshes for at most the expiration
  time. A failed refresh stamps the new entry with the creation time of the entry it refreshes, so
  the promise holds for responses kept over at most two refreshes and for no others
  (`DomainCacheStaleness.PromiseExactly`); over `k` refreshes the response can be, and is at most,
  `(k + 1) / 2` expiration times older than its entry.
- A disk root of `/` accepts no path but itself (`LocalRoot.ValidateExactly`).
- A body that breaks while delivering bytes leaves a range reader behind its own response. Reader
  and response stay together exactly when the delivery is not of that kind
  (`HttpRange.Reader.Read`); otherwise a cached read returns the bytes where the response stands,
  not those asked for (`RangedReads.StrayRead`).
- The walk can leave a disk root: a link to ".." is followed out of it, and the path returned is
  then refused. It stays inside exactly when it does not end on a bare way up
  (`LocalRoot.WalkStaysInside`, `LocalRoot.LinkLeadsOut`).
- Indexing an archive supplies the immediate parent of an entry and no other ancestor, so an
  indexed file is reached exactly when every directory above it is listed or directly holds an
  entry (`ZipTree.ReachedExactly`, `ZipTree.LoneEntryUnreached`).
- The limiter relies on closed listeners no longer accepting: it is safe in every run exactly when
  they do not (`ConnLimiter.SafeExactly`).

Conventions: text is a sequence of characters standing for bytes; letters fold case as in ASCII.
Time is an integer. What a server, a client, a clock or the operating system answers is a parameter
or is left open, so that every answer is covered. Functions without a row below are the
definitions the rows speak about.

## Model

| member | source | states |
|---|---|---|
| Symlinks.WalkSymlinks | internal/serving/disk/symlink/symlink.go:17-153 | for every tree and request the string walk returns the path, or the error, of the component-list resolver, and reads as many links |
| Symlinks.Resolve | internal/serving/disk/symlink/symlink.go:103-111 | no evaluation reads more than 255 links |
| Symlinks.NextComponent | internal/serving/disk/symlink/symlink.go:27-34 | the component found is slash-free, empty only at the end, and what follows it is the rest of the work |
| Symlinks.LastSlash | internal/serving/disk/symlink/symlink.go:52-59 | the last slash at or after the volume, or the index before it |
| Symlinks.BackUp | internal/serving/disk/symlink/symlink.go:48-77 | a ".." refused exactly at depth one or less of an absolute request; otherwise the new text stands for the parent position, whether a name was dropped or a ".." kept |
| Symlinks.DropLast | internal/serving/disk/symlink/symlink.go:134-149 | dropping the link's name leaves the text of the position its relative target is read from |
| Symlinks.FollowLink | internal/serving/disk/symlink/symlink.go:119-149 | the spliced path and the restarted text mean the target's components followed by the unread ones |
| Symlinks.Enter | internal/serving/disk/symlink/symlink.go:79-150 | an ordinary component ends the walk with the resolver's answer or leaves the same meaning to the rest |
| SymlinkTheorems.EvaluateCanonical | internal/serving/disk/symlink/symlink.go:45-153 | a returned path has no link on it, only directories before its last name, and evaluating it again returns it unchanged without reading a link |
| SymlinkTheorems.SlashedRequest | internal/serving/disk/symlink/symlink.go:61-62 | a leading slash on the request changes nothing but the refusal to back up to the root, and that comes exactly when the relative evaluation meets a ".." with at most one name to back up over |
| SymlinkTheorems.SelfLink | internal/serving/disk/symlink/symlink.go:103-106 | a link to itself fails after exactly 255 reads |
| LinkSteps.RelativeLink | internal/serving/disk/symlink/symlink.go:134-149 | reading a relative link found below any directories is reading its target from its own directory, followed by what was unread |
| LinkSteps.RootedLink | internal/serving/disk/symlink/symlink.go:119-133 | a link with a leading slash is read from the top |
| LinkSteps.OneLinkTooMany | internal/serving/disk/symlink/symlink.go:103-106 | the 256th link is not read |
| LinkSteps.EndOfWalk | internal/serving/disk/symlink/symlink.go:79-101 | what is missing, a file at the end, a file with more to come and a directory each end the walk as they should |
| LinkSteps.UpOneName | internal/serving/disk/symlink/symlink.go:48-77 | ".." undoes the name before it |
| LinkSteps.UpOneNameAbsolute | internal/serving/disk/symlink/symlink.go:61-77 | in a request with a leading slash too, unless that name is the first: then it is refused |
| LinkSteps.UpFromTop | internal/serving/disk/symlink/symlink.go:61-77 | at the top ".." leads further up, or is refused with a leading slash |
| CleanRules.InnerRules | internal/serving/disk/symlink/symlink.go:152-153 | cleaning drops repeated slashes, ".", and a name with the ".." after it, wherever they stand |
| CleanRules.TopRules | internal/serving/disk/symlink/symlink.go:152-153 | cleaning drops ".." at the top of an absolute path; nothing becomes "." |
| CleanRules.Unchanged | internal/serving/disk/symlink/symlink.go:152-153 | what needs no cleaning is left alone |
| LocalRoot.ValidateExactly | internal/vfs/local/root.go:31-46 | a path is accepted iff it lands on the root or below it name by name (only on it, for "/"), and root, slash and vfs path rebuild the full path |
| LocalRoot.LookupByPlace | internal/vfs/local/root.go:48-62 | what the root looks up depends on the cleaned position of a name alone |
| LocalRoot.RewrittenLinkSameTarget | internal/vfs/local/root.go:57-81 | a link into the root is rewritten to a relative one that leads from its directory to the same cleaned path |
| LocalRoot.RewrittenLinkLeadsThere | internal/vfs/local/root.go:64-81 | read from the directory of the root it stands in, a rewritten link leads to the place it names on the disk |
| LocalRoot.OtherTargetsKept | internal/vfs/local/root.go:64-81 | any other target comes back unchanged |
| LocalRoot.WalkStaysInside | internal/vfs/local/root.go:31-62 | whatever the links say, what the walk finds is accepted by the root, and lies in it name by name, unless it is nothing but a way up; then it is accepted iff the root is "/" |
| LocalRoot.LinkLeadsOut | internal/serving/disk/symlink/symlink.go:119-153 | a link to ".." is followed to ".." itself, which every root but "/" then refuses |
| Regex.MatchExactly | internal/redirects/matching.go:66-85 | the search succeeds iff the path can be cut to fit the expression, and returns the cut greedy order puts first |
| RedirectPatterns.Compile | internal/redirects/matching.go:52-66 | the loop builds the expression of the pattern's non-empty segments |
| RedirectPatterns.GreedySlashes | internal/redirects/matching.go:57 | a group after a run of optional slashes never begins with a slash |
| RedirectPatterns.CaptureLaws | internal/redirects/matching.go:56-85 | a match exists iff a cut does; its pieces make up the path; placeholders capture something without slashes, splats nothing beginning with one |
| RedirectSegments.SplatFreeExactly | internal/redirects/matching.go:53-85 | without splats a pattern matches iff the segments agree one by one (and the path has its slash), and every match binds the placeholders to the same segments |
| RedirectSegments.FinalSplatExactly | internal/redirects/matching.go:53-85 | a pattern ending in its only splat matches iff some front part of the path, ending anywhere, agrees with the segments before the splat and no newline follows |
| RedirectTargets.CapturesByIndex | internal/redirects/matching.go:80-85 | the captures are exactly the pieces of the groups under their names, in order |
| RedirectTargets.SplatCaptures | internal/redirects/matching.go:53-85 | after a literal segment and its slash a splat captures exactly the rest of the path |
| RedirectTargets.KindOfExactly | internal/redirects/validations.go:15-16 | which segments are splats, placeholders and literals |
| RedirectTargets.SameFoldedExactly | internal/redirects/matching.go:66 | letters agree whatever their case, and nothing else does |
| Redirects.ExpandSubstitutes | internal/redirects/matching.go:80-88 | for a target without dollar signs, template and expansion are plain substitution of what was captured |
| RedirectTargets.SubstituteAt | internal/redirects/matching.go:80-88 | a colon and a name of letters stands for what that name captured, all else for itself |
| RedirectTargets.LookupByIndex | internal/redirects/matching.go:87-88 | a name gives the value of its first capture, or nothing |
| RedirectTargets.SplatRewrite | internal/redirects/matching.go:36-97 | everything below one directory is rewritten to the same below another |
| RedirectTargets.PlaceholderRewrite | internal/redirects/matching.go:36-97 | the segment a placeholder stands for is carried over into the target |
| Redirects.CollapseSingle | internal/redirects/matching.go:90-94 | no two slashes meet after collapsing, and a leading slash stays |
| Redirects.CollapseKeepsSegments | internal/redirects/matching.go:90-94 | collapsing changes no segment |
| RedirectTargets.CollapseNothing | internal/redirects/matching.go:90-94 | a path without double slashes is left alone |
| RedirectTargets.CollapseEnd | internal/redirects/matching.go:90-94 | a slash at the end stays, and none is put there |
| Redirects.RewrittenIsLocal | internal/redirects/matching.go:80-96 | a target starting with a slash is rewritten to a path with one slash in front and no "//" |
| Redirects.NormalizedSegments | internal/redirects/helpers.go:9-11 | normalizing changes no segment |
| Redirects.MatchesRule | internal/redirects/matching.go:36-97 | a rule matches iff the shortcut applies or, with placeholders enabled, the path can be cut to fit; and what it is rewritten to |
| RedirectTargets.ExactMatchExactly | internal/redirects/helpers.go:9-11 | the shortcut compares paths up to one slash at the end |
| RedirectTargets.HasTemplateExactly | internal/redirects/matching.go:16 | a target has something to fill in iff it has a star, or a colon with a letter after it |
| RedirectTargets.ValidRuleExactly | internal/redirects/validations.go:22-93 | which rules are valid, with placeholders enabled |
| RedirectTargets.PlaceholderSegmentExactly | internal/redirects/redirects.go:55 | which paths have a placeholder segment, for when they are disabled |
| Redirects.ExactMatchRefines | internal/redirects/matching.go:37-44 | where the shortcut fires the expression matches too, and rewrites a plain target to itself with slashes collapsed |
| Redirects.FindRule | internal/redirects/matching.go:104-125 | the first of the first 1000 rules that is valid and matches, or none if none does, with its target |
| DomainCache.ResolveWithBackoff | internal/source/gitlab/cache/retriever.go:67-89 | at most maxRetries calls, all but the last answered by retryable errors; the last answer is the result; it stops early only on one that is not retryable |
| DomainCacheInvariant.InvStep | internal/source/gitlab/cache/cache.go:76-135 | every step of callers, retrievals, refreshes and store keeps the invariant |
| DomainCacheInvariant.InvRun | internal/source/gitlab/cache/cache.go:76-135 | the invariant holds in every state of every run |
| DomainCacheTheorems.SharedResponseFixed | internal/source/gitlab/cache/entry.go:61-74 | an entry that has been in the store keeps its response, creation time and stamp over every continuation |
| DomainCacheTheorems.PublishedOnce | internal/source/gitlab/cache/entry.go:68-74 | no run sets an entry's response, and closes its channel, twice |
| DomainCacheTheorems.CallsBounded | internal/source/gitlab/cache/retriever.go:73-82 | client calls are at most maxRetries times the entries created, however many callers race |
| DomainCacheOutcomes.SingleFlight | internal/source/gitlab/cache/memstore.go:28-52 | however many callers race, a domain gets one entry other than by refreshing, and one more each time the store drops it |
| DomainCacheOutcomes.CallsAgain | internal/source/gitlab/cache/retriever.go:67-89 | the client is asked again exactly after a temporary error and while retries are left |
| DomainCacheTheorems.ResolveReturns | internal/source/gitlab/cache/cache.go:76-109 | Resolve never returns nil; it returns an answer the client gave for that domain, or a time-out |
| DomainCacheOutcomes.Finds | internal/source/gitlab/cache/memstore.go:28-52 | a caller is given the entry the store has for its domain, looked up again under the lock, or a new one |
| DomainCacheOutcomes.Classified | internal/source/gitlab/cache/cache.go:76-109 | a response is served, served while being refreshed, or waited for, exactly by its presence and age |
| DomainCacheOutcomes.Returns | internal/source/gitlab/cache/cache.go:76-109 | what is returned is the response of the entry given |
| DomainCacheTheorems.WaitersProgress | internal/source/gitlab/cache/cache.go:95-109 | a waiting caller can wake, or the retrieval it waits for can go on |
| DomainCacheTheorems.OneRefreshEach | internal/source/gitlab/cache/cache.go:116-120 | no two entries are created to refresh the same one |
| DomainCacheTheorems.RefreshOutcome | internal/source/gitlab/cache/cache.go:122-135 | in every run, each finished refresh was decided by one of its steps and still shows what that decided: its own result, unless that was a temporary error and the refreshed entry unexpired at that moment, and exactly then the old response with the old creation time |
| DomainCacheOutcomes.RefreshByAnswer | internal/source/gitlab/cache/entry.go:96-111 | a refresh that succeeds or learns that the domain is gone shows its own answer; any other failure is covered by the old response exactly while that is unexpired |
| DomainCacheOutcomes.RefreshedWhenOutdated | internal/source/gitlab/cache/cache.go:82-93 | in every run, only entries that have a response and are older than the refresh time are refreshed |
| DomainCacheTheorems.ChainLaws | internal/source/gitlab/cache/cache.go:127-132 | along a chain of refreshes the response is its source's; no entry is stamped before the one it refreshes, nor after its own creation; the age is bounded by half the chain times the expiration time |
| DomainCacheStaleness.LongestKept | internal/source/gitlab/cache/cache.go:122-135 | that bound is reached, for every length of chain |
| DomainCacheStaleness.PromiseExactly | internal/source/gitlab/cache/cache.go:111-115 | the documented bound holds for responses kept over at most two refreshes, and for no others |
| HttpRange.Reader.constructor | internal/httprange/http_reader.go:196-199 | a new reader stands at the start of its section and holds no response |
| HttpRange.Reader.SetResponse | internal/httprange/http_reader.go:101-127 | a reply is accepted iff it is a 206, or a 200 from the start with the etag unchanged; what it then carries; which status gives which error, and which of them stick to the resource |
| HttpRange.Reader.EnsureResponse | internal/httprange/http_reader.go:52-99 | succeeds iff a response is held, or the reader is inside its section and the reply acceptable; one request iff none is held and there is something to ask for; the gauge follows the response held, on failures too |
| HttpRange.Reader.Seek | internal/httprange/http_reader.go:133-161 | succeeds iff the target lies in the section; moving drops the response, staying keeps it |
| HttpRange.Reader.Read | internal/httprange/http_reader.go:164-179 | whether bytes come, how many, and how the read ends follows from state, reply and what the body delivers; they are the resource's own at the response's position; reader and response part exactly when the body breaks while delivering something |
| HttpRange.Reader.Close | internal/httprange/http_reader.go:182-194 | no response is held and the gauge agrees, however often it is called |
| RangedReads.UseSection | internal/httprange/http_reader.go:129-194 | any sequence of seeks, reads and closes answers as a section held in memory does, refused only outside it or on an unacceptable reply, up to the first body that breaks while delivering something; with 206 answers it ends where the section ends |
| RangedReads.ReadFull | internal/httprange/http_ranged_reader.go:21-29 | all bytes asked for or an error; with an acceptable reply and a body that does not break it gives all that body has; one request at most |
| RangedReads.RangedReader.CachedRead | internal/httprange/http_ranged_reader.go:15-22 | while reader and response are together: the bytes at the offset asked for, and of bytes that exist no error but that of an unacceptable reply or a broken body; no request if it stands there already, one otherwise; a stray response gives the bytes where it stands |
| RangedReads.RangedReader.EphemeralRead | internal/httprange/http_ranged_reader.go:24-30 | correct in the same sense, with one request for bytes that exist and an invalid range otherwise, leaving nothing open |
| RangedReads.RangedReader.ReadAt | internal/httprange/http_ranged_reader.go:39-45 | either way of reading is correct in the same sense |
| RangedReads.RangedReader.WithCachedReader | internal/httprange/http_ranged_reader.go:49-58 | while no body breaks while delivering something every read is correct; contiguous reads of bytes that exist all succeed, for one request, if the first reply is acceptable and no body breaks; nothing stays open |
| RangedReads.StrayRead | internal/httprange/http_reader.go:173-178 | after a body broke behind k bytes, a read at the reader's own offset succeeds with the bytes k further on; right iff those are the same bytes |
| RangedReads.UseReaders | internal/httprange/http_reader.go:62-76 | over every sequence of operations on any readers the gauge is the number holding a response |
| ConnLimiter.InvRun | internal/netutil/shared_limit_listener.go:56-112 | in every run slots and both gauges agree with where goroutines and connections stand |
| ConnLimiter.SafeExactly | internal/netutil/shared_limit_listener.go:73-99 | slots taken are holders plus unreleased connections and within capacity, giving back never blocks, each connection gives back once: in every run iff closed listeners stop accepting |
| ConnLimiterProgress.AcceptExactly | internal/netutil/shared_limit_listener.go:56-67 | in every run a waiting goroutine can take a slot iff fewer are taken than there are, and can leave iff its listener is closed |
| ConnLimiterProgress.GoroutinesProgress | internal/netutil/shared_limit_listener.go:73-112 | every goroutine that neither waits nor is through can make its step |
| ConnLimiterProgress.CloseSignals | internal/netutil/shared_limit_listener.go:95-99 | once Close has returned the inner listener is closed and those waiting can see it |
| ConnLimiter.NoSlotLost | internal/netutil/shared_limit_listener.go:68-112 | once all goroutines are through and all connections released, every slot is free and both gauges are zero |
| ConnLimiterProgress.EverySlotReturns | internal/netutil/shared_limit_listener.go:68-112 | once all goroutines are through and every connection was closed, however often, each gave its slot back once and all are free |
| SideCache.KeyInjective | internal/vfs/zip/archive.go:67-76 | archive number, colon and name are recovered from a key |
| SideCache.Cache.Evict | internal/lru/lru.go:39-63 | dropping anything keeps the cache transparent |
| SideCache.Cache.FindOrFetch | internal/lru/lru.go:67-95 | what is stored is answered without fetching, what is fetched is stored, and either way the answer is the archive's own for that name |
| SideCache.UseCache | internal/lru/lru.go:67-95 | over every history of lookups and evictions each answer is the archive's own |
| SideCache.Readlink | internal/vfs/zip/archive.go:244-287 | the exact target iff it has 1 to 256 bytes, too long iff it has more, whatever the cache history |
| ZipIndex.BuildIndex | internal/vfs/zip/archive.go:142-180 | the files map holds exactly the files below public/, each with its last entry; the directories map exactly the listed directories and the immediate parents of entries, a listed one winning in whatever order they come |
| ZipTree.LookupByPlace | internal/vfs/zip/archive.go:182-192 | what an archive looks up depends on the cleaned position of a name alone |
| ZipTree.NodeExactly | internal/vfs/zip/archive.go:229-241 | a file, a directory, a link and its target are seen under a name exactly as the entries of the archive say |
| ZipTree.ReachedExactly | internal/vfs/zip/archive.go:142-241 | the walk finds a plain name, reading no link, iff all directories above it are listed or directly hold an entry, and it is there |
| ZipTree.LoneEntryUnreached | internal/vfs/zip/archive.go:165-180 | a single entry three or more levels down is indexed and not reached |
| ZipArchivesTheorems.InvRun | internal/vfs/zip/vfs.go:154-253 | in every run the lock, the cache, the archives and the calls agree |
| ZipArchivesTheorems.NeverAlreadyCached | internal/vfs/zip/vfs.go:226-231 | no call sees errAlreadyCached, so none goes round the loop of Root again |
| ZipArchivesTheorems.ReturnedRoots | internal/vfs/zip/archive.go:78-163 | a returned root was read by exactly one readArchive, and its two maps index all the entries of its zip directory |
| ZipArchivesKeys.ReturnedForKey | internal/vfs/zip/vfs.go:154-253 | a call never gets an archive created for another key than its own |
| ZipArchivesKeys.CreatedWhenNeeded | internal/vfs/zip/vfs.go:185-231 | in every run an archive is created for a key only when none is cached that is unexpired and uncorrupted |
| ZipArchivesKeys.UsesCached | internal/vfs/zip/vfs.go:190-214 | a cached archive that is neither expired nor corrupted is the one used, and kept longer if it is open and close to its expiry |
| ZipArchivesKeys.Prolonged | internal/vfs/zip/vfs.go:197-208 | which keeps it for the whole expiration time from now |
| ZipArchivesKeys.OpenOutcome | internal/vfs/zip/archive.go:78-118 | the archive is returned exactly when it is read and well |
| ZipArchivesKeys.CallsProgress | internal/vfs/zip/vfs.go:154-253 | no call is stranded: it, the holder of the lock, or the reading it waits for can go on |
| ZipArchivesTheorems.CorruptedNeverReturned | internal/vfs/zip/vfs.go:210-214 | an archive corrupted when a call begins is never what it returns |
| ZipArchivesTheorems.FailureNotExtended | internal/vfs/zip/vfs.go:197-208 | an archive that failed to open keeps the expiry it was added with |
| ZipArchivesTheorems.NumbersUnique | internal/vfs/zip/archive.go:67-76 | numbers drawn from the shared counter are all different |
| Headers.ParseLine | internal/httputil/header/header.go:86-130 | the index loop yields the items of the line |
| Headers.ParseList | internal/httputil/header/header.go:86-130 | the items of all lines in order |
| Headers.ListRoundTrip | internal/httputil/header/header.go:83-130 | well-formed items, however padded, joined by commas, are read back exactly |
| Headers.ItemsAllowed | internal/httputil/header/header.go:83-130 | any text without commas and quotes, and any quoted string, may be an item |
| Headers.LinesRoundTrip | internal/httputil/header/header.go:83-130 | several lines read as their items in order |
| Headers.ExpectToken | internal/httputil/header/header.go:214-222 | the longest run of token characters in front, and the rest |
| Headers.TokenExactly | internal/httputil/header/header.go:18-60 | token characters are those section 3.2.6 of RFC 7230 lists |
| Headers.Unescape | internal/httputil/header/header.go:274-294 | the buffered path yields the unquoted value and stays within its buffer |
| Headers.ExpectTokenOrQuoted | internal/httputil/header/header.go:265-298 | a token, or the unquoted value and what follows it, or nothing for an unclosed quote |
| Headers.QuotedRoundTrip | internal/httputil/header/header.go:265-298 | every way of quoting any value is undone, whatever follows |
| Headers.QuotedOnly | internal/httputil/header/header.go:265-298 | a value is read only from a way of quoting it |
| Headers.Quotable | internal/httputil/header/header.go:265-298 | every value has a way of quoting it, itself if nothing needs escaping |
| Headers.ClosedOrNothing | internal/httputil/header/header.go:265-298 | an unclosed quote yields nothing |
| ETags.ScanETagLoop | internal/vfs/serving/serving.go:58-84 | the loop finds the tag in front and what follows it, or nothing |
| ETags.CheckIfMatch | internal/vfs/serving/serving.go:108-136 | holds iff the list names the served tag by strong comparison |
| ETags.CheckIfNoneMatch | internal/vfs/serving/serving.go:157-185 | fails iff the list names the served tag by weak comparison |
| ETags.StrongIsWeak | internal/vfs/serving/serving.go:86-185 | if If-Match holds on a value then If-None-Match fails on it |
| ETags.NamesExactly | internal/vfs/serving/serving.go:61-185 | on a list of valid tags both say exactly whether one of them matches |
| ETags.WeakAndStrong | internal/vfs/serving/serving.go:86-106 | which tags match weakly and strongly |
| ETags.StarNamesAll | internal/vfs/serving/serving.go:120-175 | a star names any tag |
| ETags.TagExactly | internal/vfs/serving/serving.go:58-84 | which tags are valid |
| ETags.CheckPreconditions | internal/vfs/serving/serving.go:236-265 | exactly when 412 and 304 are sent; one value in both headers never gets the content |
| Routing.SortedSorts | internal/source/gitlab/gitlab.go:105-112 | a permutation, longest prefix first |
| Routing.Resolve | internal/source/gitlab/gitlab.go:67-103 | the first of the longest prefixes that serve the path; prefix and sub-path make up the path, or the path is the prefix cleaned; none iff none serves it |
| Routing.BestIsFirst | internal/source/gitlab/gitlab.go:80-112 | sorting and scanning choose what one pass keeping the longest prefix so far chooses |
| Routing.BestExactly | internal/source/gitlab/gitlab.go:80-112 | that is the first of the longest prefixes that serve the path, and none iff none serves it |
| Routing.OrderIrrelevant | internal/source/gitlab/gitlab.go:105-112 | with distinct well-formed prefixes the choice does not depend on the order of the lookups |

## Left out

- The domain cache, the limiter and the archive cache are concurrent: they are modelled on values, one atomic step at a time, with identifiers in place of pointers; what a lock or a once protects is one step or is stated as an invariant.
- Resource errors raised while an archive is still being read are taken to fail that read, as the zip reader reports them; only a completely read archive can become corrupted.
- HttpRange.Reader.Read: a body read that reports no error delivers at least one byte, so that a full read ends; a server that breaks its own ranges is not modelled, nor one whose resource changes between requests, which a 206 would not reveal.
- HttpRange.Reader.Read: integers are unbounded, so the overflow of range start plus size is not modelled.
- Readers are told the resource's size by its contents; NewResource and its parsing of Content-Range are not modelled.
- Regular expressions are those patterns compile to; case folding beyond ASCII, invalid UTF-8 and compilation errors are not modelled.
- The parser behind validateURL is a parameter, and which error a rejected rule reports is not kept.
- Routing.SortedSorts: the sort works on values rather than in place on the response's slice.
- The index of an archive is two maps of values that the loop reassigns; in the archive cache each pass of that loop is one step.
- The archive-count gauge and other metrics beside the ones named above.
- ParseValueAndParams and ParseAccept, the date headers, content serving, error pages, TLS, configuration and the GitLab API client.
- internal/auth and internal/ratelimiter, which rest on cryptography and a token bucket from other libraries.
- Windows paths: volume names are always empty here.
