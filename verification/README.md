# Verification of aqsh

aqsh runs scripts as queued tasks behind an HTTP API. This project models its hardest logic in Dafny 4.11
and proves what the code relies on or promises. `dafny verify dfyconfig.toml` checks everything.

Four components are covered, from the inside out.

1. **Authentication by TokenReview with a bounded cache.** `TokenReview.dfy` has the configuration rules, the
   verdict on a reply and the CSV form of groups. `ReviewCache.dfy` has the cache rules and a step
   system: any number of calls interleave at the granularity of the code's locks, with a clock that advances
   freely, a remote whose answers change, and callers that overwrite the lists they were handed. Group lists
   live in a heap of cells, so that sharing and copying differ. `AuthGuarantees.dfy` proves the guarantees over
   all runs. `Kubernetes.dfy` is the same code as a class with real arrays, with the middleware in front of it,
   `Credentials.dfy` the credential that a request presents, and `AuthRefinement.dfy` shows that the class and the
   step system agree.
2. **Log delivery.** `Worker.dfy` has the two writing goroutines and their join, `LogStream.dfy` the
   append-only stream and its paged reads, `EventStream.dfy` the printer and the parser of section 9.2.6 of
   the WHATWG HTML Living Standard, `LogDelivery.dfy` the handler's cursor loop and clients that drop anywhere
   and resume with `Last-Event-ID` (section 9.2.4), `RememberedID.dfy` and `Resumption.dfy` what such a client remembers and
   has received when lines hold carriage returns, and `LogsEndToEnd.dfy` puts writers, reader and clients together.
3. **Remote allowed values.** `QueryEscape.dfy` has the percent-escaping (sections 2.1 and 2.3 of RFC 3986),
   `Template.dfy` the substitution, `Placeholders.dfy` what it means for every template, `UnresolvedCheck.dfy`
   the check for unresolved parameters, `CacheKey.dfy` the URL as a cache key, and `ValuesCache.dfy` the TTL
   cache as a class and under concurrency.
4. **Tasks and submission.** `Tasks.dfy` has input validation and the job's environment, `Include.dfy` the
   merging of included files, `Submit.dfy` the whole submit handler with its loops, `SubmitGuarantees.dfy`
   what an accepted job is sure to satisfy, and `SubmitTerms.dfy` a second account of the handler, in terms of the
   configuration and the request alone, with the proof that the two agree.

`Text.dfy` holds the parts of Go's `strings`, `unicode` and `strconv` packages that the rest uses.

Concurrency is modelled by labelled steps; `Run` replays a list of labels from the initial state and is `None`
when a label does not apply, so a theorem about every `Run` is a theorem about every reachable state. Fields
that only record history are named in each state's comment and no step reads them. Network answers, clock
readings, map iteration orders and file contents are parameters over which the theorems quantify.

## What turned out not to hold without a condition

The code is modelled as it is. Where a promise fails for some inputs, a theorem gives the exact condition.

- Log lines survive the event stream if and only if none contains a carriage return (`RoundTripExactlyWithoutCR`).
  The scanner strips only a carriage return before a line feed, so a progress bar's output does contain them.
  They also damage resumption, if and only if a line goes on with an `id` field behind a carriage return, or with a
  `data` field anywhere behind two in a row (`ResumesExactly`): the first makes the client remember the wrong ID,
  the second completes an event that already carries the entry's ID, and a client cut there never gets the rest
  (`SplitLosesData`). All sessions over a finished log deliver its lines exactly once if and only if no line before
  the first mark holds a carriage return (`SessionsAreExactExactly`).
- A client that keeps reconnecting to a finished log of lines without carriage returns never gets a line twice if
  and only if it starts each stream with the remembered ID in its last event ID buffer
  (`NeverRepeatsExactlyWithCarry`). The standard starts the buffer empty, so a connection that carries nothing but
  the `eof` event makes such a client forget its position and the next connection starts over. On such logs a
  client that stops at `eof` is safe under both rules (`ExactlyOnce`).
- The reader stops at the first end-of-log mark. `docs/api.md` says that the connection closes when the
  execution completes or fails; what attempts append behind the first mark no client receives, and what
  attempts without a mark left before it every client does (`ExactlyOnce`, `ClientHoldsAllAttempts`).
- `docs/authentication.md` measures the deadline of a cached review from the start of the review; the code
  measures it from the start of the call (line 121), which is earlier when the call waits for a slot
  (`DeadlineCountsFromCall`). The model follows the code.
- The review cache rests on SHA-256. In any single run a success is safe if no other token presented in that run
  has the same digest (`AuthenticateRefinesReviews`), which a fixed-size digest can meet. Safety in all runs at once
  would need distinct digests for all tokens (`SafeExactlyWhenDigestsDiffer`), which no fixed-size digest has.
- Substitution into a values URL is independent of Go's map order if and only if no input name followed by `}`
  starts another input name (`DeterministicExactlyWhenPrefixFree`).
- The check for unresolved parameters is exact under a condition on the template that is given for every
  template, all names and every map order (`CheckIsExactExactly`). For input names free of `}` and `$` it reads:
  the template names an unbound input or has no trap (`CheckIsExactForPlainNames`). Well-formed templates have
  none, so the check is exact on them when input names are free of `}` (`CheckIsExactWhenWellFormed`). A name with
  `}` can make it miss an unbound input (`BraceInNameDefeatsCheck`); a stray `$` can make it fire for nothing
  (`BrokenPlaceholderIsTrap`).
- The substituted URL is a faithful cache key when something that the escaper never emits stands between
  neighbouring placeholders: another character, or a `%` that starts no code of the escaper, as in pre-encoded text
  such as `%20` or `%2f` (`SeparatedIsFaithful`, `SameUrlExactlyForSameVariables`). For templates in which no variable
  occurs twice and every other gap is ambiguous, as all gaps without `%` are, that is exactly the condition
  (`FaithfulExactlyWhenSeparated`).
- A reader's own `values_cache` does not bound the age of what it gets; the storing call's does
  (`ReaderTtlIsNoBound`). With two misses at once the older answer can replace the newer one (`OlderFetchCanWin`);
  the newest stored answer is found throughout a run if and only if no store was overtaken
  (`NewestThroughoutExactly`).
- The bounds of an `int` input hold for what the script sees if and only if nothing is accepted at all, or both
  bounds are there and inside int64, a positive minimum is integral and a negative maximum is integral
  (`IntegersSurviveExactly`).

## Model

| member | source | states |
|---|---|---|
| AuthConfig.ValidatesExactly | internal/auth/config.go:28-62 | Settings are accepted if and only if every rule holds, each stated on its own, and an unset timeout becomes five seconds |
| GroupsHeader.SplitGroupsLoop | internal/api/api.go:509-521 | However a header is read as names with white space around them and empty or blank segments between them, the loop yields exactly the names, in order |
| GroupsHeader.PaddedNamesAreKept | internal/api/api.go:513-520 | Names free of commas survive any white space around each of them and any number of empty segments, in order |
| GroupsHeader.EveryHeaderIsPadded | internal/api/api.go:509-521 | Every header is such a list of padded segments, so this determines the split of every header |
| GroupsHeader.SplitNamesExactly | internal/api/api.go:509-521 | A group counts if and only if it is a nonempty name in some segment of the header |
| GroupsHeader.CsvIsLosslessExactly | internal/api/api.go:509-521 | Joining groups with commas and splitting again gives back the list if and only if every name is nonempty, trimmed and without a comma |
| TokenReview.GrantedGroupsSurviveCsv | internal/auth/kubernetes.go:190-217 | For every granted reply the CSV form of the groups splits into the original list, qualified or not |
| TokenReview.DecidesExactly | internal/auth/kubernetes.go:182-218 | A caller is let in if and only if the reply has a status, is authenticated without an error, has a usable user name, a configured audience, no ambiguous group and a usable cluster, and then as the user and groups of the reply, qualified if so configured; without a status the answer is unavailable, and every other failing condition is a refusal |
| TokenReview.QualifiedIdentityIsUnique | internal/auth/kubernetes.go:203-217 | Two granted replies have one qualified identity if and only if cluster and user name both agree |
| TokenReview.QualifiedGroupsAreUnique | internal/auth/kubernetes.go:212-216 | Equal qualified group lists come from equal clusters and equal group lists |
| ReviewCache.PublishKeepsLiveEntries | internal/auth/kubernetes.go:133-146 | One publish keeps the bound of 256, leaves only live entries, keeps every live entry unchanged and adds at most the reviewed one |
| AuthSystem.RunKeepsInv | internal/auth/kubernetes.go:114-219 | Every reachable state of every interleaving meets the invariant: slots counted, entries backed by reviews and owning their lists, calls justified |
| AuthGuarantees.LogIsFaithful | internal/auth/kubernetes.go:186-218 | Every review in the log of a run has the verdict that TokenReview.DecidesExactly determines for its reply |
| AuthGuarantees.AnswersAreDeserved | internal/auth/kubernetes.go:114-219 | In every run a principal handed out, cached or not, is named by a logged reply that is authenticated, without an error, for a configured audience and without ambiguous groups, and by a recent enough one to the same token if no presented token shares the digest; a refusal comes from what the call's own reply lacks, unavailability from a reply without a status or an ended context |
| AuthGuarantees.AuthenticateRefinesReviews | internal/auth/kubernetes.go:114-148 | Whatever the interleaving, if no other token presented in the run has the digest of this one, a success is what the call's own review granted, or a review of the very same token whose call began less than the TTL before the hit was decided; an error comes from the call's own review or context in any case |
| AuthGuarantees.WithoutCacheEverySuccessIsReviewed | internal/auth/kubernetes.go:118-120 | With a TTL of zero every success is the call's own review |
| AuthGuarantees.RevocationTakesEffectWithinTTL | docs/authentication.md:137-141 | If no other token presented in the run has its digest: once no review grants a token any more, no success for it is decided later than the TTL after that |
| AuthGuarantees.HandedGroupsSurviveCsv | internal/auth/kubernetes.go:190-217 | In every run the groups handed out, cached or not, survive the CSV form |
| AuthGuarantees.SlotsAreConserved | internal/auth/kubernetes.go:150-159 | Occupied slots are the calls inside a review, never more than 32, and none is left when every call has returned by whatever path |
| AuthGuarantees.CacheIsBounded | internal/auth/kubernetes.go:133-146 | At most 256 entries in every reachable state, none with a deadline further away than the TTL |
| AuthGuarantees.LiveEntriesNeverChange | internal/auth/kubernetes.go:141-146 | Over any stretch of any run an entry stays until its deadline with the same deadline and the same principal, whatever callers write into their lists |
| AuthGuarantees.OnlyStoresChangeTheCache | internal/auth/kubernetes.go:114-148 | As long as no call publishes, the whole cache stays as it is, expired entries and group lists included, however late it gets and whatever callers do |
| AuthGuarantees.StoreEndsExpiredEntry | internal/auth/kubernetes.go:133-146 | A publish removes every entry past its deadline, or replaces it by its own unexpired one |
| AuthGuarantees.StoreCachesExactly | internal/auth/kubernetes.go:133-146 | In every run, publishing keeps exactly the entries before their deadline and adds the reviewed principal, with the start of the call plus the TTL as its deadline, if and only if its key is not among them, fewer than 256 are left and that deadline is ahead |
| AuthGuarantees.NobodyIsStuck | internal/auth/kubernetes.go:150-159 | In every reachable state a call that has not returned can move, or waits while all 32 slots are taken, and then any answer to one of those reviews lets it go on |
| AuthGuarantees.EndedCallIsRefused | internal/auth/kubernetes.go:115-117 | Over any stretch of any run a call whose context ended before it began is unavailable and never asks the endpoint |
| AuthGuarantees.DeadlineCountsFromCall | internal/auth/kubernetes.go:121-145 | A call that waits for its slot caches its review with a deadline that is the TTL after the call began, so that much sooner than the TTL after the review began |
| AuthGuarantees.HandedListsArePrivate | internal/auth/kubernetes.go:126-147 | No list handed to a caller is reachable from the cache, from a pending copy or from another caller |
| AuthGuarantees.LiveEntrySparesReview | docs/authentication.md:137-138 | A new call that checks before the deadline is answered from the cache and no review is made |
| AuthGuarantees.CollisionIsServed | internal/auth/kubernetes.go:121-127 | With two tokens of one digest, the second is served the principal of the first without a review |
| AuthGuarantees.SafeExactlyWhenDigestsDiffer | internal/auth/kubernetes.go:121-127 | With the cache on, every success in every run is backed by a review of the same token if and only if digests of distinct tokens differ |
| KubernetesAuth.Kubernetes.Lookup | internal/auth/kubernetes.go:122-128 | A hit is a live entry's principal with a list of its own |
| KubernetesAuth.Kubernetes.DeleteExpired | internal/auth/kubernetes.go:136-140 | The sweep, in any order of the map, leaves exactly the live entries |
| KubernetesAuth.Kubernetes.Publish | internal/auth/kubernetes.go:133-146 | The cache becomes what the cache rules make of it, and cached lists stay unshared |
| KubernetesAuth.Kubernetes.Inspect | internal/auth/kubernetes.go:186-218 | Checking a reply and prefixing its groups in place succeeds if and only if the reply grants its caller, field by field, with the user and the groups of the reply in a list of its own, and answers unavailable exactly without a status |
| KubernetesAuth.Kubernetes.Review | internal/auth/kubernetes.go:151-219 | A review gives its slot back on every path and answers with the verdict, or unavailable when there is no slot |
| KubernetesAuth.Kubernetes.Authenticate | internal/auth/kubernetes.go:114-148 | The outcome and the next cache of an uninterrupted call, with the list handed out fresh and unshared |
| AuthRefinement.CallIsARun | internal/auth/kubernetes.go:114-148 | An uninterrupted call of the object is a run of the one call in the step system: the same answer and the same cache, deadlines counted from the clock at the start of the call |
| KubernetesAuth.Kubernetes.CallerOverwrites | internal/auth/kubernetes.go:126-147 | Writing into a handed list changes no later answer of the cache |
| KubernetesAuth.Request.FromContext | internal/auth/auth.go:29-33 | The verified principal with a private copy of its groups |
| KubernetesAuth.Request.Middleware | internal/auth/auth.go:37-71 | Only GET of /health or /metrics passes unauthenticated; all others lose exactly the identity, groups, forwarding and authorization headers; a verified request carries what the authenticator said in a list of its own; no credential and bad credentials give 401, an authenticator that cannot tell 503 |
| Credentials.BearerTokenExactly | internal/auth/auth.go:52-60 | A request presents a token if and only if its only Authorization header is the word bearer in any case, white space and a token of at most 16384 bytes, with white space around them |
| LogStream.ParseUndoesFormatID | internal/logs/logs.go:55-64 | The cursor a reader sends back denotes the entry it was read from |
| LogStream.AfterIsSuffix | internal/logs/logs.go:60-64 | With growing IDs a read after a cursor sees exactly the entries behind one position |
| LogStream.ReadContinues | internal/logs/logs.go:55-86 | A reader at a position gets the next entries of whatever part of the stream exists, at most 100, none skipped or repeated |
| LogStream.LogStreamer.Write | internal/logs/logs.go:31-36 | A successful append adds exactly the line's entry at the end, a failed one changes nothing |
| LogStream.LogStreamer.WriteEOF | internal/logs/logs.go:38-47 | The mark is appended if the append succeeds; an error means that the append or the setting of the expiry failed |
| LogStream.ReadStream | internal/logs/logs.go:55-86 | The decoding loop computes the reference page, or an error when Redis fails or refuses the cursor |
| LogStream.LogStreamer.Read | internal/logs/logs.go:55-86 | The same for the streamer's own stream |
| LogStream.LogStreamer.ReadAll | internal/logs/logs.go:88-106 | The decoding loop returns every entry of the stream in order, or an error |
| EventStream.FeedLineEvent | internal/api/api.go:412-413 | The parser turns one printed entry into one message with that data and ID, for all lines without CR and LF, also empty ones and those with leading spaces or colons |
| EventStream.FeedEofEvent | internal/api/api.go:407-411 | The parser turns the eof event into one eof event and leaves the last event ID buffer alone |
| EventStream.CutOutput | internal/api/api.go:406-415 | However the output is cut, the client has a whole number of its events from the start and remembers the ID of the last line among them |
| EventStream.ParsedDataHasNoCR | internal/api/api.go:406-415 | No parse of any text yields data with a carriage return |
| EventStream.RoundTripExactlyWithoutCR | internal/api/api.go:406-415 | Parsing the printed entries gives back all pairs of ID and line plus the eof event if and only if no line has a carriage return |
| RememberedID.RemembersExactlyWithoutIDField | internal/api/api.go:382-415 | Wherever a connection is cut, the client remembers the ID of some entry (or what it had before) for all IDs if and only if no line goes on with an `id` field behind a carriage return |
| Resumption.CutAnywhere | internal/api/api.go:382-415 | However the output is cut, a client has exactly the events of the entries up to the one it remembers, for all lines that set no ID and split no data, whatever carriage returns they hold |
| Resumption.SplitLosesData | internal/api/api.go:406-415 | Any line with data behind two carriage returns can be cut where the client remembers its entry and lacks an event that an uncut connection delivers |
| Resumption.ResumesExactly | internal/api/api.go:382-415 | What a cut client has received is always what lies up to the entry it remembers, for all IDs and cuts, if and only if no line sets an ID behind a carriage return or adds data behind two in a row |
| Resumption.SessionsAreExactExactly | internal/api/api.go:367-421 | For every finished log of lines without line feeds, every session delivers a prefix of the lines once each, and all of them by eof, if and only if no line before the first mark has a carriage return |
| LogDelivery.EmitLoop | internal/api/api.go:406-414 | The inner loop writes and remembers what the reference says and stops at a mark |
| LogDelivery.HandleGetLogs | internal/api/api.go:367-421 | The handler's loop over successive reads computes the reference reply: text, cursor, number of reads and reason to end |
| LogDelivery.ServeSendsInOrder | internal/api/api.go:388-420 | Whatever is appended meanwhile and however short the reads, a connection sends the next entries in order, once each, up to the first mark, and says eof only there |
| LogDelivery.EofAfterExactPages | internal/api/api.go:388-420 | On a fixed stream with n entries left up to the first mark the loop ends with eof after exactly n/100 reads, rounded up |
| LogDelivery.QuietAfterEmptyRead | internal/api/api.go:417-419 | Without a mark, when a read with nothing to return comes back empty, a client that does not follow is done after the pages there are and that read |
| LogDelivery.ConnectResumes | internal/api/api.go:382-420 | One connection, cut anywhere, gives a client that has the first k lines the next n and the position to resume, except exactly when only eof arrived under the standard's buffer rule |
| LogDelivery.ExactlyOnce | internal/api/api.go:367-421 | For lines without carriage returns, over any number of connections, drops, resumptions and appends the lines received are a prefix of those before the first mark, without gap, repeat or reorder, and all of them once eof has arrived; SessionsAreExactExactly has the converse |
| LogDelivery.ThirdConnectionReplays | internal/api/api.go:382-386 | Under the standard's rule three full connections to a finished log deliver every line twice |
| LogDelivery.NeverRepeatsExactlyWithCarry | internal/api/api.go:382-386 | For every finished log of lines without carriage returns no session repeats a line if and only if the client carries the remembered ID into the new stream |
| Worker.AttemptAddsShuffleAndMark | internal/worker/worker.go:176-194 | For every schedule and whichever appends fail, an attempt adds an order-keeping shuffle of subsequences of its two outputs, then at most one mark as its last entry; with no failure all lines and the mark |
| Worker.AllUpKeepsEverything | internal/worker/worker.go:179-194 | When no append fails each goroutine has written exactly the lines it has read |
| Worker.StreamLines | internal/worker/worker.go:179-186 | One goroutine's loop appends its prefixed lines in order; a failed append loses its line and nothing else |
| LogsEndToEnd.FirstMarkEndsAttempt | internal/worker/worker.go:188-194 | Whatever lines unfinished attempts left on the stream, the first mark directly follows the lines of the first attempt that got its mark written, whatever later attempts append |
| LogsEndToEnd.UnmarkedAttemptLeavesLines | internal/worker/worker.go:176-194 | An attempt that dies or loses its mark leaves only lines, so that the next attempt meets the same conditions |
| LogsEndToEnd.ClientHoldsAttempts | internal/api/api.go:367-421 | A client told eof holds the lines that unfinished attempts left and then what the first marked attempt got written, a shuffle of subsequences of its two outputs, whichever appends failed |
| LogsEndToEnd.ClientHoldsAllAttempts | internal/worker/worker.go:176-194 | Any number of attempts that die or lose their mark, then one with a mark: a client told eof holds what all of them got written, attempt by attempt, each a shuffle of subsequences of its two outputs |
| LogsEndToEnd.ClientHoldsScriptOutput | internal/api/api.go:367-421 | If that attempt is the first on the stream and loses no append, the client holds every line of both outputs, once each, each output in its own order |
| QueryEscape.EscapeIsEmitted | internal/api/values.go:58-63 | An escaped value consists of unreserved characters, plus signs and percent signs only, so it can never look like a placeholder |
| QueryEscape.EscapedCharsSeparate | internal/api/values.go:58-63 | The escaped characters form a prefix code |
| QueryEscape.UnescapeUndoesEscape | internal/api/values.go:58-63 | The receiver of an escaped value reads back its UTF-8 bytes |
| QueryEscape.EscapeIsInjective | internal/api/values.go:58-63 | Distinct values have distinct escaped forms |
| Template.SubstituteURL | internal/api/values.go:56-66 | The loop over the map gives the substitution for some order of the inputs in which each is used once |
| Template.DeterministicExactlyWhenPrefixFree | internal/api/values.go:57-65 | All orders give the same URL for every template and all values if and only if the input names are prefix-free |
| Template.BraceFreeIsPrefixFree | internal/api/values.go:62-65 | Names without a closing brace are prefix-free |
| Placeholders.SubstituteShows | internal/api/values.go:56-66 | For every template, all input names and every map order: the URL shows each known placeholder's escaped value and every other character as it stands, and never looks into a replacement |
| Placeholders.SubstituteReads | internal/api/values.go:56-66 | For names without a closing brace the replacer does what the author of the template reads, on every well-formed template, and on every template at all when the names have no dollar sign either |
| UnresolvedCheck.FiresForSomeExactly | internal/api/api.go:193-197 | For every template, all names and every order: some values make the check fire if and only if the template has a trap, a dollar sign that empty values can bring next to a brace and something that can spell the rest |
| UnresolvedCheck.FiresForAllExactly | internal/api/api.go:193-197 | All values make the check fire if and only if the template spells the text out itself |
| UnresolvedCheck.CheckIsExactExactly | internal/api/api.go:193-197 | The exact condition for every template, all names and every order: the check fires just for templates that name an unbound input if and only if the text is spelled out when one is named and there is no trap when none is |
| UnresolvedCheck.CheckIsExactForPlainNames | internal/api/api.go:193-197 | For names free of closing braces and dollar signs the check is exact if and only if the template names an unbound input or has no trap |
| UnresolvedCheck.CheckIsExactWhenWellFormed | internal/api/api.go:193-197 | For names free of closing braces the check is exact on every well-formed template, whatever text the identity, groups and values contain |
| UnresolvedCheck.BrokenPlaceholderIsTrap | internal/api/api.go:193-197 | An instance: an opening dollar sign and brace before a caller's placeholder names no input and yet is a trap |
| UnresolvedCheck.BraceInNameDefeatsCheck | internal/api/values.go:62-65 | With any input named `a}b` bound, a well-formed template that names the unbound input `a` before the text `b}` passes the check: the replacer swallows both |
| CacheKey.SameUrlExactlyForSameVariables | internal/api/values.go:56-66 | On a well-formed template with something that the escaper never emits between neighbouring placeholders, two substitutions with any bound inputs give one URL if and only if every variable the template uses has the same value in both |
| CacheKey.SeparatedIsFaithful | internal/api/values.go:56-66 | The same for every template at all when both substitutions know the same names |
| CacheKey.UnseparatedKeysCollide | internal/api/values.go:56-66 | In every template without repeated variables whose gaps all separate or are ambiguous, two neighbouring placeholders that are not separated give one URL to two different sets of values |
| CacheKey.AmbiguousGapCollides | internal/api/values.go:56-66 | Two placeholders collide whenever the text between them is an escaped text less some unreserved characters at its end, percent signs included |
| CacheKey.NoPercentIsDecided | internal/api/values.go:56-66 | In templates without a percent sign between placeholders every gap separates or is ambiguous |
| CacheKey.FaithfulExactlyWhenSeparated | internal/api/values.go:56-66 | For such templates the URL is a faithful key if and only if neighbouring placeholders are separated |
| ValuesCache.Cache.Get | internal/api/values.go:36-48 | A lookup finds an entry up to and including its deadline and deletes exactly the expired entry it finds |
| ValuesCache.Cache.FetchOrCached | internal/api/api.go:480-498 | A live entry is returned without a fetch; otherwise the answer is returned and, if it is a list, found for its TTL and not a moment longer; without a positive TTL nothing is read or written |
| ValuesSystem.LookupFindsLatestStore | internal/api/values.go:36-54 | In every interleaving a lookup finds exactly the list stored last for the URL, for as long as that store's own TTL |
| ValuesSystem.ValuesComeFromTheirUrl | internal/api/api.go:480-498 | Every list handed out was fetched from that very URL, by the call itself or by the call that stored it no longer ago than its own TTL; every error is the call's own |
| ValuesSystem.NonPositiveTtlBypassesCache | internal/api/api.go:482-495 | Calls without a positive TTL neither read nor write the cache and return what they fetched |
| ValuesSystem.ReaderTtlIsNoBound | internal/api/values.go:43-53 | Only the storing call's TTL decides whether a reader gets the stored list, for all TTLs and delays |
| ValuesSystem.NewestThroughoutExactly | internal/api/api.go:488-495 | Over whole runs: the list a lookup can find is at every moment the newest answer stored for the URL if and only if no call was overtaken at its store by a later answer |
| ValuesSystem.NewestAnswerStays | internal/api/api.go:488-495 | In every run in which no store is overtaken, what a lookup finds is the newest answer stored for the URL |
| ValuesSystem.OlderFetchCanWin | internal/api/api.go:488-495 | Two misses at once can make the older answer replace the newer one and stay for its full TTL |
| Tasks.RefusedExactlyForAFault | internal/tasks/tasks.go:58-138 | A value is refused if and only if it has one of the separately defined faults, and the error names a fault it has |
| Tasks.IntegersSurviveExactly | internal/tasks/tasks.go:97-112 | Every accepted number reaches the script as the decimal text of its integer part, within the bounds, if and only if the stated condition on the bounds holds |
| Tasks.TruncationStaysWithin | internal/tasks/tasks.go:149-152 | Truncation toward zero stays within bounds whose positive minimum and negative maximum are integral |
| Tasks.ValidatePayload | internal/tasks/tasks.go:348-379 | Success exactly when every field is some input's and no submitted value has a fault, with an environment that says of every variable what its field was; otherwise a field that no input has, or a fault of the first faulty input |
| Tasks.FirstErrorExactly | internal/tasks/tasks.go:368-373 | There is a first error if and only if some input's value has one of the separately defined faults, and it is a fault of the first such input |
| Tasks.EnvironmentTells | internal/tasks/tasks.go:141-160 | What a script reads back: the default for an absent or null field, strings as they are, `true` exactly for true and `false` exactly for false, the decimal text of integers and of the integer part of an `int` number inside int64, the shortest text of other numbers; and no other variable |
| Tasks.AcceptedInputsAreValid | internal/tasks/tasks.go:368-373 | When no first error is found every single input is valid |
| Tasks.EnvironmentHolds | internal/tasks/tasks.go:374-376 | Every variable holds the value of the last input that writes it |
| Tasks.EnvironmentHoldsOnly | internal/tasks/tasks.go:354-376 | The environment has no variable that is not some input's |
| Include.ValidateInputs | internal/tasks/tasks.go:272-289 | The nested loops find a task with a bad input if and only if there is one |
| Include.Config.Merge | internal/tasks/tasks.go:260-267 | Merging adds all tasks and their source when none exists, and otherwise names one that does |
| Include.Config.LoadInclude | internal/tasks/tasks.go:235-270 | An included file is added exactly when it is readable, has no include and no defaults, is valid and shares no task; a duplicate is reported with both sources, and any other error names a fault the file has |
| Include.Load | internal/tasks/tasks.go:174-233 | Loading succeeds if and only if every pattern and every distinct matched file is good and no task has two homes; the result is then their disjoint union, and the error names something that is indeed wrong |
| Include.LoadsExactly | internal/tasks/tasks.go:174-289 | A root file loads if and only if nothing is wrong, one complaint at a time: unreadable or malformed files, includes or any default in an included file, an input with values_url and enum, values_cache without values_url or without a duration, a bad pattern, a task in two files |
| Include.LoadIgnoresPatternOrder | internal/tasks/tasks.go:204-230 | The same patterns in any order and with any repetition load or fail together, and load to the same tasks |
| Include.SizesAddUp | internal/tasks/tasks.go:261-267 | No task is lost or shadowed: the numbers of tasks of the distinct files add up |
| Submit.IsAllowedUser | internal/api/api.go:523-533 | True exactly for a nonempty identity in the list |
| Submit.HasAnyGroup | internal/api/api.go:535-544 | True exactly when the two lists share a group |
| Submit.Authorize | internal/api/api.go:153-165 | A task without lists is open; otherwise an allowed user or an allowed group is needed |
| Submit.IsValueAllowed | internal/api/values.go:140-147 | True exactly when some allowed value equals the submitted one |
| Submit.CheckValues | internal/api/api.go:173-211 | The loop that binds inputs while it checks them returns the first refusal in input order, each URL built from the inputs bound so far (SubmitTerms.UrlInTerms spells the URL out) |
| Submit.HandleSubmitTask | internal/api/api.go:138-247 | The handler's result is the first refusal in the order of its checks, or the job with the caller, the environment and its queue settings, as SubmitTerms.HandlerInTerms spells out |
| SubmitTerms.HandlerInTerms | internal/api/api.go:138-247 | Whatever the handler answers, for every server, request, payload and remote: the first thing wrong in its order (identity, task, durations, the task's own lists, body, the first refused input, unknown field, first fault, queue) or the job, all stated on the configuration and the request |
| SubmitTerms.JobInTerms | internal/api/api.go:153-247 | A job exists only for a configured task whose own lists are empty, name its nonempty identity or share one of its groups; it bears the caller, the task's own queue, timeout and retries or the defaults, and every checked field was listed under the URL with exactly these values |
| SubmitTerms.UrlInTerms | internal/api/api.go:193 | For well-formed templates and names without a closing brace the URL asked at a position is the template with the escaped identity, groups text, task name and submitted strings of the inputs so far in place of their placeholders, and nothing else changed |
| SubmitTerms.WellFormedHasPieces | internal/api/values.go:56-66 | Every well-formed template is a sequence of such text and placeholders |
| SubmitTerms.ResolutionInTerms | internal/tasks/tasks.go:291-346 | A task resolves if and only if it is configured and both effective durations parse; each setting is the task's own, else the file's default, else the built-in one, and lists and inputs are the task's own |
| SubmitTerms.MembersInTerms | internal/api/api.go:156-159 | The groups that count are the verified principal's, or the names in the groups header without the Kubernetes authenticator, or none |
| SubmitTerms.CheckInTerms | internal/api/api.go:181-210 | A position refuses exactly for a value that is no string, an URL that still names an input, a failed fetch (timeouts apart) or a list without the value |
| SubmitTerms.StatusTellsWhatFailed | internal/api/api.go:142-239 | The status of a refusal follows from the first thing that was wrong |
| SubmitGuarantees.BoundExactly | internal/api/api.go:174-180 | The inputs bound after a prefix are its string-valued ones, with the submitted strings |
| SubmitGuarantees.AcceptedJobIsChecked | internal/api/api.go:153-217 | Whenever the handler answers with a job, the caller passed the user-or-group check (on the task's own lists, by SubmitTerms.JobInTerms), no field is unknown, and the environment value of every values_url input is its default or a member of the list for the URL at its position |
| SubmitGuarantees.ListWasFetchedForTheseValues | internal/api/api.go:193-210 | With the cache shared by any number of callers, the list in which an accepted value was found was fetched, just now or within the storing call's TTL, by a call that substituted the very same values for every variable of the separated template |
| SubmitGuarantees.UnresolvedExactlyWhenNotBoundEarlier | internal/api/api.go:173-197 | At every position of every task: for all callers and all payloads that bind the same inputs the check fires just when the template mentions an input that is not a string-valued input at or before the position, if and only if the stated condition on the template holds |
| SubmitGuarantees.UnresolvedExactForPlainNames | internal/api/api.go:173-197 | With plain input names that condition is: the template mentions an unbound input or has no trap; well-formed templates always meet it |
| SubmitGuarantees.DecisionIgnoresOrders | internal/api/api.go:173-211 | With prefix-free input names the decision does not depend on any map order |
| SubmitGuarantees.AclAgreesWithCsv | internal/api/api.go:153-165 | The group check on the verified list and on its CSV form agree for every granted reply |
| SubmitGuarantees.EmptyGroupIsNoMember | internal/api/api.go:509-521 | No groups header makes its caller a member of the empty group |
| SubmitGuarantees.HealthyRemotesCauseNoServerError | internal/api/api.go:141-211 | While every values URL answers with a list no refusal before the queue is a server error; 401 and 404 come exactly from a missing identity and from a task that does not resolve |
| SubmitGuarantees.JobBearsReviewedPrincipal | internal/api/api.go:614-623 | In every run of the authenticator in which no other presented token has the same digest, the job of a request that carries a returned principal bears an identity and groups that a recent enough review of the same token granted |

## Left out

- HTTP, TLS, JSON and YAML decoding, Redis and asynq: a review, a fetch, a file, an append and an enqueue are
  answers of their surroundings. Retries appear as further segments of the same stream.
- Process execution, result files, timeouts and the scanner's buffer limit (`internal/worker/worker.go`).
- `parseValuesResponse`: the model starts from the list of allowed values.
- The GET handlers for tasks and executions, health, metrics, coverage, access logs, environment loading and
  the tables `serializeTaskDef` and `stateToStatus`.
- Regular expressions, `time.ParseDuration`, `filepath` globbing and path cleaning, and the shortest decimal text of
  a float are functions or values supplied by the surroundings. A finite float64 is the real number it denotes;
  the bounds `.nan` and `.inf`, which YAML can write, are not modelled.
- `validEndpoint`: its verdict is a field of the configuration, because it rests on `net/url`.
- KubernetesAuth.Kubernetes.Authenticate: one call at a time, because interleavings are the subject of AuthSystem; AuthRefinement.CallIsARun ties the two.
- KubernetesAuth.Request.Middleware: header names are already in canonical form.
- AuthGuarantees.AuthenticateRefinesReviews: assumes for a success that no other token presented in the run has the same SHA-256 digest; CollisionIsServed shows what happens otherwise.
- ValuesCache.Cache.Get: hands out the list as a value; the code hands out the cached slice itself, which its readers never write.
- LogStream.LogStreamer.Read: what a blocking read waits for is not modelled, a read may come back empty or short at any time; the special cursors of Redis and the 64-bit width of ID parts are not modelled.
- LogStream.LogStreamer.WriteEOF: the expiry of the stream after its retention is not modelled, only whether it could be set.
- CacheKey.FaithfulExactlyWhenSeparated: templates that use a variable twice, or have broken percent-encoded UTF-8
  such as `%C3` alone between placeholders, get the sufficient condition but no exact one.
- LogDelivery.QuietAfterEmptyRead: a client that does not follow makes the handler pass a block time of zero, which
  XREAD takes for no limit; whether and when such a read comes back empty is not modelled.
- Worker.StreamLines: one goroutine alone; the step system Worker.Run has both.
- SubmitTerms.UrlInTerms: for well-formed templates and input names without `}`; Placeholders.SubstituteShows says what every other template becomes.
- Submit.HandleSubmitTask: the answers of fetchOrCachedValues are a function of position and URL; ValuesSystem says where they come from.
- Include.Load: the check that a pattern stays below the base directory is part of the outcome of a pattern.
- Tasks.EnvironmentTells: outside int64 the integer of an `int` number is whatever the platform's conversion yields, which the language leaves open.
- Tasks.RefusedExactlyForAFault: a Go `int` converts to float64 exactly in the model; JSON decoding never yields one.
- Strings are sequences of Unicode scalar values; invalid UTF-8 is not modelled.
