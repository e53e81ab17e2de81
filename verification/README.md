# Verified models of the Pactman nonprofit-check SDK

This project models three parts of the SDK and proves properties of them.

1. **Response signatures** (`python/scripts/contract.py`). A JSON response is folded into a map
   from path strings to joined token sets, and two signatures are compared in four ways. The model
   keeps paths and joined tokens as real strings, beside a structured walk (`Step` lists), and
   proves what each comparison says about the JSON values behind the signatures.
   Files: `Wrappers`, `Text`, `Sorting`, `Paths`, `Json`, `Signatures`, `Tallies`, `Diffs`, `Patches`,
   `Reachability`, `Recording`, `Contracts`.
2. **The Go transport** (`go/pactman/transport.go`, `options.go`). The sending loop runs against an
   arbitrary world that decides every request's outcome, every race and the end of the caller's
   context; the rate scheduler is a step relation over any number of callers with arbitrary clock
   readings. Durations are integer nanoseconds with 64-bit wrap-around where the code multiplies;
   factors are reals. Any number of sending loops over
   one scheduler are a step relation too. Files: `RetryPolicies`, `RetryLoop`, `RateScheduler`,
   `Sums`, `ConcurrentCalls`.
3. **Bulk lookup, end to end** (`go/pactman/ein.go`, `client.go`, `object.go`, `decode.go`,
   `python/scripts/mock_server.py`). Local normalization and pre-flight, the mock service's set
   matching and its check counter under any interleaving, ordered-object parsing and lenient
   decoding, and the reconciliation of every submitted EIN.
   Files: `Repeats`, `Eins`, `Billing`, `RawObjects`, `Decoding`, `BulkLookup`.

Code that loops or updates state is modelled by methods and classes with loops and fields
(`Signatures.TokenTable`, `Billing.Cycle`, `RateScheduler.Throttle`, the differs, `RetryLoop.Send`,
`Eins.CheckBulk`, `Decoding.DecodeDeclared`), each tied by its contract to a specification; the
lemmas are about the specifications.

`dafny verify dfyconfig.toml` checks the whole project.

## Where the code departs from what it says

- An honoured `Retry-After`, or a backoff after jitter, of 9223372036854500000 ns or more leaves
  the 64-bit range when it is rounded to a whole millisecond, so the wait is negative and the retry
  is immediate (`go/pactman/transport.go:239-256`). That limit is the one of exact arithmetic;
  `RetryPolicies.RoundingLimitInDoubles` and `RetryPolicies.ServerSecondsInDoubles` prove that
  double precision blurs it by less than 1489 ns, or 2956 ns from a header in seconds, either way.
  Without jitter the backoff is the capped one; with jitter every draw gives a wait exactly when
  the capped backoff is at most the limit (`RetryPolicies.JitteredBackoffAlwaysWaits`). So every
  backoff of every call is a wait exactly when the policy's longest one is below the limit, or at
  most at it with jitter, or there are no retries (`RetryLoop.EveryBackoffWaitsExactlyWhen`);
  otherwise an outage reaches a negative one. MaxDelay itself caps every delay to within the
  rounding for every accepted policy (`RetryPolicies.BackoffKeepsMaxDelay`): a policy whose MaxDelay
  is beyond the limit is kept to it as well (`RetryPolicies.UncappedPolicyWaits`) unless its backoff
  grows that long. `RetryPolicies.LongestBackoffIsNoWait` and
  `RetryPolicies.LongestRetryAfterIsNoWait` are inputs that are not waited for.
- A request-per-second ceiling is kept exactly when it divides a second into whole nanoseconds,
  few enough of them to fit into 64 bits: otherwise the interval is truncated, or whatever the
  platform's conversion gives, and even two requests made at once can come too close
  (`RateScheduler.CeilingIsKeptExactlyWhen`, `go/pactman/transport.go:209`).
- A check count of 2^53 + 1 is read as 2^53, because it is that as a double; larger counts than
  that are dropped as too large (`BulkLookup.CheckCountReads`, `go/pactman/decode.go:132-143`).
- The list reader for EINs is documented to skip array entries that are not strings, but a `null`
  entry is read as an empty string, because unmarshalling `null` into a string succeeds.
  `Decoding.NullEntryIsRead` is an input; `Decoding.NonStringsAreSkippedUnlessNull` gives the exact
  condition (`go/pactman/decode.go:145-176`).
- A path that is present in a response can still be judged to have had nowhere to arrive, exactly
  when something enclosing it is seen both as an object and as an array that is always empty:
  `Reachability.MixedElementsHideAField` and `Reachability.PresentYetUnreachable`
  (`python/scripts/contract.py:622-643`).
- The enclosing paths read off a printed path are its proper prefixes exactly when no key on the
  way contains `.` or ends in `[]` (`Paths.AncestorsArePrefixes`; `Paths.IllFormedKeysCollide` shows
  what happens otherwise). An empty key does no harm to that below the first step; an empty first
  key is not printed at all (`Paths.EmptyFirstKeyIsLost`, `python/scripts/contract.py:190-204`).
  Theorems about whole values ask for non-empty keys as well; theorems that need no condition on
  keys have none.

## Model

| member | source | states |
|---|---|---|
| Text.SplitJoin | python/scripts/contract.py:207-213 | splitting on a separator undoes joining when no part holds it |
| Text.JoinSplit | python/scripts/contract.py:207-213 | joining the pieces of any text gives it back |
| Text.LessExactlyWhen | python/scripts/contract.py:213 | strings sort by the first code point they differ in, a prefix first |
| Text.TrimPadded | go/pactman/ein.go:83 | trimming removes any whitespace around a trimmed text and nothing else |
| Text.TrimSplits | go/pactman/ein.go:83 | every text is its trimmed form between two runs of whitespace |
| Text.WhitespaceExactly | go/pactman/ein.go:83 | which code points count as whitespace |
| Sorting.ListingIsUnique | python/scripts/contract.py:346-347 | a set has only one ascending list, so the report order does not depend on the order of discovery |
| Sorting.SortedIsListing | python/scripts/contract.py:346-347 | sorting any duplicate-free list of a set's members gives that one list |
| Sorting.FilterOfListing | python/scripts/contract.py:337-339 | dropping tokens from a sorted list leaves the sorted list of what is kept |
| Tallies.ReportIsOrdered | python/scripts/contract.py:342-347 | a report lists removals, then changes, then additions, each by path, and counts them |
| Paths.AncestorsOf | python/scripts/contract.py:598-619 | the string loop yields the enclosing paths, innermost first, and stops because the string shortens |
| Paths.ParentOfExtend | python/scripts/contract.py:190-204 | reading off the last step of a printed path undoes printing it exactly when the step is no key with a dot or trailing brackets |
| Paths.AncestorsArePrefixes | python/scripts/contract.py:598-619 | the enclosing paths of a printed walk are the prints of its proper non-empty prefixes, innermost first, exactly when none of its keys holds a dot or ends in brackets |
| Paths.RenderIsInjective | python/scripts/contract.py:190-204 | two walks whose keys hold no dot and do not end in brackets, and whose first key is not empty, print alike only if they are the same walk |
| Paths.IllFormedKeysCollide | python/scripts/contract.py:190-204 | walks over ill-formed keys do print alike |
| Paths.EmptyFirstKeyIsLost | python/scripts/contract.py:200-204 | an empty first key prints nothing |
| Paths.TopLevelKeyHasNoAncestors | python/scripts/contract.py:598-619 | a top-level key has no enclosing path exactly when it holds no dot and does not end in brackets |
| Paths.AncestorsAreTransitive | python/scripts/contract.py:598-619 | what encloses an enclosing path encloses the path, for every string |
| Paths.AncestorsFormAChain | python/scripts/contract.py:598-619 | of two paths enclosing the same path, one encloses the other |
| Json.TokenClaimsItsValue | python/scripts/contract.py:143-187 | the token of a value names its kind, or its string form with the lengths of its digit groups, and no value of another |
| Signatures.TokenTable.Collect | python/scripts/contract.py:190-204 | the recursive walk adds to the table exactly the sightings of the value, and loses none it had |
| Signatures.BuildSignature | python/scripts/contract.py:207-213 | the collected table, sorted and joined per path, is the value's signature |
| Signatures.SightingsAreNodes | python/scripts/contract.py:190-204 | a token is collected at a path exactly when some walk that prints as the path reaches a node with that token |
| Signatures.SignatureHoldsNodeTokens | python/scripts/contract.py:207-213 | a stored token, split again, is the set of tokens of the nodes printed there; no condition on keys |
| Signatures.JoinTokensRoundTrip | python/scripts/contract.py:213 | splitting a joined token set on the bar gives back the sorted tokens and the set |
| Signatures.SignatureAtSteps | python/scripts/contract.py:190-213 | with well-formed keys a path is in the signature exactly when its walk reaches a node, with exactly those nodes' tokens |
| Signatures.TokensTellKinds | python/scripts/contract.py:168-213 | a token is stored for a walk exactly when some value there is of the kind or string form it names |
| Signatures.DigitsTokensTellGroups | python/scripts/contract.py:143-165 | digits tokens are stored for a walk exactly for the strings of digit groups there, with the lengths of the groups read off them |
| Signatures.ConcatenationMerges | python/scripts/contract.py:195-199 | in any envelope the signature with xs ++ ys is the pointwise token-set union of those with xs and with ys |
| Signatures.OrderAndRepetitionAreIrrelevant | python/scripts/contract.py:195-204 | permuting or repeating elements, or reordering keys, anywhere in a value keeps its signature |
| Diffs.UnreachableIn | python/scripts/contract.py:622-643 | true exactly when some enclosing path arrived only null, or as an array without elements |
| Diffs.ComputeBaselineDiff | python/scripts/contract.py:254-318 | the two loops give the sorted report of the paths judged reportable and the counts of both excuses |
| Diffs.ComputeContractDiff | python/scripts/contract.py:465-500 | the loop reports, sorted, every predicted path with an offending token |
| Diffs.ComputeCoverageDiff | python/scripts/contract.py:503-562 | the loops report unpredicted paths and demanded root causes, and count the excused ones |
| Contracts.WildcardMeansString | python/scripts/contract.py:402-422 | the token string stands for exactly the string values of any form, every other token for itself |
| Patches.PatchYieldsCurrent | python/scripts/contract.py:216-251 | the changes of the schema and type differs, applied to the baseline in any order, give the current signature |
| Patches.PatchReverses | python/scripts/contract.py:216-251 | every change says what it replaces: swapped, the changes take the current signature back to the baseline |
| Patches.TouchedExactlyWhereDifferent | python/scripts/contract.py:216-251 | a path has a change exactly when the two signatures disagree on it |
| Patches.DiffsSplitTheDifferences | python/scripts/contract.py:216-251 | no path occurs twice across the two differs, and both are empty exactly when the signatures are equal |
| Reachability.UnreachabilityPassesDown | python/scripts/contract.py:622-643 | everything below an unreachable path is unreachable |
| Reachability.UnreachableIffNoRoomAbove | python/scripts/contract.py:598-643 | the string walk and look-ups answer a question about the value: some proper prefix of the walk leads only to nulls, or to an array none of whose occurrences has an element |
| Reachability.SignaturesAreAncestorClosed | python/scripts/contract.py:190-213 | a child key implies object on its parent, an element implies array, and the parent is present |
| Reachability.PresentYetUnreachable | python/scripts/contract.py:622-643 | a present path is judged unreachable exactly below a path seen as object and as always-empty array |
| Reachability.UnreachableMeansAbsent | python/scripts/contract.py:622-643 | when no path is both array and object, unreachable paths are absent |
| Reachability.MixedElementsHideAField | python/scripts/contract.py:622-643 | a value with a field that is present and yet judged unreachable |
| Recording.EveryPathIsAccountedFor | python/scripts/contract.py:283-318 | the paths of either side number equal + nullable + unreachable + total |
| Recording.ListedChanges | python/scripts/contract.py:283-318 | a change is listed exactly when its path is on either side and judged reportable |
| Recording.SwappingSides | python/scripts/contract.py:283-318 | swapping sides swaps removed with added and from with to, and keeps every count |
| Recording.NullabilityOnTokenSets | python/scripts/contract.py:321-339 | the excuse holds exactly when one side has no form but null or both have the same forms |
| Recording.DriftIsReported | python/scripts/contract.py:283-339 | a path is listed as changed exactly when both responses hold non-null values there and those take different forms |
| Recording.ReportsCarryTokens | python/scripts/contract.py:283-318 | a reported change carries the joined tokens recorded and current at its walk, and a removed or added path has no values on the other side |
| Recording.LossIsReported | python/scripts/contract.py:283-301 | a path is listed as removed exactly when it is gone and nothing above it came only null or as empty arrays |
| Recording.EnclosesIffPrefix | python/scripts/contract.py:598-619 | a printed path encloses another exactly when its walk is a proper prefix |
| Recording.NullingIsInvisible | python/scripts/contract.py:254-339 | replacing every value at a path by null reports nothing, counts the paths below as unreachable and the path itself once as nullable unless it was only null |
| Recording.EmptyingIsInvisible | python/scripts/contract.py:254-339 | emptying every array at a path reports nothing, counts no nullable, and counts its element path and all below as unreachable |
| Contracts.ContractCheckIsNodeByNode | python/scripts/contract.py:465-500 | checking the folded signature finds nothing exactly when every node at a predicted path has a permitted token |
| Contracts.ViolationsNameTheOffenders | python/scripts/contract.py:482-500 | a reported path names exactly the tokens of its nodes that the contract does not permit |
| Contracts.EveryAbsenceHasOneRoot | python/scripts/contract.py:533-556 | a predicted absent path is unreachable, or has exactly one shallowest absent path at or above it, which is reported or counted optional |
| Contracts.CoverageListed | python/scripts/contract.py:503-562 | exactly which additions and removals the coverage report lists |
| Contracts.PolicyDecides | python/scripts/contract.py:545-554 | without a policy every root cause is reported, with one exactly the roots it names |
| Contracts.OptionalAreCounted | python/scripts/contract.py:545-562 | without a policy nothing counts as optional, with one the roots it does not name |
| Contracts.UnreachableAreCounted | python/scripts/contract.py:538-541 | the unreachable count is that of the predicted absent paths with nowhere to arrive |
| Contracts.RemovalsDoNotNest | python/scripts/contract.py:539-554 | no reported removal encloses another |
| Contracts.RootsAreCounted | python/scripts/contract.py:533-562 | removals and optional absences together number the root causes, whatever the policy |
| RetryPolicies.RoundingLimit | go/pactman/transport.go:254-256 | in exact arithmetic rounding is within half a millisecond below the limit and negative from it on |
| RetryPolicies.RoundsToNearest | go/pactman/transport.go:254-256 | below the limit a delay is the nearest whole millisecond, half up |
| RetryPolicies.RoundingLimitInDoubles | go/pactman/transport.go:254-256 | with the rounding errors of doubles the same holds 1489 ns away from the limit |
| RetryPolicies.BackoffStaysUnderCap | go/pactman/transport.go:239-252 | a delay not from Retry-After lies between 0 and the rounded MaxDelay exactly when MaxDelay is below the rounding limit, jitter or not |
| RetryPolicies.BackoffKeepsMaxDelay | go/pactman/options.go:30-32 | for every accepted policy a delay not from Retry-After is at most MaxDelay and half a millisecond, and not negative exactly when its backoff after jitter is below the limit |
| RetryPolicies.UncappedPolicyWaits | go/pactman/transport.go:239-252 | a policy whose MaxDelay is the longest duration waits its moderate backoff |
| RetryPolicies.LongestBackoffIsNoWait | go/pactman/transport.go:239-256 | an accepted policy whose backoff wraps to a negative delay |
| RetryPolicies.BackoffNeverShrinks | go/pactman/transport.go:239-252 | without jitter a delay is at most the next exactly when the capped backoff does not cross the limit between them |
| RetryPolicies.BackoffGrowsByTheFactor | go/pactman/transport.go:244-246 | the first backoff is InitialDelay and each next the factor times the last, none more than MaxDelay |
| RetryPolicies.JitterTakesItsShare | go/pactman/transport.go:247-249 | jitter multiplies the capped backoff by the draw |
| RetryPolicies.DefaultBackoffs | go/pactman/options.go:50-60 | the default policy is accepted, retries twice with jitter, and its backoffs are half a second, a second and on to eight seconds |
| RetryPolicies.BackoffWrapsExactlyFromLimit | go/pactman/transport.go:239-256 | a delay is a wait exactly when the backoff after jitter is below the rounding limit; without jitter that backoff is the capped one |
| RetryPolicies.JitteredBackoffAlwaysWaits | go/pactman/transport.go:243-251 | with jitter every draw gives a wait exactly when the capped backoff is at most the limit |
| RetryPolicies.RetryAfterIsHonoured | go/pactman/transport.go:239-256 | in exact arithmetic an honoured Retry-After is waited to within half a millisecond exactly below the limit, even above MaxDelay |
| RetryPolicies.OtherRetryAfterIsIgnored | go/pactman/transport.go:240-242 | a Retry-After that is not respected or not usable makes no difference |
| RetryPolicies.LongestRetryAfterIsNoWait | go/pactman/transport.go:239-256 | the longest Retry-After gives a negative delay |
| RetryPolicies.UsableHeaders | go/pactman/transport.go:260-287 | a Retry-After is usable exactly when it is a non-negative finite number or a date, never asks for a negative wait, and a date asks for the time until it |
| RetryPolicies.ServerSecondsAreWaited | go/pactman/transport.go:239-287 | in exact arithmetic, from header to wait: the seconds asked for are waited, or there is no wait at all from the limit on |
| RetryPolicies.ServerDateIsWaited | go/pactman/transport.go:239-287 | from a date to the wait: none once it has passed, until then to within the rounding, below the limit |
| RetryPolicies.ServerSecondsInDoubles | go/pactman/transport.go:254-278 | for every number of seconds, with the rounding errors of doubles at each stage and the saturating branch, the same holds 2956 ns away from the limit |
| RetryPolicies.RequestSettings | go/pactman/transport.go:57-75 | options apply in order and the first bad one ends the call, so settings that come out hold a validated policy |
| RetryPolicies.SoundExactlyWhen | go/pactman/options.go:69-82 | a policy is accepted exactly when nothing in it is negative and the factor is at least 1, and the problem named is a real one |
| RetryPolicies.RejectsExactly | go/pactman/options.go:214-284 | each option is accepted exactly for the values it can take |
| RetryPolicies.LastTimeoutIsUsed | go/pactman/options.go:214-223 | of several timeouts the last is used, without one the client's |
| RetryPolicies.LastPolicyIsUsed | go/pactman/options.go:226-248 | of several policies the last is used, and a number of retries changes only that number |
| RetryPolicies.DedupeOnlyWhenAsked | go/pactman/options.go:301-303 | de-duplication is on exactly when it was on already or asked for |
| RetryLoop.Send | go/pactman/transport.go:77-125 | the loop's outcome, requests started and waits are those of the declarative run |
| RetryLoop.AttemptsAreCounted | go/pactman/transport.go:77-125 | the reported attempts are the requests started, at most MaxRetries + 1, in every outcome |
| RetryLoop.OutcomesTellTheTruth | go/pactman/transport.go:91-124 | the outcome is the last request's status, or a timeout or failure of it that the caller outlasted, or an abort that the caller caused |
| RetryLoop.GivingUpIsAnAbort | go/pactman/transport.go:163-174 | a caller who gave up during an unanswered last request gets an abort, not a timeout |
| RetryLoop.UncancelledRunEndsAtLeastFinal | go/pactman/transport.go:77-125 | without cancellation the outcome is that of the least attempt that is 2xx, not retryable, or the last |
| RetryLoop.FollowedExactlyWhen | go/pactman/options.go:84-99 | in an uncancelled call a request is followed by another exactly when retries are left and there was no answer, or a status outside 200 to 299 that is listed as retryable and is not 400, 401, 403 or 404 |
| RetryLoop.RetriesAreUsedUp | go/pactman/transport.go:77-125 | a service that answers nothing worth keeping gets MaxRetries + 1 requests |
| RetryLoop.UnavailableThreeTimes | go/pactman/options.go:50-60 | with the default policy a service always unavailable gets three requests |
| RetryLoop.FollowedAttempts | go/pactman/options.go:84-99 | an attempt followed by another was not a success nor 400, 401, 403 or 404, and the context was alive |
| RetryLoop.AtMostOneAttemptAfterTheEnd | go/pactman/transport.go:81-124 | at most one attempt begins once the context has ended, and it is the last |
| RetryLoop.CancelledRunIsAPrefix | go/pactman/transport.go:81-124 | beside any uncancelled call that goes the same before the last attempt, a cancelled call starts a prefix of its requests with the same waits between them |
| RetryLoop.CancellationWithoutEffect | go/pactman/transport.go:81-124 | when every turn goes the same, all waits are the uncancelled call's and the calls are equal unless the context ended before the next throttle was passed |
| RetryLoop.TotalBackoff | go/pactman/transport.go:229-256 | in any call the waits no Retry-After decided sum to between 0 and MaxRetries times MaxDelay and its rounding when no backoff of the policy reaches the limit; and to MaxRetries rounded caps exactly when MaxDelay is below it or there are no retries |
| RetryLoop.WaitsHonourRetryAfter | go/pactman/transport.go:112-121 | after an answer with a respected Retry-After the call waits what it asks for |
| RetryLoop.SleptBackoffIsBounded | go/pactman/transport.go:229-256 | for every accepted policy the backoff a call actually sleeps is at most MaxRetries times MaxDelay and its rounding |
| RetryLoop.EveryBackoffWaitsExactlyWhen | go/pactman/transport.go:229-256 | no call of a policy has a negative backoff exactly when its longest capped backoff is below the limit, or at most at it with jitter, or it has no retries |
| RateScheduler.Throttle.Reserve | go/pactman/transport.go:211-220 | the critical section hands out the later of now and the next free slot, and moves that on by one interval |
| RateScheduler.IntervalIsLargest | go/pactman/transport.go:209 | the interval is the largest whole number of nanoseconds of which the ceiling fits into a second |
| RateScheduler.LatestForcedIsMaximum | go/pactman/transport.go:211-220 | the recurrence is the maximum over earlier readings plus an interval per reservation since |
| RateScheduler.SlotsHaveClosedForm | go/pactman/transport.go:203-227 | in every interleaving the k-th slot is that maximum |
| RateScheduler.SlotsAreSpaced | go/pactman/transport.go:203-227 | slots lie an interval apart for each reservation between them |
| RateScheduler.RateIsLimited | go/pactman/transport.go:203-227 | requests sent by any time number at most floor((time - first slot) / interval) + 1, for the interval the ceiling was truncated to |
| RateScheduler.CeilingIsKeptExactlyWhen | go/pactman/transport.go:203-227 | on every platform every run sends at most limit a second and one more from the first slot on, exactly when the ceiling divides a second into whole nanoseconds that fit into 64 bits |
| RateScheduler.CeilingIsNearlyKept | go/pactman/transport.go:203-227 | for every ceiling up to one a nanosecond every run sends, after the first request, at most limit for every second less limit nanoseconds |
| ConcurrentCalls.StartsAreLimited | go/pactman/transport.go:77-90 | however any number of concurrent calls interleave, retry and give up, the requests they start by any time stay within the allowance of their shared scheduler |
| ConcurrentCalls.StartsNearlyKeepCeiling | go/pactman/transport.go:203-227 | the same of the requests all concurrent calls start |
| ConcurrentCalls.EveryStartHasItsSlot | go/pactman/transport.go:85-91 | every started request has a reservation of the scheduler that was sent, at or after its slot |
| ConcurrentCalls.ReservationsAreBounded | go/pactman/transport.go:80-91 | a call makes at most MaxRetries + 1 reservations and never fewer than its requests, and every reservation is some call's |
| ConcurrentCalls.CallsFollowTheLoop | go/pactman/transport.go:77-125 | each concurrent call that has returned has the outcome and the number of requests of the sending loop run alone |
| Repeats.FirstOccurrencesInOrder | go/pactman/client.go:254-266 | what is left is the subsequence at the positions that show something new |
| Repeats.NothingToDrop | go/pactman/client.go:254-266 | a list is unchanged exactly when it has no repeat |
| Eins.NormalizesExactlyItsSpellings | go/pactman/ein.go:26-32 | an input normalizes to an EIN exactly when, trimmed, it is its nine digits or its hyphenated form |
| Eins.SpellingsAreAccepted | go/pactman/ein.go:26-32 | both spellings are accepted with any whitespace around them |
| Eins.IssueNamesTheFault | go/pactman/ein.go:77-98 | an issue holds the value and its index and says whether it is blank |
| Eins.NormalizationIsIdempotent | go/pactman/ein.go:26-32 | normalizing a normalized EIN gives it back |
| Eins.NormalizeEINs | go/pactman/ein.go:39-68 | a list of valid inputs is normalized pointwise; otherwise the issues are those of exactly the failing positions in increasing order |
| Eins.Dedupe | go/pactman/client.go:254-266 | the seen-map loop keeps first occurrences in order |
| Eins.CheckBulk | go/pactman/client.go:204-239 | a request goes out exactly when context, list, shapes, options and size are right, and which error is returned otherwise |
| Eins.PayloadAsksForTheInput | go/pactman/client.go:213-225 | the payload holds exactly the EINs the inputs spell, each as nine digits |
| Eins.PayloadKeepsPlaces | go/pactman/client.go:213-225 | without de-duplication the payload is the input place by place; with it each EIN is there once, where it came first |
| Eins.ResubmittingSendsTheSame | go/pactman/client.go:213-225 | submitting a payload sends that payload |
| Billing.Cycle.Consume | python/scripts/mock_server.py:46-49 | the counter grows by the count and is returned |
| Billing.Cycle.Refund | python/scripts/mock_server.py:51-54 | the counter shrinks by the count and is returned |
| Billing.Cycle.TakeTransientFailure | python/scripts/mock_server.py:56-64 | the failure budget is spent and then reset |
| Billing.Cycle.HandleSingle | python/scripts/mock_server.py:166-239 | status, charge and failure budget from the EIN and the records; and run alone, what the handler's steps do in the step relation |
| Billing.Cycle.HandleBulk | python/scripts/mock_server.py:241-333 | reply and charge: matched records sorted and once each, missing EINs in order, a check per matched occurrence; and what its steps do in the step relation |
| Billing.BulkReplyMeans | python/scripts/mock_server.py:262-333 | which reply a batch gets: refused above 50, nothing found without a match, and otherwise the matches once each in order with the missing |
| Billing.MissingKeepOrder | python/scripts/mock_server.py:291 | the missing EINs are those at exactly the unmatched positions, in order |
| Billing.MatchesAndMissing | python/scripts/mock_server.py:282-294 | matched and missing occurrences make up the batch, and nothing is found exactly when nothing matches |
| Billing.BulkRepliesAsAWhole | python/scripts/mock_server.py:282-333 | in every state of every interleaving a bulk request that has its reply got the status, count and both lists of the whole request |
| Billing.RequestsAreAnsweredRight | python/scripts/mock_server.py:166-333 | in every state of every interleaving a replied request has the status its EINs call for: a single one 200 exactly for a known EIN and 404 otherwise, the three control EINs theirs, a batch 400, 404 or 200 |
| Billing.StepKeepsBalance | python/scripts/mock_server.py:38-64 | every step of any handler keeps the counter and the failure budget balanced |
| Billing.CounterIsConserved | python/scripts/mock_server.py:282-294 | in every state of every interleaving the counter is the served records plus the full batches not yet refunded, never negative |
| Billing.QuietCounter | python/scripts/mock_server.py:166-333 | with no request open the counter is single successes plus matched occurrences, duplicates included |
| Billing.TwoFailuresPerSuccess | python/scripts/mock_server.py:56-64 | over all threads two failures are handed out for each success |
| Billing.ReportedCount | python/scripts/mock_server.py:294 | a reply reports a count covering its own records, and exactly the records served if nothing else is open |
| RawObjects.ParseObject | go/pactman/object.go:94-141 | the token loop gives the names in first-occurrence order and the values by last occurrence |
| RawObjects.ReadsLastValue | go/pactman/object.go:120-132 | a field reads as the value of its last occurrence |
| RawObjects.LastIsLast | go/pactman/object.go:91-93 | that value is the one no later field with the name follows |
| RawObjects.QueriesTellFieldsApart | go/pactman/object.go:28-50 | Has, IsNull and the names agree with the fields sent; names never repeat |
| Decoding.DecodeDeclared | go/pactman/decode.go:32-52 | each declared field is set to its decoded value, or left as it was |
| Decoding.EinList | go/pactman/decode.go:147-176 | the list or comma-separated string is read entry by entry |
| Decoding.OrganizationTypes | go/pactman/decode.go:181-206 | a null entry stays, an object is decoded, anything else is skipped |
| Decoding.TypesKeepOrder | go/pactman/decode.go:181-206 | the entries read are, in order, those at exactly the positions holding null or an object, nil for null and decoded for an object |
| Decoding.NormalizeAPIErrors | go/pactman/decode.go:210-244 | a list, an object, a string or null becomes a list of details |
| Decoding.FieldIsSetExactlyWhen | go/pactman/decode.go:63-120 | a declared field is set exactly when its last occurrence is a non-null value its type can hold, a number being the double it is read as, if any |
| Decoding.FieldsHoldWhatWasSent | go/pactman/decode.go:63-129 | a declared field that is set holds the value sent: the flag, the whole number, the number, the text, the entries; one that is not keeps its zero value |
| Decoding.AbsentFieldsAreZero | go/pactman/decode.go:32-52 | a field the record does not have keeps its zero value |
| Decoding.StringFieldsAreNeverLost | go/pactman/decode.go:122-129 | a present non-null string field is kept, as the string or as its JSON text |
| Decoding.FieldsAreIndependent | go/pactman/decode.go:32-52 | records that differ only in one field decode alike in every field tagged otherwise |
| Decoding.AtMostOneFieldDiffers | go/pactman/decode.go:32-52 | with distinct tags such records differ in at most the field so tagged, and not at all if none is |
| Decoding.FieldOrderIsIrrelevant | go/pactman/decode.go:32-52 | the order of a record's fields does not change how it decodes |
| Decoding.TypesReadApart | go/pactman/decode.go:181-206 | each deductibility entry is read on its own, in order |
| Decoding.DetailsReadApart | go/pactman/decode.go:233-241 | each error entry is read on its own, in order |
| Decoding.DecodedValueIsSent | go/pactman/decode.go:63-129 | what each type makes of a value it can hold, errors in each of their four shapes included |
| Decoding.NonStringsAreSkippedUnlessNull | go/pactman/decode.go:145-176 | non-string entries are skipped exactly when none is null |
| Decoding.NullEntryIsRead | go/pactman/decode.go:145-176 | an array with a null entry reads as one with an empty string |
| Decoding.JoinedListReadsBack | go/pactman/decode.go:147-159 | a comma-joined list reads back exactly when its entries are non-empty, trimmed and comma-free |
| BulkLookup.ExtractOrganizations | go/pactman/client.go:335-361 | the records under data, listed or wrapped, objects only |
| BulkLookup.NonprofitsReadApart | go/pactman/client.go:353-359 | records are read one by one in order, objects only |
| BulkLookup.NoRecords | go/pactman/client.go:335-352 | no records are read where data is absent or neither a list nor an object |
| BulkLookup.ExtractNotFoundEINs | go/pactman/client.go:375-383 | the EINs of all error details, in order |
| BulkLookup.NotFoundReadsApart | go/pactman/client.go:375-383 | the EINs of several errors come one after the other |
| BulkLookup.ReadBulkResponse | go/pactman/client.go:243-251 | the result a response body is read into |
| BulkLookup.CheckCountReads | go/pactman/client.go:293-300 | the check count read is the one sent up to 2^53; a larger one is dropped unless its double is 2^53, and then read as that |
| BulkLookup.MockAnswers | python/scripts/mock_server.py:315-333 | the mock service's envelope is one the reconciliation covers |
| BulkLookup.BatchIsReconciled | go/pactman/client.go:335-383 | every batch with a match is split into returned and missing EINs, each on exactly one side, in order and with duplicates kept on the missing side: always when the missing ones travel as a list, and as one joined string exactly when each of them is non-empty, trimmed and comma-free |
| BulkLookup.EveryInputIsAccountedFor | go/pactman/client.go:204-252 | from the caller's spellings to the result every input is returned or reported missing, never both, and nothing else is |
| BulkLookup.DedupePaysPerRecord | python/scripts/mock_server.py:282-294 | de-duplicating changes neither what is found nor what is missing and is charged one check per record, never more than without |
| BulkLookup.DedupedChargeIsReturned | python/scripts/mock_server.py:282-294 | with de-duplication the charge is the number of organizations returned, and both sides number the payload |

## Left out

- How a string is classified (`format_of`, `python/scripts/contract.py:143-165`): a JSON string carries its form, and any form has a bar-free token; the regular expressions are not modelled.
- The composition of the expected contract and of the required paths (`python/scripts/contract.py:425-462`, `565-595`): both are arbitrary inputs.
- Dictionary order: signatures are maps, and the differs visit paths in arbitrary order; the results are shown not to depend on it.
- Signatures.BuildSignature: the order of the paths inside the returned dictionary is not captured, because a signature is a map.
- Summaries and formatting of changes, the live smoke run, recording of baselines, fixtures, environment handling and examples.
- The inside of one HTTP request: TLS, body reading and request building are one outcome chosen by the world.
- Parsing of HTTP dates and of decimal numbers in headers: a header arrives as seconds, a date, or unusable.
- Floating-point precision: factors are exact reals and their products do not overflow to infinity; only the rounding of waits is also bounded for doubles.
- Decoding.FieldIsSetExactlyWhen: a number arrives as the double its literal is read as, or as too large for one; how a literal is read is not modelled.
- BulkLookup.CheckCountReads: of the rounding of a count to a double only what holds of it beyond 2^53 is used.
- RetryPolicies.RoundingLimit: stated in exact arithmetic; RetryPolicies.RoundingLimitInDoubles bounds the difference.
- RetryPolicies.RetryAfterIsHonoured: stated in exact arithmetic, like the limit it rests on.
- RetryPolicies.ServerSecondsAreWaited: stated in exact arithmetic; RetryPolicies.ServerSecondsInDoubles bounds the difference.
- RateScheduler.Interval: the quotient is exact, not rounded to a double; a ceiling above one request per nanosecond gives an interval of 0, as in the code.
- ConcurrentCalls.StartsAreLimited: a call may give up while it holds a slot even where the code would not have to sleep for it, and the end of its context is not tied to the scheduler's clock; both only add runs.
- RateScheduler.Throttle.Reserve: times are nanoseconds from the zero time, which comes before every clock reading.
- Base URL, header merging, user agent, key redaction and client construction; a call starts from client settings that are valid.
- Message texts, request identifiers and error bodies.
- Billing.Cycle.HandleBulk: batch entries are strings; a JSON batch with other entries is not modelled, and a body that is not a list is one request that is refused.
- Billing.ReportedCount: the count in an error reply is read without the lock and is one step of its handler.
- Raw text of parsed objects and the JSON grammar itself: values arrive parsed, with their source text only where the decoder can ask for it; exact re-marshalling is copying.
- Go reflection and struct tags: a model is an explicit list of wire names and types.
- The single check's result and the accessors over a record (`sources.go`), which only copy fields.
- The Node.js package, which repeats the Go algorithms with small differences.
