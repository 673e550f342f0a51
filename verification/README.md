# Verified model of the security and text layers

This project models, in Dafny 4.11, the parts of the agent runtime that scrub
secrets, pair clients, chain audit entries, track trust, strip reasoning text,
store permissions and secrets, and scope tenants. `dafny verify dfyconfig.toml`
checks all of it.

| file | what it models |
|---|---|
| `Strings.dfy` | substring search, trimming and ASCII helpers |
| `ScrubPatterns.dfy`, `Scrub.dfy`, `ScrubPipeline.dfy`, `ScrubTokens.dfy`, `ScrubTwice.dfy`, `ScrubLoops.dfy` | the secret scrubber: tables, one pass, all passes, what becomes of a token, conditions for idempotence, the in-place loops |
| `Pairing.dfy`, `PairingGuard.dfy`, `PairingCode.dfy`, `PairingStart.dfy` | the pairing guard call by call, as an object with its file, its code generator, and the guard from its construction on |
| `PairingThreads.dfy`, `PairingRate.dfy`, `PairingFile.dfy` | the same guard as lock steps of any number of threads: safety, the brute-force limit, the token file |
| `AuditChain.dfy` | the audit hash chain |
| `DomainTrust.dfy`, `AffectGovernance.dfy` | trust scores and autonomy, and the distress bridge that lowers them |
| `StripReasoning.dfy`, `StripTwice.dfy`, `Sanitizers.dfy` | the text scanners, and what a second strip may still find |
| `Base64.dfy`, `Secrets.dfy` | the codecs and the secret store |
| `Permissions.dfy`, `Tenant.dfy` | permission grants and tenant scopes |

Conventions. Code that changes an object in place is a class whose methods are
proved against a function on values (`PassFrom`, `Next`, `Scan`, ...); the
properties are lemmas about that function and about all its runs. Clocks, random
values and the success of a file write are parameters of the call that uses
them. Hashes, the AEAD cipher, key derivation, UTF-8 decoding and the decay
factor are function parameters, and each lemma states what it assumes of them.
Texts are sequences of Unicode scalar values; every pattern, tag and delimiter
is ASCII, so positions in characters and in bytes select the same cuts.

Where the code differs from its own text, the model follows the code:

- The comment at src/security/pairing.rs:155-156 gives the lock order as
  attempts before code. The code takes the attempts lock while it holds the code
  lock; the order that rules out deadlock is code, attempts, tokens.
- The tests at src/security/scrub.rs:334-343 ask for idempotence on every text.
  It holds exactly under the condition of `ScrubPipeline.ScrubTwice`.
- The comments at src/security/domain_trust.rs:40-41 speak of a score that exceeds
  the promotion threshold; a score that equals it promotes too.
- At an age equal to the ttl the read path and the write path of a token check
  decide differently; `Pairing.AcceptedIff` says when, `Pairing.PathsDifferAtTtl`
  gives two guards.
- The comment at src/security/merkle.rs:1 calls the audit log tamper-proof. The
  hashed text joins the fields with '|' and does not escape it, so an entry that
  holds a '|' in its timestamp, type or payload can be altered unnoticed.
  `AuditChains.TamperEvidentIff` gives the exact condition.
- A snapshot of the token map is written to its file after the lock on the map is
  released (src/security/pairing.rs:115-132), so a revoked token can come back
  after a restart: `PairingFiles.RevokedTokenComesBack`. `PairingFiles.UndisturbedIff`
  says when the saves of a run cannot go wrong.
- The comment at src/utils/text.rs:204-205 says that tag content is removed. A block
  between the two parts of another tag leaves that tag in the output:
  `StripsTwice.StripTwiceCanDiffer`; `StripsTwice.BlockLeavesNoTagIff` says when
  it does not.

## Model

| member | source | states |
|---|---|---|
| Scrub.SecretRunEnd | src/security/scrub.rs:14-24 | the end of the longest run of ASCII letters, digits and "-_.:+/=" from a position |
| ScrubPipeline.BlockEndIff | src/security/scrub.rs:57-84 | behind a begin marker a block is found exactly if a kind, five dashes, a body without the end line of that kind, and that end line follow |
| ScrubPipeline.BlockEndIs | src/security/scrub.rs:57-84 | such a block ends behind its first end line and one line break |
| Scrub.OccursBeforeSplice | src/security/scrub.rs:40 | replacing a span by a redaction mark makes no new occurrence of a pattern |
| Scrub.HotBeforeSplice | src/security/scrub.rs:40 | nor does it put a secret character behind an occurrence that had none |
| Scrub.PassKeepsClean | src/security/scrub.rs:26-92 | any marker pass and the PEM pass keep, for every other pattern, that no occurrence is followed by a secret character |
| Scrub.PassKeepsAbsent | src/security/scrub.rs:26-92 | no pass makes a pattern appear that the text does not hold |
| Scrub.OverlapNotFound | src/security/scrub.rs:34-38 | skipping a bare marker skips no overlapping occurrence of the same marker |
| Scrub.MarkerEstablishesClean | src/security/scrub.rs:26-46 | a marker pass leaves no occurrence of its own pattern that a secret character follows |
| Scrub.MarkerLeavesClean | src/security/scrub.rs:26-46 | a pass leaves a text without such occurrences as it is |
| Scrub.PassShift | src/security/scrub.rs:28-43 | from a search position on, a loop reads and changes only the text from there |
| Scrub.MarkerLine | src/security/scrub.rs:26-46 | a marker pass on two lines is the pass on each of them |
| ScrubPatterns.TablesAreSafe | src/security/scrub.rs:94-144 | each of the 45 marker patterns overlaps no redaction mark and overlaps itself only in front of a secret character |
| ScrubPipeline.NoTokenSurvives | src/security/scrub.rs:158-180 | after a scrub every occurrence of any of the 45 marker patterns ends the text or is followed by a non-secret character, for every input |
| ScrubTokens.PatternsListed | src/security/scrub.rs:94-144 | the tables hold exactly the 22 prefixes and 23 markers, named one by one |
| ScrubTokens.NoTokenIsLeft | src/security/scrub.rs:10-12 | for every input, behind each of those patterns in the result stands no ASCII letter, no digit and none of "-_.:+/=" |
| ScrubTokens.TokenIsRedacted | src/security/scrub.rs:10-46 | a token behind a pattern becomes one mark together with it, up to the first other character, and the text on both sides stays; without a begin marker that is the whole result |
| ScrubTokens.HeaderIsKept | src/security/scrub.rs:164-175 | a prefix token behind a header or field name goes without it, because prefixes are scrubbed first |
| ScrubPipeline.ShortcutIsExact | src/security/scrub.rs:146-162 | the shortcut for texts without a pattern returns what the whole pipeline would |
| ScrubPipeline.MarkerPassesWorkByLine | src/security/scrub.rs:164-175 | the 45 marker passes together scrub line by line |
| ScrubPipeline.CompleteBlockIsRedacted | src/security/scrub.rs:48-92 | a complete PEM block goes as a whole with one "\r\n" or "\n" after it, and the rest is treated as if it stood alone |
| ScrubPipeline.PemPassTwice | src/security/scrub.rs:48-92 | the texts on which the PEM pass is idempotent, exactly |
| ScrubPipeline.ScrubTwice | src/security/scrub.rs:334-343 | a second scrub changes nothing if and only if no skipped begin marker starts a complete block once the text after it is scrubbed |
| ScrubPipeline.ScrubTwiceCanDiffer | src/security/scrub.rs:334-343 | a concrete text that a second scrub changes |
| ScrubPipeline.ScrubWithoutPem | src/security/scrub.rs:158-180 | for every input without a begin marker scrubbing is idempotent |
| ScrubsTwice.ScrubTwiceWithOneMarker | src/security/scrub.rs:158-180 | so it is for every input with at most one begin marker, whatever else it holds |
| ScrubsTwice.ScrubTwiceWithoutEnd | src/security/scrub.rs:158-180 | and for every input without an end line |
| ScrubsTwice.ScrubTwiceUnlessMarkNamed | src/security/scrub.rs:158-180 | in general a second scrub changes a text only if an end line of the once-scrubbed text names the redaction mark |
| ScrubLoops.TokenEnd | src/security/scrub.rs:14-24 | the loop returns the end of the run |
| ScrubLoops.TextBuffer.ScrubAfterMarker | src/security/scrub.rs:26-46 | the in-place loop leaves what the pass specification says; for a marker that does not start with '[' it reports a change exactly when the text changed |
| ScrubLoops.FindBlockEnd | src/security/scrub.rs:59-84 | the three reasons to skip a begin marker, and the end of the span otherwise |
| ScrubLoops.TextBuffer.ScrubPemBlocks | src/security/scrub.rs:48-92 | the in-place PEM loop leaves what the pass specification says, and reports a change exactly when the text changed |
| ScrubLoops.TextBuffer.ScrubPrefixes | src/security/scrub.rs:166-171 | the loop over the prefix table, PEM begin marker left out |
| ScrubLoops.TextBuffer.ScrubMarkers | src/security/scrub.rs:173-175 | the loop over the marker table |
| ScrubLoops.ScrubSecrets | src/security/scrub.rs:159-180 | both branches of the entry point return the fully scrubbed text |
| Pairing.OutcomeIff | src/security/pairing.rs:158-208 | a call is locked out exactly while the last of five failures is less than 300 seconds old, then says 300 minus the whole seconds since and changes nothing; otherwise it pairs exactly if it submits the code, up to white space around it |
| Pairing.RunKeepsValidAttempts | src/security/pairing.rs:154-223 | in every sequential run the counter is at most five and the lock time is set exactly at five |
| Pairing.StepCostsBudget | src/security/pairing.rs:154-223 | each rejection uses one unit of the budget left in the lockout windows, a pairing adds at most five |
| Pairing.RejectionRate | src/security/pairing.rs:158-222 | from any reachable state at most 5(T/300 + 1) wrong codes are looked at in T seconds, five more per pairing |
| Pairing.PairsAtMostOnce | src/security/pairing.rs:204-207 | a guard hands out at most one token in its life, and none without a code |
| Pairing.PairedTokenIsAccepted | src/security/pairing.rs:195-274 | the returned token is accepted throughout its lifetime, through any calls but a revocation, and the other stored tokens keep theirs |
| Pairing.RevokedStaysRejected | src/security/pairing.rs:313-321 | after a revocation no token is accepted, in any run, before a pairing stores its hash |
| Pairing.AcceptedIff | src/security/pairing.rs:238-274 | exactly which tokens are accepted: younger than the ttl, or of that very age while no stored token is older |
| Pairing.PrunedIff | src/security/pairing.rs:260-310 | a call that drops tokens keeps exactly those younger than the ttl, with their times |
| Pairing.PathsDifferAtTtl | src/security/pairing.rs:245-273 | at age ttl, with the same token and clock, a guard that stores an older hash besides refuses what one without it accepts |
| Pairing.RejectedIsGone | src/security/pairing.rs:260-273 | a call no longer stores a token it rejects |
| Pairing.RejectedStaysRejected | src/security/pairing.rs:238-330 | after that the token is rejected under any clock until a pairing stores its hash |
| Pairing.SeedMeaning | src/security/pairing.rs:93-95 | configured hashes join with the current time, loaded ones keep theirs |
| Pairing.NewGuardRejectionRate | src/security/pairing.rs:74-222 | from a guard just built at most 5(T/300 + 2) wrong codes are looked at in T seconds |
| Pairing.RunKeepsSync | src/security/pairing.rs:115-132 | with every write done, the file holds the token map after every call of a sequential run |
| Pairing.FailedWriteKeepsFile | src/security/pairing.rs:115-132 | whatever the call, a write that fails leaves the file as it was |
| Pairing.RestartAccepts | src/security/pairing.rs:339-360 | a restart accepts exactly the stored hashes of 32 bytes in hex still younger than its ttl |
| Pairing.RestartIssuesCode | src/security/pairing.rs:97-102 | it issues a code if and only if pairing is required and no such hash is left |
| PairingStarts.StartTokensIff | src/security/pairing.rs:80-96 | a guard starts with the hashes its file holds while they are younger than the ttl, at their own time, and the configured ones it does not hold, at the current time; no others |
| PairingStarts.DrawnCodePairsIff | src/security/pairing.rs:97-207 | a guard that requires pairing and starts without a token pairs, after any run without a pairing, exactly with the code that was drawn for it, up to white space, while it is not locked out |
| PairingStarts.NoCodeNoPairing | src/security/pairing.rs:97-102 | a guard that starts with a token, or does not require pairing, never pairs |
| PairingStarts.DifferentDrawsDifferentCodes | src/security/pairing.rs:411-432 | no submission pairs with two guards whose codes come from different draws |
| PairingStarts.FifthWrongCodeLocks | src/security/pairing.rs:158-220 | up to four wrong codes lock nobody out; after the fifth every call is, whatever it submits, for 300 seconds |
| PairingStarts.PairedTokenSurvivesRestart | src/security/pairing.rs:195-360 | a token handed out is accepted after any calls but a revocation and a restart on the same file, within its lifetime there |
| PairingGuards.ConstantTimeEq | src/security/pairing.rs:452-465 | the accumulating loop decides equality of the two byte strings |
| PairingGuards.PairingGuard.constructor | src/security/pairing.rs:74-113 | the new object and its file are those of the specification |
| PairingGuards.PairingGuard.PersistTokens | src/security/pairing.rs:115-132 | writes the map, or leaves the old file when the write fails |
| PairingGuards.PairingGuard.TryPair | src/security/pairing.rs:154-223 | new state, file and result of a pairing attempt |
| PairingGuards.PairingGuard.IsAcceptedToken | src/security/pairing.rs:238-274 | new state, file and answer of a token check |
| PairingGuards.PairingGuard.IsAuthenticated | src/security/pairing.rs:226-231 | without required pairing every token passes and nothing changes |
| PairingGuards.PairingGuard.IsPaired | src/security/pairing.rs:277-292 | whether a token younger than the ttl is stored, and the pruned state |
| PairingGuards.PairingGuard.Tokens | src/security/pairing.rs:295-310 | exactly the hashes younger than the ttl, and the pruned state |
| PairingGuards.PairingGuard.RevokeAll | src/security/pairing.rs:313-321 | the empty map, saved |
| PairingCode.GenerateCode | src/security/pairing.rs:411-432 | the first draw below the threshold becomes the code |
| PairingCode.SixDigitsInjective | src/security/pairing.rs:429 | different numbers give different six-digit codes |
| PairingCode.SixDigitsRead | src/security/pairing.rs:429 | a code is its number in six decimal digits, zeros in front |
| PairingCode.CodesAreUniform | src/security/pairing.rs:416-421 | every code comes from exactly 4294 accepted draws |
| PairingThreads.AtMostOneToken | src/security/pairing.rs:154-223 | in every interleaving of any number of threads at most one try_pair returns a token |
| PairingThreads.CounterStaysBounded | src/security/pairing.rs:158-220 | in every interleaving the counter is at most four plus the number of threads, and the lock time is set exactly from five on |
| PairingThreads.RunKeepsInv | src/security/pairing.rs:154-274 | every interleaving keeps the locks exclusive and the code in place while a pairing is under way |
| PairingThreads.FieldsAreExclusive | src/security/pairing.rs:154-321 | in no interleaving are two threads at the counter or at the code at once, or one at the map that another changes |
| PairingThreads.NoDeadlock | src/security/pairing.rs:154-274 | while a call is under way some thread can move |
| PairingThreads.AllCallsCanFinish | src/security/pairing.rs:154-321 | from every state all calls can be run to their end within the sum of their ranks |
| PairingThreads.TryPairAlone | src/security/pairing.rs:154-223 | a pairing attempt without interference is the sequential call |
| PairingThreads.CheckAlone | src/security/pairing.rs:238-274 | so is a token check |
| PairingThreads.ListAlone | src/security/pairing.rs:295-310 | so is a listing, which returns exactly the hashes younger than the ttl |
| PairingThreads.RevokeAlone | src/security/pairing.rs:313-321 | so is a revocation |
| PairingThreads.CallAlone | src/security/pairing.rs:154-321 | any call that no other thread disturbs, from its first step to its last, is the sequential call |
| PairingThreads.DecisionIsSound | src/security/pairing.rs:245-273 | on either lock path and whatever else is stored: accepted means stored with age at most the ttl, and stored and younger is never refused |
| PairingThreads.RejectedStaysRejected | src/security/pairing.rs:245-273 | once a check has decided no, in every interleaving and under any clocks no check decides yes for that token before a pairing stores its hash |
| PairingThreads.StoredStaysAccepted | src/security/pairing.rs:245-273 | in every interleaving without a revocation no check decides no for a stored token while the clock readings that prune or decide make it younger than the ttl |
| PairingRates.StepUsesPeriods | src/security/pairing.rs:158-220 | each step either raises the counter with every rejection, or lowers it and uses up one expired lockout or the pairing |
| PairingRates.RejectionRate | src/security/pairing.rs:158-222 | in every interleaving n threads look at no more than (4 + n)(T/300 + 2) wrong codes in T seconds |
| PairingFiles.RunKeepsFileFollows | src/security/pairing.rs:115-132 | while no change of the map overtakes a snapshot on its way to the file, snapshots and file follow the map |
| PairingFiles.FileIsMapAtRest | src/security/pairing.rs:115-132 | then the file holds the map whenever no save is under way |
| PairingFiles.FreshIff | src/security/pairing.rs:115-132 | while nobody holds the write lock, the saves under way leave the map in the file, in whatever order they end, exactly if every waiting snapshot is the map and either the file is too or some save is to come |
| PairingFiles.OvertakenIsStale | src/security/pairing.rs:115-132 | a change of the map that overtakes a snapshot always leaves saves that may end with a stale file |
| PairingFiles.UndisturbedIff | src/security/pairing.rs:115-132 | with every write done, no change overtakes a snapshot in a run if and only if at each of its points the saves under way leave the map in the file in whatever order they end |
| PairingFiles.RevokedTokenComesBack | src/security/pairing.rs:115-132 | a listing's snapshot written after a completed revocation leaves the revoked hash in the file, and a restart accepts its token |
| PairingFiles.RevokeWritesLast | src/security/pairing.rs:115-132 | with the two writes in the other order the same calls end with the map in the file, so one run that overtakes a snapshot may end well |
| AuditChains.PreimageDeterminesFields | src/security/merkle.rs:49-61 | entries with the same hashed text agree in every field exactly if their timestamps, types and payloads hold equally many delimiters |
| AuditChains.DecimalRead | src/security/merkle.rs:49-61 | the sequence number is written in decimal digits without leading zeros |
| AuditChains.PlainTextHasOneReading | src/security/merkle.rs:49-61 | the hashed text of an entry without any delimiter is that of no other fields |
| AuditChains.DelimiterIsAmbiguous | src/security/merkle.rs:49-61 | any delimiter in a field gives another entry with the same hashed text, and with the same link unless the link holds it |
| AuditChains.OneReadingIff | src/security/merkle.rs:49-61 | so exactly the entries without delimiters are told apart from all others by their hashed text |
| AuditChains.AuditChain.constructor | src/security/merkle.rs:79-84 | an empty chain starts at the genesis hash and sequence 0 |
| AuditChains.AuditChain.Append | src/security/merkle.rs:87-105 | the entry returned heads every history that goes on from here |
| AuditChains.Verify | src/security/merkle.rs:117-149 | accepts exactly the linked sequences with right hashes; otherwise reports the first wrong entry, its hash before its link |
| AuditChains.AppendedIsLinked | src/security/merkle.rs:87-105 | appended entries carry running numbers, their own hash and the hash before them |
| AuditChains.HistoryStarts | src/security/merkle.rs:63-80 | a chain starts at sequence 0 with a previous hash of 64 zeros |
| AuditChains.HistoryVerifies | src/security/merkle.rs:117-149 | every non-empty stretch of an honest chain verifies |
| AuditChains.AgreeBackwards | src/security/merkle.rs:117-149 | two verifying sequences with a common last hash, whatever they hold, have the same hashed texts from the end back to the genesis entry |
| AuditChains.VerifiedHasTextsOfSuffix | src/security/merkle.rs:117-149 | a sequence that verifies and ends in the last hash of an honest chain has the hashed texts of a suffix of it |
| AuditChains.VerifiedIsSuffix | src/security/merkle.rs:1-4 | it is a suffix exactly if its timestamps, types and payloads hold as many delimiters as the recorded ones; so it is when only payloads hold any |
| AuditChains.TamperedPasses | src/security/merkle.rs:117-149 | if any recorded timestamp, event type or payload holds a delimiter, some altered sequence of the same length verifies and ends in the last hash |
| AuditChains.TamperEvidentIff | src/security/merkle.rs:1-4 | tamper evidence, exactly: only suffixes of an honest chain verify and end in its last hash if and only if no recorded timestamp, event type or payload holds a delimiter |
| DomainTrusts.DomainTrustTracker.GetTrust | src/security/domain_trust.rs:131-141 | creates a missing entry, applies decay and returns the stored entry |
| DomainTrusts.DomainTrustTracker.RecordSuccess | src/security/domain_trust.rs:150-163 | decay, boost capped at 1, count, time stamp, promotion |
| DomainTrusts.DomainTrustTracker.RecordViolation | src/security/domain_trust.rs:177-190 | decay, penalty floored at 0, count, time stamp, demotion |
| DomainTrusts.DomainTrustTracker.AllDomains | src/security/domain_trust.rs:194-203 | decays every entry exactly once, in any order |
| DomainTrusts.RunKeepsEarned | src/security/domain_trust.rs:150-267 | every run keeps the score within 0 and 1 and within what has been recorded |
| DomainTrusts.FullAutonomyIsEarned | src/security/domain_trust.rs:150-267 | from an empty tracker: -penalty*violations <= score - 0.5 <= boost*successes, and full autonomy means enough interactions and boost*successes >= threshold - 0.5 |
| DomainTrusts.RunIsPaid | src/security/domain_trust.rs:131-267 | over every run and under any clock autonomy rises by no more levels than successes are recorded and falls by no more than violations are; with a threshold at or below zero it does not fall |
| DomainTrusts.HalfLifeHalvesGap | src/security/domain_trust.rs:28-31 | n half-lives halve the gap to neutral n times, and between two of them it lies between the two |
| DomainTrusts.RepeatedAtOneInstant | src/security/domain_trust.rs:33-38 | at one instant k successes add k boosts up to 1 to what decay has left, k violations take k penalties down to 0, and each is counted |
| DomainTrusts.LevelsAtOneInstant | src/security/domain_trust.rs:232-267 | each of these successes that reaches the promotion score and count lifts autonomy by one level up to full, each violation that leaves a score below the demotion threshold lowers it by one down to read-only |
| DomainTrusts.DecayComposes | src/security/domain_trust.rs:213-230 | decay over two stretches of time is decay over their sum |
| DomainTrusts.ObservationIsNeutral | src/security/domain_trust.rs:131-203 | under a monotone clock, dropping all reads from a run changes no score, autonomy, count or time that a later read of a domain returns |
| DomainTrusts.ListedIff | src/security/domain_trust.rs:131-203 | a domain is listed after a run exactly if it was before or a call of the run names it, a mere read too |
| DomainTrusts.NewDomainIsNeutral | src/security/domain_trust.rs:62-74 | a domain that no call of a run has named reads as 0.5, supervised, nothing recorded |
| DomainTrusts.ReadDecays | src/security/domain_trust.rs:131-141 | a read moves the score of a known domain to the present by the decay of the time that has passed, and changes nothing else |
| DomainTrusts.ListingShowsReads | src/security/domain_trust.rs:194-203 | a listing shows of each domain what a read of it would |
| DomainTrusts.ViolationsReachReadOnly | src/security/domain_trust.rs:177-267 | if k penalties exceed 1 - threshold, k + 1 violations at one instant lead any reachable domain to read-only |
| DomainTrusts.ScoreBelowCeiling | src/security/domain_trust.rs:177-230 | k violations spread over a window leave a score of at most max(1 - k*penalty*f, 0.5 - 0.5*f), f being the part of a gap that decay leaves over the window |
| DomainTrusts.ViolationsInWindowReachReadOnly | src/security/domain_trust.rs:177-267 | if that is below the threshold, k + 1 violations in the window lead any reachable domain to read-only, and more keep it there |
| DomainTrusts.ElevenInAHalfLife | src/security/domain_trust.rs:92-103 | with the default penalty and threshold eleven violations within one half-life do |
| AffectGovernance.ComputeDistressScore | src/security/affect_governance.rs:185-198 | the nested loops compute the clamped weighted sum over unsuppressed activations |
| AffectGovernance.DistressOfOne | src/security/affect_governance.rs:28-36 | one activation that is not suppressed scores its intensity times 0.35 for anxiety, 0.30 for anger, 0.15 for guardedness, 0.10 for shame and emptiness, and 0 for any other node |
| AffectGovernance.DistressIgnoresSuppressed | src/security/affect_governance.rs:187-190 | the score is that of the activations that are not suppressed |
| AffectGovernance.NoOpenDistressScoresZero | src/security/affect_governance.rs:185-198 | without one of the five nodes unsuppressed the score is 0 |
| AffectGovernance.DistressOfParts | src/security/affect_governance.rs:185-198 | the score of two parts is the sum of their scores |
| AffectGovernance.DistressIgnoresOrder | src/security/affect_governance.rs:185-198 | any reordering of the activations has the same score |
| AffectGovernance.SaturatedScoresOne | src/security/affect_governance.rs:28-36 | the weights sum to one: full distress scores exactly 1 |
| AffectGovernance.AffectGovernanceBridge.Evaluate | src/security/affect_governance.rs:105-138 | score, counter and violations of one turn |
| AffectGovernance.StreaksDecide | src/security/affect_governance.rs:113-131 | the counter is the running streak modulo n, and the firings are the quotients by n summed over all maximal streaks |
| AffectGovernance.EveryTurnFires | src/security/affect_governance.rs:120-131 | with no turns required every turn fires |
| AffectGovernance.SingleDistressIsHighIff | src/security/affect_governance.rs:105-118 | a turn with one open distress is high exactly if intensity times weight reaches the threshold |
| AffectGovernance.SuppressedNeverFires | src/security/affect_governance.rs:105-138 | turns with suppressed distress only, however many, leave the counter at 0 and every domain as it was |
| AffectGovernance.RunOfEvaluations | src/security/affect_governance.rs:105-138 | evaluating turn by turn keeps the counter of the streaks, and each domain goes through the violations of its strike times and no others |
| AffectGovernance.ViolationsPerStreak | src/security/affect_governance.rs:105-138 | over any run of evaluations each listed domain receives one violation per n high turns of each streak, per listing |
| AffectGovernance.DistressLeadsToReadOnly | src/security/affect_governance.rs:99-138 | when the streaks of a run within a window bring more than k violations to a listed domain and k of them use up the range above the threshold, the domain ends read-only |
| StripReasoning.StripReasoning | src/utils/text.rs:207-275 | the four-variable loop ends and writes what the token specification says |
| StripReasoning.ScanSplit | src/utils/text.rs:219-272 | where no token crosses a cut, scanning both parts in turn is scanning the whole |
| StripReasoning.BlockVanishes | src/utils/text.rs:204-275 | a balanced block outside code, its tags in any letter case, with nested blocks, code spans and fences in it, vanishes between any two texts |
| StripReasoning.PlainBlockVanishes | src/utils/text.rs:204-275 | in particular between and around texts without code or other tags |
| StripReasoning.OpenTagIff | src/utils/text.rs:241-250 | an opening tag is "<think>" or "<reasoning>" in any letter case, and nothing else |
| StripReasoning.CloseTagIff | src/utils/text.rs:252-262 | a closing tag is "</think>" or "</reasoning>" in any letter case, and nothing else |
| StripReasoning.UnclosedBlockHidesTheRest | src/utils/text.rs:523-526 | an unclosed block hides the rest |
| StripReasoning.OpenBlockHidesTheRest | src/utils/text.rs:204-275 | so does any text along which the depth does not come back to 0, with more unclosed blocks or loose code in it |
| StripReasoning.NoCloseStaysInside | src/utils/text.rs:252-262 | a text without closing tags is such a text |
| StripReasoning.UnpairedTickHidesTheRest | src/utils/text.rs:231-238 | so does a backtick without a partner inside a block, closing tags after it included |
| StripReasoning.NoTagsNoChange | src/utils/text.rs:204-275 | a text without tags is returned unchanged, code or not |
| StripReasoning.FencedCodeIsKept | src/utils/text.rs:517-520 | a fenced block is kept with the tags and shorter runs of backticks in it |
| StripReasoning.InlineCodeIsKept | src/utils/text.rs:231-238 | so is an inline code span |
| StripReasoning.StrayCloseTagVanishes | src/utils/text.rs:252-262 | a closing tag without an opening one vanishes by itself |
| StripsTwice.StripTwiceIff | src/utils/text.rs:204-275 | a second strip changes nothing exactly if the first left no tag outside code |
| StripsTwice.StripTwiceCanDiffer | src/utils/text.rs:204-275 | a block between the two parts of a tag leaves that tag, and a second strip hides what follows it |
| StripsTwice.JoinIff | src/utils/text.rs:204-275 | outside code, and with no run of backticks cut, a joined text has no tags exactly if its parts have none and none goes over the seam |
| StripsTwice.BlockLeavesNoTagIff | src/utils/text.rs:204-275 | taking a block out leaves a text that a second strip does not change exactly if the texts kept on its sides are such and no tag forms across the gap |
| StripsTwice.StripTwiceWithTagsOnly | src/utils/text.rs:204-275 | a text without code in which every '<' starts a tag is stripped for good at once |
| Sanitizers.SanitizePromptLine | src/utils/text.rs:35-48 | the loop over double spaces ends, and its result is the one-pass collapse, trimmed |
| Sanitizers.PromptLineIsNormal | src/utils/text.rs:33-48 | the result is trimmed, one line, without control characters or two spaces in a row |
| Sanitizers.PromptLineTwice | src/utils/text.rs:35-48 | sanitizing twice is sanitizing once |
| Sanitizers.NormalLineIsFixed | src/utils/text.rs:35-48 | a line already in that form is left as it is |
| Sanitizers.PromptLineKeepsVisible | src/utils/text.rs:35-48 | no character other than white space and controls is lost or moved |
| Sanitizers.GapBecomesSpace | src/utils/text.rs:35-48 | any run of spaces and control characters between two words becomes one space |
| Sanitizers.SanitizeSlug | src/utils/text.rs:56-85 | the slug is the lower-case maximal alphanumeric runs joined by single hyphens, or the fallback when there are none |
| Sanitizers.OneWord | src/utils/text.rs:60-66 | a text of ASCII letters and digits is one run, written in small letters |
| Sanitizers.WordsAcross | src/utils/text.rs:60-66 | any other character parts the runs before it from those behind it |
| Sanitizers.DashedForm | src/utils/text.rs:60-77 | the loop writes the joined words with at most one dash on each side |
| Sanitizers.FloorCharBoundary | src/utils/text.rs:89-100 | the greatest character boundary at or before the index |
| Sanitizers.BoundaryIff | src/utils/text.rs:89-100 | a boundary is an end of the text or a byte outside 0x80 to 0xBF |
| Base64.EncodeBase64 | src/utils/encoding.rs:5-27 | the chunk loop writes the encoding |
| Base64.AlphabetIs | src/utils/encoding.rs:5-27 | the 64 characters in their order |
| Base64.DecodeEncoded | src/utils/encoding.rs:5-27 | a decoder written from section 4 of RFC 4648 inverts the encoder on every byte sequence |
| Base64.EncodedDecoded | src/utils/encoding.rs:5-27 | what that decoder accepts is exactly what the encoder writes |
| Base64.EncodedLength | src/utils/encoding.rs:7 | the output has four characters per started group of three bytes |
| Base64.PaddingFollowsLength | src/utils/encoding.rs:15-24 | padding as in section 3.2 of RFC 4648: one or two pad characters at the end for two or one bytes over, and nowhere else |
| Secrets.HexRoundTrip | src/security/secrets.rs:298-316 | hex decoding inverts hex encoding |
| Secrets.HexEncodedAt | src/security/secrets.rs:298-300 | two small hex digits per byte, the high half first |
| Secrets.HexDecodedIff | src/security/secrets.rs:314-316 | a text decodes to the bytes whose hex it is, in small or capital letters, and to nothing otherwise |
| Secrets.SecretStore.LoadOrCreate | src/security/secrets.rs:204-286 | reads the key file or creates it, with the outcome of each failure |
| Secrets.SecretStore.EncryptSecret | src/security/secrets.rs:44-69 | result and key file after an encryption |
| Secrets.SecretStore.DecryptSecret | src/security/secrets.rs:85-122 | result and key file after a decryption |
| Secrets.KeyFileIsStable | src/security/secrets.rs:204-286 | once the key file exists no call of any store changes it |
| Secrets.EncryptThenDecrypt | src/security/secrets.rs:44-122 | what an enabled store encrypts any store on the same path decrypts, the empty secret too, whatever calls come between |
| Secrets.StoredSecretOpens | src/security/secrets.rs:99-122 | what is stored is "enc2:" and the hex of a 12-byte nonce and the ciphertext, opened with the 32-byte key in the key file |
| Secrets.OpenedIff | src/security/secrets.rs:111-122 | a ciphertext gives a text exactly if the cipher accepts it and the plaintext is UTF-8 |
| Secrets.KeyIsReadBack | src/security/secrets.rs:204-286 | a new key is written in hex, and read back with white space around it |
| Secrets.EncryptOutcome | src/security/secrets.rs:44-286 | an enabled store encrypts exactly if the key file holds the hex of 32 bytes or is missing and can be created; each failure, and the file after it |
| Secrets.DecryptNeedsKey | src/security/secrets.rs:99-122 | a decryption fails on the key file, and creates it, exactly as an encryption would |
| Secrets.StoredRefusedIff | src/security/secrets.rs:99-107 | what follows the marker is refused, before the key is looked for, exactly if it is no hex or the hex of 12 bytes or fewer |
| Secrets.PlainPassesThrough | src/security/secrets.rs:49-95 | what a disabled store returns is read back as it is exactly if it carries no format marker; with one it is an error unless it reads as a ciphertext |
| Secrets.PasswordRoundTrip | src/security/secrets.rs:131-192 | the salt, nonce and ciphertext framing opens under the same password; the empty secret gets no framing and is refused |
| Secrets.PasswordSecretOpens | src/security/secrets.rs:158-192 | what is stored is "enc3:" and the hex of a 16-byte salt, a 12-byte nonce and the ciphertext |
| Secrets.PasswordRefusedIff | src/security/secrets.rs:158-192 | without the marker it is no password secret; behind it, no hex or the hex of 28 bytes or fewer is refused |
| Permissions.RecordRoundTrip | src/security/permissions.rs:227-236 | reading back the record of a grant gives that grant and subject; the record is permanent and names the entity and the time |
| Permissions.PatternMeaning | src/security/permissions.rs:319-344 | a pattern covers a value exactly if it is a lone star, equals it, or ends in a star behind a word boundary and the rest is a prefix |
| Permissions.PermissionStore.constructor | src/security/permissions.rs:97-148 | loading keeps the records and the grants they stand for |
| Permissions.PermissionStore.SetEntityAllowlist | src/security/permissions.rs:151-165 | sets or clears one allowlist |
| Permissions.PermissionStore.AddGrant | src/security/permissions.rs:171-261 | new state and error of an added grant |
| Permissions.PermissionStore.IsGranted | src/security/permissions.rs:265-296 | whether a session or permanent grant covers the call |
| Permissions.SubjectsAgreeIff | src/security/permissions.rs:47-76 | two callers are the same exactly if entity, tenant mode and tenant id agree, up to white space, a blank tenant id counting as none |
| Permissions.RefusalIs | src/security/permissions.rs:171-250 | the first condition a grant misses is its error: empty tool, pattern or entity, wildcard for a high-risk tool, tool not in the allowlist, write failed |
| Permissions.LoadGrantsIff | src/security/permissions.rs:55-148 | a loaded file grants exactly what its records do; one without an entity grants nothing, one without a tenant flag goes by its tenant id |
| Permissions.RunKeepsConsistent | src/security/permissions.rs:218-260 | in every run after a consistent load the permanent grants are the image of the records and the file holds the records |
| Permissions.GrantedAfterRunIff | src/security/permissions.rs:171-296 | after a load and any run exactly those calls are granted that a loaded record covers or a grant of the run that met every condition when it was added: same tool, matching pattern, same entity in the same tenant |
| Permissions.GrantedAfterRestartIff | src/security/permissions.rs:97-296 | after a restart exactly those that a loaded record covers or such a permanent grant of the run |
| Permissions.RestartKeepsPermanentGrants | src/security/permissions.rs:97-148 | after any run a restart answers as before with the session grants left out |
| Permissions.GrantedToItsSubjectOnly | src/security/permissions.rs:171-296 | one call to the store adds exactly the calls to the granted tool that its pattern covers, by the same entity in the same tenant, and only if the grant meets every condition; otherwise nothing changes |
| Permissions.LastAllowlistCounts | src/security/permissions.rs:151-165 | after any run an entity has the allowlist that the last call for it set, or none if that cleared it |
| Tenants.ScopedIdIs | src/contracts/tenant.rs:42-61 | with tenants enabled and a tenant set, an id that is not the tenant or below it, after ":" or "/", gets the tenant and ":" in front; any other is trimmed |
| Tenants.ScopedIdForm | src/contracts/tenant.rs:42-61 | below a tenant id that does not start with white space a scoped id is trimmed and in the tenant's scope |
| Tenants.ScopeIdempotentIff | src/contracts/tenant.rs:42-61 | scoping is idempotent for all ids if and only if the tenant id does not start with white space |
| Tenants.RecallIff | src/contracts/tenant.rs:67-91 | an id may be recalled exactly if tenants are disabled or it is the tenant or below it and not "default"; an empty id and "default" have their own error |
| Tenants.ScopedIsAcceptedIff | src/contracts/tenant.rs:67-91 | a scoped id may be recalled if and only if the tenant id is non-empty and does not start with white space, there is an id to scope, and it does not read "default" |
| Tenants.SharedIdIff | src/contracts/tenant.rs:67-91 | two tenants share an id they may recall if and only if neither tenant id is empty or starts with white space and one lies in the other's scope |
| Tenants.UnrootedAcceptsNothing | src/contracts/tenant.rs:67-91 | a tenant id that is empty or starts with white space may recall nothing |

## Left out

- Files, JSON, TOML and file permissions: a file is a value, serialization is faithful, and a write succeeds or fails as a whole. The order of the records in the token file, and duplicate records in one edited by hand, are not modelled.
- Floating-point rounding and fractions of a second in trust and distress: reals and whole seconds instead, with one clock reading per call.
- Integer widths: sequence numbers, counters and seconds do not wrap.
- Mutex poisoning, and the waiting policy of the read-write lock: a waiting thread may take a lock whenever it is free.
- Locks in the permission store and the trust tracker: their calls are taken one at a time.
- Fairness of the scheduler: calls can always be run to their end, but nothing is said about a thread that is never scheduled.
- `sanitize_api_error`, `truncate_ellipsis`, `strip_internal_prompt_blocks`, `strip_inference_markers`, `strip_citation_markers` and keyword overlap: line filters and cut-offs that would add easy members.
- `is_public_bind`, `active_grants`, the getters of the bridge and the Windows key-file branch: no state or reasoning of their own.
- Log messages and error texts: only the kind of an error is modelled.
- Secrets.PlainPassesThrough: does not say what a disabled store's value decrypts to when it starts with "enc2:" and reads as a ciphertext, because it depends on the cipher.
- AuditChains.VerifiedHasTextsOfSuffix, AuditChains.VerifiedIsSuffix, AuditChains.TamperEvidentIff: assume that the hashes of the sequences at hand neither collide nor hold a delimiter nor equal the genesis value, because no hash function is collision-free on all texts.
- DomainTrusts.HalfLifeHalvesGap: takes the decay factor as any function with f(s + t) = f(s)f(t) and f(half-life) = 0.5, because powers with real exponents are not defined here.
