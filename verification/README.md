# Verified model of the stowcloud backend's hard cores

This Dafny project models the parts of the stowcloud Go backend whose correctness is not visible in one
body: key rotation across a file and a database that cannot commit together, caches that must agree with
the slow path under concurrency, parsers and their printers, timed and concurrent state machines, and the
bounded archive. Each module follows one source file or one component; a loop that mutates state is a
method proved against a specification function, and the promises are lemmas over those functions or
invariants over every run of a step machine.

- **Key rotation** (`Octets`, `KeyRings`, `Sealing`, `Rotation`, `KeyService`). The key-ring file format is
  decoded exactly; sealing is an ideal AEAD whose associated data is the real byte string. `Rotation` is the
  protocol as steps: `disk` is the set of contents a later read of the key file may still return, so an uncertain
  replacement adds a content without ruling out the old one, and a crash may come between any two steps. Share
  links are sealed by a cipher that takes its key once, at startup; the credential of a share on another backend
  is sealed under the ring into its share's own row. A record is sealed in one step and stored in another. The
  recovery theorem's guards, stated in `Disciplined`, are exact: `RotationGuards` proves of storing a record, of
  beginning a rotation, of committing one and of recording the first version that it is safe if and only if the
  guard holds. `KeyService` is the service object whose methods perform those steps.
- **Directory rollups** (`Ordering`, `Aggregates`, `Etags`, `DirectoryCache`, `RollupWalks`, `RollupRaces`). A
  rollup is a function of a finite tree, and `Etags` says what its etag is a hash of and what it tells apart; a
  cache is *honest* when every row that would answer equals the rollup from scratch. `DirectoryCache` is the
  object on a tree at rest; `RollupWalks` is the machine in which walks, changes, markings and bumps interleave
  step by step, with the exact condition under which rows stay honest.
- **Credential tiers** (`Lru`, `Credentials`, `CredentialFacts`, `CredentialCache`). Verifiers and mutators
  interleave freely, with any presented name and password; a decision served from a tier follows from store
  versions no older than any change whose bump the lookup saw. `CredentialFacts` says of each decision what the
  accounts, rows and reads were.
- **Parsers and codecs** (`Text`, `Decimals`, `DavPath`, `Destinations`, `IfHeader`, `IfRoundTrip`,
  `IfEvaluation`, `Base64`, `Phc`, `Crockford`, `PropPatch`, `PropPlan`). Byte strings are sequences of `Byte`,
  the 256 characters that stand for bytes. Printers are inverted, what is accepted is characterised, and
  evaluation is tied to meaning.
- **Timed and concurrent machines** (`Limiter`, `ChangeChannel`, `EventConnection`, `SetupGate`).
- **Archives and listings** (`EntryReader`, `Archive`, `Listing`).

Where the code and its documentation differ, the code is modelled and a lemma shows the difference:

- the eviction queue of the credential tiers is not in insertion order once a key was removed and came back
  (`Lru.EvictsOldestExactlyWhen`, `Lru.RemovalBreaksInsertionOrder`);
- the login limiter is called a sliding window and is a fixed one: up to `2 * max - 1` attempts pass within
  one window's length, and that many do; it slides exactly when `max` is one
  (`Limiter.SlidesExactlyWhenOne`, `Limiter.BoundIsMet`);
- the connection memo reads the generation when it stores, so it outlives a revocation that was bumped in
  between (`Credentials.MemoIsCurrentExactlyWhen`, `Credentials.MemoOutlivesRevocation`);
- a path subscribed again that resolves elsewhere unbalances the pins, for good unless it resolves back before
  it is given up (`ChangeChannel.LedgerBalancesExactlyWhenStable`, `ChangeChannel.PinsBalanceExactlyWhen`,
  `ChangeChannel.ReturningRunBalances`, `ChangeChannel.ResolvedElsewhereLeaks`);
- a presented name may hold a NUL, and then its request shares a cache key with another and is served the
  other's decision (`Credentials.AloneExactlyWhen`, `Credentials.ServedItsOwnExactlyWhen`);
- strict base64 still skips carriage returns and line feeds (`Base64.DecodesExactlyEncodings`), and the field
  before the first separator of a stored hash is not looked at (`Phc.LeadingFieldIsIgnored`);
- an unknown element inside `set` or `remove` closes it early, so it is not always ignored
  (`PropPatch.UnknownIsIgnoredExactlyWhen`, `PropPatch.UnknownElementClosesTheSection`);
- a rotation is said to re-seal every sealed row, and passes over the credentials of shares: each of them is
  lost (`RotationGuards.CommitSafeExactlyWhenNoShares`, `RotationGuards.RotationSafeExactlyWhenNoShares`,
  `RotationGuards.RotationLosesShares`, `RotationGuards.ShareCredentialIsLost`);
- after a rotation without a restart every new share link is lost (`RotationGuards.StoreSafeExactlyWhenItFits`,
  `RotationGuards.LinkAfterRotationIsLost`), and so is any record sealed before a rotation's commit and stored
  after it (`RotationGuards.SealedAcrossTheCommitIsLost`);
- a row computed across a change that was marked, not bumped, is stored all the same, and so is one computed from
  a row whose marking had not landed (`RollupWalks.LateStoreHonestExactlyWhenBumped`,
  `RollupRaces.RaceIsReachable`, `RollupRaces.RowReadBeforeItsMarking`).

`dafny verify dfyconfig.toml` checks the whole project.

## Model

| member | source | states |
|---|---|---|
| Rotation.RecoveryTheorem | backend/internal/auth/rotate.go:32-92 | after any run of rotation steps, seals, stores, deletions, failed or uncertain publications, crashes and restarts that is disciplined, so commits no rotation while a share credential is stored, the file holds the version the database names and every row, share links under the cipher of the last start and share credentials included, reads back as what it was last written to say, under every content a later read of the file may return |
| Rotation.StepKeeps | backend/internal/auth/rotate.go:35-92 | each single durable step keeps the invariant that ties file, database version, rows, memory ring and phase to one key |
| Rotation.RestartRecovers | backend/internal/auth/keystate.go:17-115 | a crash anywhere followed by a start whose file write lands and whose reads succeed ends serving on exactly the committed version, ring and link cipher alike, rows untouched |
| Rotation.AlignKeeps | backend/internal/auth/keystate.go:55-74 | alignment keeps the invariant whatever its publication's outcome, always finds the committed version in the loaded ring, and goes on only with exactly that version |
| Rotation.RotationSucceeds | backend/internal/auth/rotate.go:35-92 | an undisturbed rotation ends with version plus one in database, file and memory; every SMB credential, second factor, share link and configuration secret is at that version and opens under the minted key to the plaintext it had before, share credentials are as they were, and the run is a disciplined one when there are none |
| Rotation.ResealAllMeans | backend/internal/db/state/sealed.go:79-107 | the reseal transaction keeps every row's identity and meaning, moves every SMB credential, second factor, link and configuration secret to the new version and leaves share credentials as they were |
| Rotation.ResealAllExactlyWhen | backend/internal/auth/rotate.go:62-125 | the transaction lands if and only if every row of those four kinds opens in the extended ring, and then each says under the new key what it said before |
| Rotation.ResealNeverAborts | backend/internal/auth/rotate.go:62-70 | under the invariant the reseal never meets a row it cannot open |
| Rotation.ProbeNeverRefuses | backend/internal/auth/keystate.go:85-115 | under the invariant the startup probe of a second factor, whichever row it samples, never refuses a start, and leaves the link cipher with the committed key |
| Rotation.SampledExactlyWhen | backend/internal/auth/keystate.go:85-115 | there is a row to probe if and only if some account has a second factor |
| Rotation.FreshDeployment | backend/internal/auth/masterkey.go:352-371 | a deployment with no key file, version or rows satisfies the invariant |
| Rotation.LegacyDeployment | backend/internal/auth/masterkey.go:99-107 | so does one whose file is a raw legacy key, at version 1 |
| RotationGuards.StoreSafeExactlyWhenItFits | backend/internal/auth/totp.go:62-72 | storing a sealed record keeps every disciplined future readable if and only if at that moment its label is the version the database names and, for a link, the key it was sealed under is the key file's at that version |
| RotationGuards.SealFitsExactlyWhenCurrent | backend/internal/files/link.go:262-272 | what is sealed and stored at once fits if and only if the ring's newest version is the one the database names, or for a link the cipher's key is that version's |
| RotationGuards.LinkAfterRotationIsLost | backend/internal/server/open.go:447-452 | after a successful rotation without a restart the next link is sealed under the old key with the new version: it reads back under no content of the file, and makes every later reseal abandon its transaction |
| RotationGuards.SealDuringRotationIsLost | backend/internal/auth/rotate.go:57-90 | a record other than a link sealed and stored between commit and swap is unreadable under every content of the compacted file |
| RotationGuards.SealedAcrossTheCommitIsLost | backend/internal/server/settings/settings.go:277-281 | a record that fitted when it was sealed and is stored after a rotation's commit no longer fits, and storing it loses it |
| RotationGuards.CommitSafeExactlyWhenNoShares | backend/internal/db/state/sealed.go:89-100 | committing a rotation keeps every disciplined future readable if and only if no share has a stored credential |
| RotationGuards.RotationSafeExactlyWhenNoShares | backend/internal/auth/rotate.go:35-92 | so does an undisturbed rotation as a whole |
| RotationGuards.RotationLosesShares | backend/internal/db/state/sealed.go:89-100 | after such a rotation a share credential that could be read before is stored still and opens under no content of the file, nor under the ring in memory |
| RotationGuards.ShareCredentialIsLost | backend/internal/files/sharesecret.go:35-45 | a run from any current service: any share's credential is sealed and stored as it should be, and the next rotation loses it |
| RotationGuards.FirstStart | backend/internal/auth/masterkey.go:352-385 | the first start of a fresh deployment ends in such a service, by disciplined steps |
| RotationGuards.BeginSafeExactlyWhenNotStale | backend/internal/auth/rotate.go:39-55 | with rows stored and a fresh key different from theirs, beginning another rotation keeps every disciplined future readable if and only if the memory ring's version is the one the database names |
| RotationGuards.StaleIsReachable | backend/internal/auth/rotate.go:76-90 | a rotation whose compaction fails after the commit leaves exactly such a stale ring |
| RotationGuards.EstablishSafeExactlyWhenSettled | backend/internal/auth/keystate.go:27-36 | recording the first version keeps every disciplined future readable if and only if every content the key file may still have holds the same key for it |
| RotationGuards.FirstKeyCanBeUnsettled | backend/internal/auth/masterkey.go:369-379 | a start that reads a key whose first publication was uncertain is about to record such an unsettled version |
| KeyService.Service.RotateMasterKey | backend/internal/auth/rotate.go:35-92 | the call is a run of protocol steps, a disciplined one when the ring is current and no share has a credential; it succeeds exactly when there is a next version, both publications and the commit land and every row the transaction walks opens, which under the invariant a current ring's rows do; after success every SMB credential, second factor, link and configuration secret is at the new version and opens under the minted key to what it said before; database and rows change exactly when the transaction lands, the memory ring exactly on success, the link cipher never |
| KeyService.Service.FinishRotation | backend/internal/auth/rotate.go:57-92 | the last two durable steps and the swap, each a protocol step, and exactly when they succeed |
| KeyService.Service.ResealRows | backend/internal/db/state/sealed.go:79-107 | the walk over the rows of four tables, in any order, succeeds if and only if each of them opens, and then each says under the newest key what it said before; share credentials are left alone |
| KeyService.Service.Persist | backend/internal/auth/masterkey.go:241-279 | a ring too long for the format leaves the file untouched; an uncertain replacement leaves both contents possible |
| KeyService.Service.StartupKeyState | backend/internal/auth/keystate.go:17-48 | establish, refuse, compact, probe: it succeeds exactly when the version could be recorded, the ring holds it, the file came down to it and the sampled second factor opens, and then serves on exactly that version with the key the ring had for it |
| KeyService.Service.AlignRing | backend/internal/auth/keystate.go:55-74 | a protocol step that succeeds exactly when the ring holds the database's version and already is, or was published as, that version alone |
| KeyService.Service.CheckMasterKey | backend/internal/auth/keystate.go:85-115 | a protocol step that refuses exactly on a failed read or a second factor that does not open, and otherwise fixes the link cipher's key |
| KeyService.Service.OpenMasterKey | backend/internal/auth/masterkey.go:352-385 | load or mint, then the startup checks, as a run of protocol steps: it succeeds exactly when the ring it settles on can start, and under the invariant a recorded version always can when the one file write and the reads land |
| KeyRings.Marshal | backend/internal/auth/masterkey.go:217-235 | the writer loop produces the format, refusing more than 65535 versions |
| Octets.BigEndianDigits | backend/internal/auth/masterkey.go:217-235 | the numbers of a key file are written most significant octet first |
| KeyRings.ParseKeyRing | backend/internal/auth/masterkey.go:99-143 | the reader loop computes the format's decoder, legacy raw keys included |
| KeyRings.DecodeInvertsEncode | backend/internal/auth/masterkey.go:99-235 | every valid ring of 1 to 65535 versions reads back as itself, so no marshalled ring reads as a legacy key |
| KeyRings.DecodeSound | backend/internal/auth/masterkey.go:99-143 | whatever is read is a valid ring whose encoding is the file, or a legacy key |
| KeyRings.AppendedValid | backend/internal/auth/masterkey.go:176-198 | adding a fresh version keeps order, key map and newest in agreement |
| Sealing.AadInjective | backend/internal/auth/seal.go:81-101 | the associated data determines record kind, record identity and key version |
| Sealing.AadLayout | backend/internal/auth/seal.go:30-105 | the associated data byte for byte: the kind's name, the identity, the key version, little-endian |
| Sealing.SealedIsBound | backend/internal/auth/seal.go:43-75 | a sealed blob opens under exactly its own key, record and version |
| Sealing.OpensExactlyAsSealed | backend/internal/auth/seal.go:43-160 | what was sealed for a row opens as a row if and only if key and version agree and the two stand for one record: the same secret of the same account, links of one token hash, one configuration name, one share, or a share and the configuration secret named after it; an SMB credential of another length than 16 is refused |
| Sealing.ForeignOpensNowhere | backend/internal/auth/seal.go:56-75 | bytes nobody sealed open as no row, and those too short for a nonce are told apart |
| Sealing.ResealKeepsMeaning | backend/internal/auth/rotate.go:96-125 | resealing a row changes no plaintext and succeeds whenever the row opened |
| Ordering.SortIgnoresOrder | backend/internal/files/aggregate.go:168-174 | sorting distinct names gives one sequence whatever order they arrived in |
| Ordering.StrLessExactlyWhen | backend/internal/files/aggregate.go:168-174 | names are ordered by their first difference, a prefix first |
| Aggregates.ReadOrderIsIrrelevant | backend/internal/files/aggregate.go:168-174 | the names the hash is over are a function of the directory, not of readdir |
| Aggregates.RollupCounts | backend/internal/files/aggregate.go:176-218 | size and count are the totals of everything beneath, modulo 64 bits |
| Etags.EtagIsHash | backend/internal/files/aggregate.go:163-216 | the etag is the hash of the sorted names, each followed by its entry's token, a file's own or a directory's etag |
| Etags.FileChangeShows | backend/internal/files/aggregate.go:176-216 | with a hash free of collisions, a file whose token changes changes the etag of its directory and of every directory above it |
| Etags.SameNamesTell | backend/internal/files/etag.go:31-48 | with such a hash and tokens of one length, two directories of the same names share an etag if and only if every entry's token is the same |
| Etags.NamesMayBlur | backend/internal/files/aggregate.go:202-207 | of different names it is not so: nothing stands between a name and a token, so two files and one file whose name holds the first's token share an etag |
| Aggregates.MarkedChangeStaysHonest | backend/internal/files/aggregate.go:248-301 | marking the ids a change touches keeps every row that would answer equal to the rollup from scratch |
| Aggregates.BumpIsHonest | backend/internal/files/aggregate.go:231-236 | a generation bump does so for any change at all |
| Aggregates.EditIsTouch | backend/internal/files/aggregate.go:248-254 | a change of one directory's entries touches only that directory's ancestor chain |
| Aggregates.MoveIsTouch | backend/internal/files/aggregate.go:248-254 | a rename, onto a file or a directory or nothing, touches only the two chains |
| Aggregates.MarkIsNeeded | backend/internal/files/aggregate.go:262-301 | an edited directory with a clean row that is left unmarked keeps answering the old rollup |
| Aggregates.EditHonestExactlyWhen | backend/internal/files/aggregate.go:262-301 | after an edit that shows in the rollups above it, a set of marks leaves the cache honest if and only if it includes every directory of the chain whose row still answers |
| Aggregates.MoveHonestExactlyWhen | backend/internal/files/aggregate.go:262-301 | after a rename that shows on both chains, a set of marks leaves the cache honest if and only if it includes every directory of the two whose row still answers |
| RollupWalks.RollupTheorem | backend/internal/files/aggregate.go:29-229 | in every interleaving of walks, changes, markings and bumps a row that would answer is the rollup of its directory unless that directory's marking is still to land, provided a walk that missed a change of a directory stores its row only under a generation that has been bumped, or before the marking |
| RollupWalks.StepKeeps | backend/internal/files/aggregate.go:127-229 | each single step of a walk, a change, a marking or a bump keeps that, and keeps every frame of every walk true of what it has read |
| RollupWalks.AnswerIsCurrent | backend/internal/files/aggregate.go:127-229 | a walk that missed nothing answers the rollup its directory has when the walk ends, entries that vanished meanwhile included |
| RollupWalks.WalkKeepsItsDirectory | backend/internal/files/aggregate.go:127-215 | whatever is interleaved, a walk goes on to answer for the directory it was opened on, a directory deeper or back at a step |
| RollupWalks.StoreSafeExactlyWhen | backend/internal/files/aggregate.go:219-229 | where what a walk missed shows, storing its row is safe if and only if the generation moved since the walk began or the directory's marking is still to land |
| RollupWalks.LateStoreHonestExactlyWhenBumped | backend/internal/files/aggregate.go:33-39 | a walk reads a directory, a change that shows lands, all markings land, the walk stores: the cache is honest if and only if a bump came since the walk read its generation |
| RollupWalks.MarkingPaysExactlyWhen | backend/internal/files/aggregate.go:262-301 | the marking after an edit leaves no changed directory unmarked if and only if it could read every known directory of the chain |
| RollupRaces.RaceIsReachable | backend/internal/files/aggregate.go:127-229 | the code reaches a false row that way: a walk reads a directory, a file appears and is marked, the walk stores |
| RollupRaces.RowReadBeforeItsMarking | backend/internal/files/aggregate.go:127-132 | and in another: a walk begun after the change takes a changed directory's row before its marking lands, and stores the row above it after |
| DirectoryCache.Core.ComputeAggregate | backend/internal/files/aggregate.go:127-229 | on a tree at rest, whatever is cached, fails to be stored or is bumped meanwhile, a returned aggregate is the rollup, the cache stays honest, and only an id that cannot be stored makes it fail |
| DirectoryCache.Core.WalkEntries | backend/internal/files/aggregate.go:176-212 | the loop computes the fold over the sorted names |
| DirectoryCache.Core.AggregateOf | backend/internal/files/aggregate.go:29-105 | an answer is the rollup of the directory the path names; with ids stored there is an answer exactly when there is such a directory |
| DirectoryCache.Core.MarkChainDirty | backend/internal/files/aggregate.go:262-301 | exactly the root and the known, readable directories of the chain are marked, else the share is bumped, else nothing |
| DirectoryCache.Core.ChangeDir | backend/internal/files/aggregate.go:248-301 | a mutation followed by its marking keeps the cache honest when the marking reads the whole chain or falls back to a bump; for a mutation that shows, exactly when no row of the chain that still answers is left unmarked |
| DirectoryCache.Core.MoveEntry | backend/internal/files/aggregate.go:248-301 | a rename followed by its two markings keeps it honest when both read their whole chains or either falls back to a bump; for a rename that shows on both chains, exactly when one falls back or no row of the chains that still answers is left unmarked by both |
| DirectoryCache.Core.InvalidateShare | backend/internal/files/aggregate.go:231-236 | whole-share invalidation is one bump |
| Lru.Cache.Put | backend/internal/auth/cache.go:231-240 | the new contents, queue and insertion times, evicting at most the head, with the representation invariant kept |
| Lru.Cache.Remove | backend/internal/auth/cache.go:242-242 | the value goes, the queue keeps the key |
| Lru.BoundedByCapacity | backend/internal/auth/cache.go:211-240 | the invariant bounds the map by the capacity, stale and repeated queue entries or not |
| Lru.EvictsOldestExactlyWhen | backend/internal/auth/cache.go:211-240 | an eviction drops the live key that was inserted first if and only if the head is live and no other live key lies wholly before the head's last insertion |
| Lru.RemovalBreaksInsertionOrder | backend/internal/auth/cache.go:211-242 | at every capacity past two: a key is removed and returns, the queue fills, and the next insertion drops that key though another was inserted before it |
| Credentials.ServedIsCurrent | backend/internal/auth/login.go:200-271 | in every interleaving a decision served from cache follows, for a request under its key, from two store versions no older than any change already bumped when the lookup read its generation; for a request by token, or without a NUL, for that request itself |
| Credentials.RevokedIsNeverServed | backend/internal/auth/apppw.go:208-236 | once the revocation or wipe of an app password is committed and bumped, no lookup that reads the bumped generation is a hit |
| Credentials.OldPasswordIsNeverAccepted | backend/internal/auth/login.go:200-271 | nor, accounts' names holding no NUL, is a password accepted from cache once the change that made it wrong is committed and bumped; a presented name that holds one counts as its first part with the rest before the password |
| CredentialFacts.TokenDecisionExactlyWhen | backend/internal/auth/apppw.go:127-173 | an app password is granted if and only if its row is there and not wanted wiped and its owner is there and not disabled, as the owner, with the row's permissions, shares, id and expiry |
| CredentialFacts.PasswordDecisionExactlyWhen | backend/internal/auth/login.go:213-275 | a password is accepted if and only if the named account has one, it checks, and no provider replaced it, with the account's own id, name, display name and disabled mark; otherwise it is rejected |
| CredentialFacts.DecidedWasGranted | backend/internal/auth/apppw.go:127-173 | in every run an app password decided on or answered had its row read, not wanted wiped and not yet expired, and its owner read after that, there and not disabled; the decision carries those terms |
| CredentialFacts.ServedWasGranted | backend/internal/auth/apppw.go:127-140 | the same of every app password served from cache |
| CredentialFacts.DisabledOwnerIsNeverServed | backend/internal/auth/apppw.go:156-163 | once the owner is gone or disabled in every version and that is bumped, no lookup that reads the bumped generation is a hit |
| CredentialFacts.DisabledIsNeverVerified | backend/internal/auth/login.go:200-275 | nor is a password of a disabled account answered as verified |
| Credentials.ServedWithinWindows | backend/internal/auth/cache.go:122-196 | in every run a served decision was stored under that generation within its tier's lifetime, an accepted one also used within five minutes |
| Credentials.StepKeeps | backend/internal/auth/login.go:200-271 | every step of every thread keeps each captured read, decision and entry no older than its generation |
| Credentials.KeyNamesOneRequest | backend/internal/auth/cache.go:97-118 | no two account-and-password pairs with NUL-free names share a key |
| Credentials.AloneExactlyWhen | backend/internal/auth/cache.go:97-118 | a request is the only one under its key if and only if it holds no NUL in name or password, or is by token |
| Credentials.ServedItsOwnExactlyWhen | backend/internal/auth/login.go:200-213 | over all stores and runs a request is only ever served a decision it is owed itself if and only if it holds no NUL; otherwise some store has it served another request's decision |
| Credentials.MemoIsCurrentExactlyWhen | backend/internal/auth/login.go:280-287 | a memo is recalled in every run until the next bump, and follows, for a request under its key, from the store since the last bump if and only if no bump came between the start of its verification and its writing, when those bumps undid the credential; for a request by token, or without a NUL, all that is of the request itself |
| Credentials.MemoOutlivesRevocation | backend/internal/auth/login.go:280-287 | a run in which a revoked app password is recalled |
| CredentialCache.Caches.CredLookup | backend/internal/auth/cache.go:122-148 | a hit exactly within generation and windows, with what is dropped and what is kept warm |
| CredentialCache.Caches.TokenLookup | backend/internal/auth/cache.go:181-196 | a hit exactly within generation and lifetime, the credential's own expiry winning |
| CredentialCache.Caches.ConnLookup | backend/internal/auth/cache.go:159-171 | nothing but the generation ends a memo |
| CredentialCache.Caches.CredStore | backend/internal/auth/cache.go:150-155 | a store replaces one entry and loses at most one other |
| CredentialCache.CredLookupRefinesProtocol | backend/internal/auth/cache.go:122-148 | a tier's lookup is the protocol's lookup step, in what it serves and in what it leaves |
| CredentialCache.TokenLookupRefinesProtocol | backend/internal/auth/cache.go:181-196 | the same for app passwords |
| DavPath.SplitInvertsHref | backend/internal/dav/path.go:43-178 | reading a printed href gives the segments back, with or without the collection slash |
| DavPath.AcceptedIsFixedPoint | backend/internal/dav/path.go:43-96 | everything accepted is a list of clean, normalised names, and printing and reading it again changes nothing |
| DavPath.BoundariesAreRaw | backend/internal/dav/path.go:43-62 | segments are the non-empty raw pieces decoded one for one, so no decoded byte becomes a boundary |
| DavPath.SplitPath | backend/internal/dav/path.go:43-79 | the two passes compute the specification, first failure first |
| DavPath.UnescapeSegment | backend/internal/dav/path.go:102-126 | the decoding loop computes the specification, bad escapes included |
| DavPath.UnescapeInverts | backend/internal/dav/path.go:102-190 | escaping is undone by unescaping and leaves nothing but unreserved bytes and percent escapes |
| DavPath.EncodeHref | backend/internal/dav/path.go:148-178 | the printing loop computes the specification |
| DavPath.DestinationReadsHref | backend/internal/dav/destination.go:25-54 | a printed href is read back as a destination on any host |
| DavPath.DestinationReadsUrl | backend/internal/dav/destination.go:25-83 | so is the same href on an absolute URL of the request's host, whatever the scheme |
| Destinations.UrlIsForeignExactlyWhen | backend/internal/dav/destination.go:25-83 | an absolute URL is read as its path if and only if its host, whatever precedes an at sign and in any case, is the request's, and is foreign otherwise; the scheme is not compared |
| Destinations.OtherSchemesAreNone | backend/internal/dav/destination.go:56-75 | what has no valid scheme and does not begin at the root names no destination |
| Destinations.RootedIsPath | backend/internal/dav/destination.go:25-54 | what begins at the root is a path, whatever it holds later |
| Destinations.QueryIsDropped | backend/internal/dav/destination.go:44-53 | a query is no part of the destination |
| Destinations.BlanksAreTrimmed | backend/internal/dav/destination.go:25-29 | blanks around the header do not matter, and a header of nothing else names no destination |
| Destinations.AnyByteMayBeEscaped | backend/internal/dav/path.go:102-126 | every byte may be written as its two hexadecimal digits, in either case |
| Destinations.PrintedExactly | backend/internal/dav/path.go:164-195 | unreserved bytes are printed as they are, all others as a percent sign and upper-case digits |
| IfHeader.ParseIf | backend/internal/dav/ifheader.go:95-154 | the index loop computes the grammar, always advancing |
| IfHeader.ParseList | backend/internal/dav/ifheader.go:157-187 | one parenthesised group, with its bounds |
| IfHeader.ParseCondition | backend/internal/dav/ifheader.go:190-244 | one term with its optional negation |
| IfRoundTrip.ParseInvertsPrint | backend/internal/dav/ifheader.go:95-244 | a printed well-formed header within the byte bound is read back exactly |
| IfRoundTrip.AcceptedIsWellFormed | backend/internal/dav/ifheader.go:95-244 | whatever is accepted is well formed and within every bound, and survives printing and reading |
| IfRoundTrip.ReadableMeansNameable | backend/internal/dav/ifheader.go:118-130 | the printable resource tags are exactly the paths whose names SplitPath keeps |
| IfRoundTrip.DestinationsAreSound | backend/internal/dav/destination.go:25-54 | every destination read could have been printed |
| IfRoundTrip.GapsMeanNothing | backend/internal/dav/ifheader.go:95-187 | spaces and tabs between terms, lists and tags change nothing |
| IfRoundTrip.NotInAnyCase | backend/internal/dav/ifheader.go:190-244 | Not negates the term it stands before, in any case and at any distance |
| IfRoundTrip.GarbageIsRefused | backend/internal/dav/ifheader.go:108-187 | what is neither a term, a tag nor a list is refused where it stands |
| IfEvaluation.EvaluateIf | backend/internal/dav/ifheader.go:266-301 | satisfied exactly when absent or some list holds of its own target |
| IfEvaluation.ConditionHolds | backend/internal/dav/ifheader.go:304-322 | a token term is true when the resource holds the token, a tag term when the resource exists and both tags are strong and of one value; Not negates either |
| IfEvaluation.SubmittedIsHeld | backend/internal/dav/ifheader.go:259-301 | a token is submitted exactly when a list that holds names it without Not, and then that list's target really holds it |
| Crockford.Encode | backend/internal/auth/crockford.go:22-38 | the wrapping 32-bit accumulator writes the digits of the zero-padded bits as one unbounded base-32 number |
| Crockford.CodeIsUnique | backend/internal/auth/crockford.go:22-38 | a byte string has one code, of five bits a letter rounded up |
| Crockford.CodeNamesItsBytes | backend/internal/auth/crockford.go:22-38 | no two byte strings of any lengths share a code |
| Crockford.Fold | backend/internal/auth/crockford.go:43-64 | folding succeeds exactly when every character folds, and answers character by character |
| Crockford.MisreadingsFoldBack | backend/internal/auth/crockford.go:40-64 | what folds to a code is exactly its lower-case and I, L or O misreadings |
| Crockford.FoldIdempotent | backend/internal/auth/crockford.go:43-64 | folding twice is folding once |
| Base64.DecodeInvertsEncode | backend/internal/auth/password.go:213-218 | encoding is undone by decoding and holds no separator |
| Base64.DecodesExactlyEncodings | backend/internal/auth/password.go:274-281 | what decodes strictly is exactly an encoding, but for line breaks |
| Base64.StripsOnlyBreaks | backend/internal/auth/password.go:274-281 | carriage returns and line feeds are skipped wherever they stand, and nothing else is |
| Phc.ParsePHC | backend/internal/auth/password.go:223-290 | the parser computes the specification, field by field |
| Phc.ParseInvertsEncode | backend/internal/auth/password.go:213-290 | every in-bounds parameter set, salt and key is read back exactly |
| Phc.AcceptedIsBounded | backend/internal/auth/password.go:220-290 | the fields of everything accepted meet every bound |
| Phc.AcceptedIsCanonical | backend/internal/auth/password.go:213-290 | everything accepted has a canonical form that is read as the same hash |
| Phc.LeadingFieldIsIgnored | backend/internal/auth/password.go:224-228 | any text before the first separator changes nothing |
| Decimals.ParseIntExactlyWhen | backend/internal/auth/password.go:237-262 | a number is read if and only if it is optional sign and digits within 64 bits, as the value its digits weigh |
| Limiter.Limiter.Allow | backend/internal/auth/auth.go:251-279 | one step of the table the runs are over; refused exactly in an open full window, which then holds max admissions; no interval of a window's length holds more than 2 * max - 1 admissions of a key that stays |
| Limiter.Reopens | backend/internal/auth/auth.go:268-272 | opening a new window keeps the bound across the boundary |
| Limiter.BoundIsMet | backend/internal/auth/auth.go:219-279 | a run of attempts in which 2 * max - 1 of one key are admitted within one window's length |
| Limiter.SlidesExactlyWhenOne | backend/internal/auth/auth.go:219-279 | over all runs no interval of a window's length holds more than max admissions of a key if and only if max is one; the least bound that holds over all runs is 2 * max - 1 |
| ChangeChannel.EventsAreDelivered | backend/internal/files/changes.go:413-431 | in every run an event matching a held path leaves it pending, or a later step takes or gives up the path |
| ChangeChannel.RecordedExactlyWhen | backend/internal/files/changes.go:413-431 | an event leaves pending what was, at its time, and from now every held path of its share that names its directory, or any directory when the share lost events; nothing else |
| ChangeChannel.TakesAreApart | backend/internal/files/changes.go:480-493 | two takes of one path are at least a debounce window apart |
| ChangeChannel.RunKeeps | backend/internal/files/changes.go:348-406 | in every run pending paths are subscribed and subscriptions bounded |
| ChangeChannel.PinsAreConserved | backend/internal/files/changes.go:348-406 | once decided calls are made, pins taken minus released are the recorded targets, at most the bound, and none after release |
| ChangeChannel.LedgerBalancesExactlyWhenStable | backend/internal/files/changes.go:355-372 | a step loses or doubles a pin exactly when a path subscribed again resolves elsewhere |
| ChangeChannel.PinsBalanceExactlyWhen | backend/internal/files/changes.go:348-406 | in every run, once decided calls are made, the pins out are the recorded targets if and only if for every pin the paths first subscribed with it are as many as those given up with it and those that hold it |
| ChangeChannel.ReturningRunBalances | backend/internal/files/changes.go:348-406 | a run whose paths resolve elsewhere and back before they are given up loses no pin |
| ChangeChannel.ResolvedElsewhereLeaks | backend/internal/files/changes.go:355-406 | a run for any path and any two targets: subscribed, subscribed again to the other, released; nothing is held and nothing outstanding, the first pin stays taken and the second is released though never taken |
| EventConnection.EventConn.Subscribe | backend/internal/files/changes.go:348-371 | which paths a frame adds, which it skips, and when the ledger stays balanced |
| EventConnection.EventConn.Unsubscribe | backend/internal/files/changes.go:378-390 | exactly the named paths go, pins included |
| EventConnection.EventConn.ReleaseAll | backend/internal/files/changes.go:393-406 | nothing is left held, however often it is called |
| EventConnection.EventConn.Record | backend/internal/files/changes.go:413-431 | the map walk leaves pending what was and exactly the held paths of the event's share that name its directory, or any when all are meant, in any order |
| EventConnection.EventConn.Due | backend/internal/files/changes.go:480-493 | exactly the elapsed paths, each once, no longer pending |
| EventConnection.EventConn.Flush | backend/internal/files/changes.go:461-474 | a frame for each elapsed path still readable, the others dropped with their pins, until the socket fails |
| SetupGate.AtMostOneAdministrator | backend/internal/admin/setupgate.go:83-168 | in every interleaving of issuing and using, at most one guarded call succeeds |
| SetupGate.RepeatedMintBreaksIt | backend/internal/admin/setupgate.go:83-111 | with a mint that repeats a waiting token two calls succeed, since issuing reopens the gate outside the open check |
| SetupGate.Gate.Use | backend/internal/admin/setupgate.go:148-190 | the guarded call runs if and only if there is no account and the token is the one issued, not expired and not spent; only its success spends it; each refusal is said |
| SetupGate.Gate.Issue | backend/internal/admin/setupgate.go:83-123 | a token is minted exactly when the count reads zero; an unreadable count closes the gate |
| SetupGate.UseAlone | backend/internal/admin/setupgate.go:148-190 | the steps of one use, uninterrupted, enter, spend and count exactly so |
| SetupGate.IssueAlone | backend/internal/admin/setupgate.go:83-111 | the steps of one issue, uninterrupted, mint for fifteen minutes exactly while there is no account |
| EntryReader.Stream.Read | backend/internal/files/read.go:63-95 | whatever the descriptor answers, one read into a buffer is one read of at most a chunk from a source none of whose reads is empty before its end |
| EntryReader.Reader.Read | backend/internal/files/archive.go:163-187 | one bounded read of the stream, and the probe at the declared size: what was to come is what was read and what is still to come, and at the end the flag says what it should |
| EntryReader.CopyAll | backend/internal/files/archive.go:163-187 | copying through buffers of any size comes to one function of the source |
| EntryReader.FlaggedExactlyWhen | backend/internal/files/archive.go:163-187 | an entry's bytes are the first its file gives, up to the declared size, and it is flagged if and only if the file gives another number of bytes or fails |
| EntryReader.UnflaggedIsWhole | backend/internal/files/archive.go:163-187 | an entry without the flag is the whole of what its file gave, at its declared size |
| EntryReader.ServedContent | backend/internal/files/read.go:63-95 | a descriptor that answers without failing has its own first bytes served, up to the range |
| Archive.Builder.Add | backend/internal/files/archive.go:189-224 | why a visit ends the walk, if it does, and otherwise what it places; it is whole when readable and, for a file, exactly its declared bytes came without failure, and anything else marks the archive incomplete |
| Archive.PlacedMeans | backend/internal/files/archive.go:189-224 | an entry past the count or a file past the bytes ends the walk; an unreadable entry or a file without a stream places nothing, a directory its name with a slash, a file its first bytes up to the declared size |
| Archive.Builder.FindMarker | backend/internal/files/archive.go:233-243 | the suffix search ends at the first name of the series no path has |
| Archive.MarkerIsClean | backend/internal/files/zip.go:184-217 | however many names an archive holds, the marker's is one the writer accepts as it stands |
| Archive.CleanNameExactlyWhen | backend/internal/files/zip.go:184-217 | a name is taken if and only if what is left of it without trailing slashes is relative, within the bound, without NUL, backslash, empty or dot segments, and is written as that |
| Archive.MarkerClashesWithNothing | backend/internal/files/archive.go:233-245 | that name is no member's unless a path ends in a slash |
| Archive.BuildArchive | backend/internal/files/archive.go:123-146 | the walk goes on exactly to the first visit that ends it; the members are the placed entries within both budgets, then the marker of the first free name exactly when the walk failed or something was left out or cut, unless the connection broke; and which error is returned |
| Listing.BeforeOrders | backend/internal/files/list.go:156-198 | rows with distinct names are strictly and totally ordered under every key and direction |
| Listing.SortedInOrder | backend/internal/files/list.go:156-198 | directories first; inside a group names, kinds, sizes or times never fall, or never rise when descending, and rows of one kind, size or time go by ascending name |
| Listing.ListingIsCanonical | backend/internal/files/list.go:156-174 | the listing is a sorted permutation independent of the order the directory was read in |
| Listing.DirectoriesComeFirst | backend/internal/files/list.go:66-71 | the directories are exactly the first of the rows |
| Listing.DescendingReversesTheKey | backend/internal/files/list.go:156-174 | descending reverses what the key decides inside a group, and nothing else |
| Listing.ListSorted | backend/internal/files/list.go:27-111 | a page is a cut of the whole sorted directory, its rows in that order, with its error cases |
| Listing.PagesCoverTheListing | backend/internal/files/list.go:73-110 | following the cursor yields every row once, in order, and ends, whatever the limits of the requests |
| Listing.CursorExactlyWhen | backend/internal/files/list.go:198-215 | a cursor is an offset in decimal, none at all the first page, and anything else is refused |
| PropPatch.ParsePropPatch | backend/internal/dav/proppatch.go:62-147 | the token loop computes the machine |
| PropPatch.DocumentIsRead | backend/internal/dav/proppatch.go:62-147 | every well-nested document at all, under any root, is read as what one recursive reading of its tree sees, or refused exactly past the limit |
| PropPatch.GrammarIsRead | backend/internal/dav/proppatch.go:62-147 | a body of the grammar is read as its instructions in document order, each value all text inside its property, or refused exactly past the limit |
| PropPatch.UnknownIsIgnoredExactlyWhen | backend/internal/dav/proppatch.go:88-137 | a document with unknown elements beside and inside its sets and removes is read as if they were not there if and only if no wrapper holding a property comes after one in the same set or remove; otherwise properties are dropped |
| PropPatch.UnknownElementClosesTheSection | backend/internal/dav/proppatch.go:88-137 | such a document: a set with an unknown element before its wrapper, whose property is not read |
| PropPlan.PlanPropPatch | backend/internal/dav/proppatch.go:186-210 | one live name refuses everything, and each instruction's status |
| PropPlan.GroupByStatus | backend/internal/dav/proppatch_method.go:92-107 | one group a status holding exactly the names that got it, in order |
| PropPlan.Proppatch | backend/internal/dav/proppatch_method.go:49-107 | the whole list is written exactly when every name is nameable, none is live, the list is not empty and the store takes it; which refusal is answered when; a 200 is reported exactly when the list was written |

## Left out

- HTTP, websocket and database plumbing: each store call is an atomic step with the contract its caller states; a failing call is an argument or a nondeterministic choice.
- Real cryptography and randomness: AEAD, digests and password checks are ideal or parameters, a mint is an argument; nonces do not appear.
- The startup probe of a stored SMB credential only warns and is not modelled; a failed read of the database's version is a start that dies there.
- The counts a reseal reports per kind of record are not modelled.
- Symlinks, hard links and the per-walk guards of a rollup: the tree is finite and directory ids are unique.
- DirectoryCache.Core.ComputeAggregate: takes the tree to be at rest during one computation; `RollupWalks` has changes between any two steps of a walk.
- DirectoryCache.Core.WalkEntries: on a tree at rest no entry vanishes and no stat fails; `RollupWalks` skips such entries as the code does.
- Etags.FileChangeShows: takes the hash to be free of collisions, which a digest cut to sixteen bytes is only in practice.
- A change and its marking are two steps of `RollupWalks`; the stat calls of one marking are not steps of their own, the ids it marks are an argument.
- Ids reused by the index of a share are not modelled: a new directory is one the cache never saw.
- Text.TrimSpace and Text.EqualFold: ASCII blanks and letters only; Unicode white space and case folding are not modelled.
- Unicode normalisation of path segments is an idempotent function that keeps their number and empties none.
- DavPath.UnescapeSegment: the early return for a segment without escapes is kept, its byte-slice capacity is not.
- Password hashing itself, the permit gate around it and the decoy timing are not modelled: a small counter and uninterpreted work.
- Limiter.Limiter.Allow: assumes the clock does not go back and counts a key's admissions since it was last taken in; an evicted key starts again.
- ChangeChannel.EventsAreDelivered: a take counts as delivery; a frame the socket refuses ends the connection and what was taken with it is lost.
- The event hub's connection table and its per-user bound are not modelled; each connection is on its own.
- EntryReader.Stream.Read: positions are natural numbers; the narrowing to 64 and 32 bits, and its errors, are not modelled.
- Archive.BuildArchive: modification times, checksums, headers and the central directory are not modelled; the marker's text is a parameter. The archive gate and file-name check would only add easy members.
- Listing.ListSorted: the projection of a row into an entry and the directory's own tag are not modelled; a row whose name no longer joins is left out of its page, as in the code.
- PropPatch.ParsePropPatch: starts from a scanned, well-nested token sequence; the scanner's own limits are not part of this model.
- The validity check of XML property names is a parameter.
- Login, sessions, second factors, shares but for their sealed credentials, grants and the durable job runner are not part of this model.
