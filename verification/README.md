# A verified model of the Tyk Identity Broker

The broker logs users in through third-party identity providers and hands them a Tyk token, an OAuth token
or a portal session. This project models the parts of it that compute or keep state, in Dafny, and proves
what they promise. `dafny verify dfyconfig.toml` checks all of it.

| module | what it models |
|---|---|
| `Slug`, `SlugAscii` (over `Runes`, `Sequences`) | the slug loops, their scratch array, the recogniser, UTF-8 (section 3 of RFC 3629) and hexadecimal (section 8 of RFC 4648) |
| `TokenProtocol` | "one token per provider, per user": any number of logins interleaved at their store and API calls, every call free to fail |
| `Overtaking` | the same when no call fails: exactly when an identity keeps one live token |
| `TykHandler`, `OneToken` | the token and OAuth logins themselves, shown to be runs of that protocol; which tokens survive over the in-memory store and over Redis |
| `CacheKeys` | the keys under which identities and path parameters are stored |
| `Portal` | create-or-update of a portal developer and its one-time nonce |
| `Profiles`, `Loaders`, `ProfileActions` (over `Paths`) | the profile registry, its Mongo and file copies, and add/update/delete/load over them |
| `Base64`, `BasicAuth` | reading Basic credentials (section 2 of RFC 7617, section 4 of RFC 4648) and the proxy's OK-response gate |
| `Groups` | SAML attribute flattening, group splitting and mapping |
| `Redis`, `PathParams` | prefixed views of one database, and the provider remembered from begin to callback |
| `ReverseProxy` | copy-on-write removal of hop-by-hop headers on a shared map, X-Forwarded-For |
| `LatencyWriter` | the mutex and channel protocol of the periodically flushing writer |

What is foreign to the broker enters as parameters. The answers of stores, APIs, drivers and file system
are scripted per call (`Env` datatypes) and quantified over, so every pattern of failure is covered. JSON
is a pair of functions (`Encoding.Json`) of which only "what was written is read back" is assumed, and, for
profiles, that what was read can be written. The Unicode tables are
functions of which `Runes.Unicode.Lawful` states what is assumed: their exact ASCII part, that a lowered
letter or number is a letter or number, that lowering twice is lowering once, and that decomposition leaves
ASCII alone. `Slug.SlugTwice` also assumes `Runes.Unicode.Stable`.

## What the proofs say about the code

Where the code and what is promised of it differ, the code is modelled and the exact condition is proved.

- One token per user (README.md:222) holds over the in-memory store and fails over Redis, which is the
  store the policy is documented for. `RedisBackend.SetKey` writes a Go string as it is, `GetKey` decodes
  JSON, so a bare key ID never reads back and is never invalidated (`OneToken.RedisKeepsAll`). For
  failure-free logins of any identities in any order, starting from an empty cache, an identity keeps one
  token exactly when its earlier tokens read back (`OneToken.OneTokenExactlyWhen`); `OneToken.LogInAll` ties
  that to the handler's own calls.
- It also fails for two logins that overlap, although no call fails (`TokenProtocol.OverlapLeavesTwo`). When
  no call fails, an identity is left with at most one live token exactly if none of its logins was overtaken,
  that is, no other stored for it between its lookup and its own store (`Overtaking.OneLiveUnlessOvertaken`).
  With failures, `TokenProtocol.OneTokenBound` says how far it can go: by the logins in flight and the faults.
- A token login stops when its invalidation is unauthorised; an OAuth login goes on and issues a token.
- The portal treats every lookup error but a 401 as "no such developer". Exactly when the developer does
  exist, and the creation is carried out, there are two with the same SSO key (`Portal.UniqueExactlyWhen`).
  A lookup that succeeds with a body that does not decode counts as a developer without an ID; its redirect
  carries a nonce that no record has (`Portal.RedirectCarriesNonceExactlyWhen`).
- Basic credentials with a colon in the password are valid under RFC 7617 but are read as none
  (`BasicAuth.RoundTripExactlyWhen`).
- An add can overwrite a profile: exactly one with the empty ID, by a different one with the empty ID
  (`ProfileActions.AddKeepsExactlyWhen`). The broker's own API cannot send it, since its route needs a
  non-empty ID and `HandleAddProfile` compares it with the body's (main.go:90, api.go:119); only direct
  callers of `tap.AddProfile` can.
- The file loader's flush looks at the first write's error after the second write, and writes to
  `path.Join(ProfileDir, FileName)` while reads go to `FileName`. Those are one file by default (no ProfileDir;
  `./profiles.json` and `profiles.json` are the same) and otherwise, for a FileName without `..`, exactly when
  ProfileDir is what FileName is relative to (`Loaders.FileLoader.SavesWhereItReadsExactlyWhen`). What nil then means is
  `Loaders.FileLoader.NilFlushMeans`; with any simple ProfileDir a new profile is lost with a nil answer
  (`Loaders.NilFlushLoses`). The load returns nil for a file that does not decode.
- A hop-by-hop header whose first value is empty is not removed (`ReverseProxy.HopRemainsExactlyWhen`). One whose
  key is not in canonical form, which Go's server never delivers, can get through when a later one causes the
  copy (`ReverseProxy.HopGetsThroughExactlyWhen`).
- Two profiles share identity-cache keys exactly when their IDs continue one another after a hyphen and
  their providers end in one another after an at-sign (`CacheKeys.KeysMeetExactlyWhen`).
- Two organisations share path-parameter keys exactly when one ID continues the other after a hyphen, and then
  a callback can be given another profile's provider (`PathParams.OthersCanIntrudeExactlyWhen`).
- A SAML attribute without values comes back as the one group "" (`Groups.EmptyAttribute`). With a separator
  other than a space, two or more values never come back as sent (`Groups.GroupsSurviveExactlyWhen`).
- Different texts can have one ASCII slug: a letter outside ASCII and the text of its own hexadecimal
  (`SlugAscii.HexTextCollides`); but for case and separators, that is the only way
  (`SlugAscii.AsciiSlugsAgreeExactlyWhen`).

## Model

| member | source | states |
|---|---|---|
| Slug.Slugify | providers/util_slug.go:26-46 | the one-pass loop computes, for every text, the hyphen-join of the maximal letter/number runs of the decomposed text without its marks, lower-cased |
| Slug.EmitMeaning | providers/util_slug.go:28-44 | started anywhere, inside a run or outside, the loop's trimmed output is the rest of the open run and then the joined later runs |
| Slug.RunsAreTheOnlyDecomposition | providers/util_slug.go:21-25 | however a text is cut into letter/number runs kept apart by non-empty gaps, those runs are the ones the slug joins |
| Slug.RunsDecompose | providers/util_slug.go:21-25 | every text has such a cut |
| Slug.MarksAreSkipped | providers/util_slug.go:35-36 | a mark or modifier that is no letter or number makes no difference to the slug, wherever it stands |
| Slug.SlugOfRuns | providers/util_slug.go:28-44 | the slug of a text without marks: its runs lower-cased rune by rune, joined with 0x2D |
| Slug.SlugOfTwoRuns | providers/util_slug.go:28-44 | rune by rune, what becomes of two runs apart |
| Slug.SlugHasShape | providers/util_slug.go:37-44 | a slug holds lowered letters and numbers and hyphens only; no hyphen leads, trails or follows another |
| Slug.SlugFixedPoints | providers/util_slug.go:26-46 | a text is its own slug if and only if it has that shape |
| Slug.SlugIdempotent | providers/util_slug.go:28-44 | the loop, applied to a slug, gives that slug |
| Slug.SlugTwice | providers/util_slug.go:26-46 | Slug of a slug is that slug, decomposition included, for all texts |
| Slug.SlugKeepsRuns | providers/util_slug.go:21-25 | the runs of a slug are the lowered runs of its text, in order |
| Slug.SlugsAgreeExactlyWhen | providers/util_slug.go:21-25 | two texts have one slug if and only if their runs agree up to case |
| SlugAscii.SlugifyAscii | providers/util_slug.go:52-94 | the loop with its two flags and 12-byte scratch array computes the join of all ASCII and hex-coded non-ASCII blocks |
| SlugAscii.AppendRune | providers/util_slug.go:63-81 | the letter case appends the separator the flags call for and the rune's bytes or hex digits, whatever the scratch array held |
| Runes.EncodeRune | providers/util_slug.go:65 | the front of the scratch array receives the UTF-8 of the rune, at most four bytes, and nothing past the fourth changes |
| Runes.HexEncode | providers/util_slug.go:70 | encoding within one array: source and target do not overlap, stay in bounds, and the target is the hex of what the source held |
| Runes.Utf8Is | providers/util_slug.go:65 | the octets of every rune, by the ranges and bits of section 3 of RFC 3629 |
| Runes.HexIs | providers/util_slug.go:70 | every byte becomes two letters of the RFC 4648 Base 16 table, the upper half first |
| Runes.Utf8PrefixFree | providers/util_slug.go:65 | a byte stream determines the first rune and the rest |
| Runes.Utf8AllInjective | providers/util_slug.go:65 | UTF-8 of a rune sequence determines the sequence |
| Runes.HexInjective | providers/util_slug.go:70 | hexadecimal determines the bytes |
| SlugAscii.HexBlockDetermines | providers/util_slug.go:48-51 | a hex block determines the run of lowered non-ASCII letters it stands for |
| SlugAscii.EmitAsciiTranscribes | providers/util_slug.go:61-89 | from any reachable flags the loop writes what transcribing the plain slug's runes writes |
| SlugAscii.EmitAsciiMeaning | providers/util_slug.go:61-93 | the trimmed emission is the declarative ASCII slug |
| SlugAscii.AsciiSlugTranscribesSlug | providers/util_slug.go:48-51 | the ASCII slug is the plain slug with its remaining non-ASCII runs hex-coded and set off by hyphens |
| SlugAscii.BlocksAreTheOnlyCut | providers/util_slug.go:48-51 | however a run is cut into blocks that alternate between ASCII and the rest, those are the blocks written |
| SlugAscii.AsciiSlugOfTwoBlocks | providers/util_slug.go:66-79 | an ASCII block that meets one outside ASCII, in either order: itself, one hyphen, and the other's UTF-8 in hexadecimal |
| SlugAscii.AsciiSlugHasShape | providers/util_slug.go:48-51 | an ASCII slug is all ASCII and has slug shape |
| SlugAscii.AsciiSlugIsSlugWhen | providers/util_slug.go:48-51 | the two slugs agree if and only if the plain one is all ASCII |
| SlugAscii.IsSlugAscii | providers/util_slug.go:97-113 | the recogniser says yes exactly for non-empty texts of a-z, 0-9 and single inner hyphens |
| SlugAscii.RecogniserIsFixedPoints | providers/util_slug.go:96 | those are exactly the non-empty texts that are their own ASCII slug |
| SlugAscii.AsciiSlugIdempotent | providers/util_slug.go:52-113 | every ASCII slug is empty or recognised, and slugging it again changes nothing, for all texts |
| SlugAscii.AsciiSlugsAgreeExactlyWhen | providers/util_slug.go:48-51 | two texts have one ASCII slug if and only if they have equally many blocks, and each equals its counterpart or one is the hexadecimal of the other |
| SlugAscii.HexTextCollides | providers/util_slug.go:66-71 | a lower-case letter outside ASCII and its own hexadecimal text are different texts with one slug |
| TokenProtocol.StepKeepsInv | tap/identity-handlers/tyk_handler.go:432-475 | every step of every login, failing or not, keeps each live token cached, held by a login, or charged to one fault |
| TokenProtocol.ReachableInv | tap/identity-handlers/tyk_handler.go:420-475 | so it is in every reachable state |
| TokenProtocol.WhereLive | tap/identity-handlers/tyk_handler.go:420-475 | where a live token of an identity can be: the cache, a login in flight for it, or a fault of its logins |
| TokenProtocol.OneTokenBound | tap/identity-handlers/tyk_handler.go:340-475 | in every interleaving, live tokens of an identity number at most 1 + logins in flight + faults |
| TokenProtocol.QuietIdentity | tap/identity-handlers/tyk_handler.go:420-475 | with nothing in flight and no fault, the cached token is the only live one |
| TokenProtocol.StoreLosesExactlyWhen | tap/identity-handlers/tyk_handler.go:433-474 | a store displaces a token if and only if another store for the identity came between this login's lookup and its store |
| TokenProtocol.UndisturbedStoreLosesNothing | tap/identity-handlers/tyk_handler.go:433-474 | in particular, a login whose identity is left alone meanwhile loses nothing |
| TokenProtocol.SinceLookup | tap/identity-handlers/tyk_handler.go:433-474 | from its lookup on a login remembers what it found, that token is never held again, and it stays cached until someone stores |
| TokenProtocol.RefusedNeverAsks | tap/identity-handlers/tyk_handler.go:443-447 | a token login told it is unauthorised never requests a token, however the run goes on |
| TokenProtocol.StepSparesOthers | tap/identity-handlers/tyk_handler.go:424-439 | a step for one identity leaves the cached and live tokens of another alone, if and only if it does not invalidate a live token of the other that its own cached token read back as |
| TokenProtocol.OthersSpareIdentity | tap/identity-handlers/tyk_handler.go:424-475 | nor does any run of such steps change them |
| TokenProtocol.SequentialRunsLoseNothing | tap/identity-handlers/tyk_handler.go:352-475 | logins one after the other never overwrite a token they could have read |
| TokenProtocol.SequentialBound | tap/identity-handlers/tyk_handler.go:352-475 | after such a run, live tokens number at most 1 + failed reads + failed invalidations + replies that did not bring the token + failed stores |
| TokenProtocol.OverlapLeavesTwo | tap/identity-handlers/tyk_handler.go:433-474 | two overlapping logins without any failing call leave two live tokens |
| Overtaking.OneLiveUnlessOvertaken | tap/identity-handlers/tyk_handler.go:352-475 | in every interleaving of logins that do not fail, once all are done, an identity has at most one live token if and only if none of its logins was overtaken by another's store between its lookup and its own |
| Overtaking.OneLiveExactlyWhenNoLoss | tap/identity-handlers/tyk_handler.go:352-475 | and if and only if no store on the way displaced a token |
| Overtaking.CountStep | tap/identity-handlers/tyk_handler.go:433-475 | logins between lookup and store, plus live tokens in nobody's hands, never become fewer |
| Overtaking.LiveExactlyUnfound | tap/identity-handlers/tyk_handler.go:433-475 | after such a run a token is live if and only if no lookup found it |
| TykHandler.TykIdentityHandler.GetKey | tap/identity-handlers/tyk_handler.go:433-434 | the lookup errs unless the text is there and decodes, and is one protocol step |
| TykHandler.TykIdentityHandler.InvalidateToken | tyk-api/tyk_api.go:583-592 | errs on every failure, is unauthorised on a 401 only, and ends a token login then but not an OAuth login; an accepted token is live no more |
| TykHandler.TykIdentityHandler.RequestToken | tyk-api/tyk_api.go:537-581 | an error, or a token that is empty when the reply lacked it though one was made |
| TykHandler.TykIdentityHandler.SetKey | tap/identity-handlers/tyk_handler.go:472-475 | stores the encoded token, or fails with no effect on the flow |
| TykHandler.TykIdentityHandler.InvalidatePrior | tap/identity-handlers/tyk_handler.go:432-450 | lookup and invalidation are exactly the protocol steps that the store's content calls for |
| TykHandler.TykIdentityHandler.NewToken | tap/identity-handlers/tyk_handler.go:452-475 | request and store: a refused or failed request is answered with an error and stores nothing; a token that came is answered and stored |
| TykHandler.TykIdentityHandler.CompleteIdentityActionForTokenAuth | tap/identity-handlers/tyk_handler.go:420-475 | a token login is a run of the protocol; the user is told of bad credentials exactly if a token was found and its invalidation unauthorised, else of the token or of the failed request; the token told is what is stored |
| TykHandler.TykIdentityHandler.CompleteIdentityActionForOAuth | tap/identity-handlers/tyk_handler.go:340-396 | the same for an OAuth login, which never answers bad credentials but goes on |
| TykHandler.StepsEnd | tap/identity-handlers/tyk_handler.go:443-475 | the steps of a login end in an unauthorised invalidation of a token login, or in one request and, if a token came, its store |
| TykHandler.OutcomeTellsSteps | tap/identity-handlers/tyk_handler.go:443-475 | each answer of a login is given exactly for one such end of its steps |
| TykHandler.TykIdentityHandler.OthersKeepTheirs | tap/identity-handlers/tyk_handler.go:424-474 | with no hyphen in profile IDs and no at-sign in providers, a login leaves the cached token of every other identity as it is |
| TykHandler.TykIdentityHandler.LiveTokensBounded | tap/identity-handlers/tyk_handler.go:340-475 | at rest the handler meets the sequential bound for every identity |
| OneToken.LogInAll | tap/identity-handlers/tyk_handler.go:340-475 | a new handler taken through any failure-free token and OAuth logins makes exactly the steps of the clean run, and its live tokens are the survivors |
| OneToken.SurvivesExactlyWhen | tap/identity-handlers/tyk_handler.go:433-475 | a token survives unless its identity comes back and the token reads back |
| OneToken.CleanRunLeaves | tap/identity-handlers/tyk_handler.go:340-475 | after failure-free logins of any identities, kinds and order, exactly those tokens are live that no later login took for its prior one |
| OneToken.OneTokenExactlyWhen | tap/identity-handlers/tyk_handler.go:340-475 | an identity is left with one live token if and only if every token it had before its latest reads back from the store; assuming no token reads back as another one of the run |
| OneToken.InMemoryKeepsOne | backends/in_memory.go:41-82 | over the in-memory store failure-free logins leave every identity one token |
| OneToken.RedisKeepsAll | backends/redis.go:127-159 | over Redis they leave every bare token live |
| CacheKeys.KeysTellUsersApart | tap/identity_handler.go:23-25 | under one profile and provider, different user IDs have different keys, whatever they contain |
| CacheKeys.KeysAsWritten | tap/identity_handler.go:23-25 | the keys of one user spelled out |
| CacheKeys.KeysMeetExactlyWhen | tap/identity-handlers/tyk_handler.go:344-345 | two profile/provider pairs can share a key if and only if both the profile IDs and the providers overlap in the stated way |
| CacheKeys.KeysInjective | tap/identity-handlers/tyk_handler.go:424-425 | with no hyphen in profile IDs and no at-sign in providers, a key determines profile, user and provider |
| CacheKeys.PrefixesMeetOnlyIf | tap/profile.go:69-71 | if two path-parameter keys are equal, so are organisation and profile, or one organisation ID continues the other after a hyphen |
| CacheKeys.PrefixesMeetExactlyWhen | tap/profile.go:69-71 | two organisations can share a path-parameter key if and only if their IDs are equal or one continues the other after a hyphen |
| CacheKeys.PrefixesInjective | tap/profile.go:69-71 | with no hyphen in organisation IDs such a key determines organisation and profile |
| Portal.PortalHandler.GetDeveloperBySSOKey | tyk-api/tyk_api.go:406-416 | a developer with the key if the dashboard answers and has one; an empty one for a success that does not decode; otherwise an error, unauthorised on a 401 |
| Portal.PortalHandler.CreateDeveloper | tyk-api/tyk_api.go:436-452 | adds one record under an unused ID, or nothing; an error may come with either |
| Portal.PortalHandler.UpdateDeveloper | tyk-api/tyk_api.go:419-433 | replaces the one record of that ID, or nothing; an error may come with either |
| Portal.PortalHandler.CompleteIdentityActionForPortal | tap/identity-handlers/tyk_handler.go:259-337 | every login writes nothing or exactly one record: the found one with the nonce and a missing email filled in, or a new one; it redirects exactly when its write is acknowledged |
| Portal.RedirectsExactlyWhen | tap/identity-handlers/tyk_handler.go:264-334 | a login redirects if and only if it has a nonce, is authorised, and its one write, an update of a developer found or else a creation, is acknowledged |
| Portal.RefusedLoginsWriteNothing | tap/identity-handlers/tyk_handler.go:264-324 | a login without a nonce, unauthorised, garbled or refused its write changes nothing |
| Portal.NewDeveloperIs | tap/identity-handlers/tyk_handler.go:290-300 | a created record has the email, organisation, SSO key and nonce of the login and is otherwise empty; nothing else changes |
| Portal.FoundDeveloperIs | tap/identity-handlers/tyk_handler.go:310-319 | a found record gets the nonce, and the email if it had none, and nothing else changes |
| Portal.UniqueExactlyWhen | tap/identity-handlers/tyk_handler.go:277-306 | one developer per SSO key is kept by a login if and only if its lookup did not miss an existing developer |
| Portal.WriteCarriesNonce | tap/identity-handlers/tyk_handler.go:310-332 | after a write the identity's record carries the nonce; identity, keys, subscriptions, fields and any non-empty email are as before; no other record changes |
| Portal.RedirectCarriesNonceExactlyWhen | tap/identity-handlers/tyk_handler.go:277-332 | the nonce of a redirect is on every record of the identity if and only if the lookup neither was garbled nor missed a record, or it was there before |
| Portal.RunsKeepKeysUniqueExactlyWhen | tap/identity-handlers/tyk_handler.go:259-337 | a run of logins keeps at most one developer per SSO key throughout if and only if no lookup of it missed an existing one |
| Portal.RunsCarryLatestNonce | tap/identity-handlers/tyk_handler.go:313-332 | at the end of such a run an identity's record carries the nonce of its latest login that wrote |
| Profiles.InMemoryBackend.Init | backends/in_memory.go:29-38 | an empty registry |
| Profiles.InMemoryBackend.SetKey | backends/in_memory.go:41-55 | fails before Init or when encoding fails; otherwise the registry gains exactly that entry |
| Profiles.InMemoryBackend.DeleteKey | backends/in_memory.go:58-63 | the registry loses exactly that entry |
| Profiles.InMemoryBackend.GetKey | backends/in_memory.go:66-82 | what the registry holds under the key, or an error |
| Profiles.InMemoryBackend.GetAll | backends/in_memory.go:84-101 | in whatever order the map is walked, every profile of the registry once |
| Profiles.FileAllHas | data_loader/mongo_loader.go:61-66 | filing distinct profiles files each of them |
| Profiles.FiledIs | data_loader/mongo_loader.go:61-66 | after a load each key holds the last profile of that ID that encodes, or what was there |
| Profiles.ListingReloads | data_loader/file_loader.go:45-53 | filing any listing of a registry into an empty one, in any order, gives the registry back |
| Loaders.FileInto | data_loader/mongo_loader.go:61-66 | the loading loop files what encodes, in order, and skips the rest |
| Loaders.ListedReload | data_loader/mongo_loader.go:51-70 | any listing of a store, filed into an empty one, reproduces it exactly |
| Loaders.MongoRoundTrip | data_loader/mongo_loader.go:51-115 | a nil flush and a load into an empty store reproduce the store exactly |
| Loaders.FileRoundTrip | data_loader/file_loader.go:27-99 | so do they for files, when the flush writes the file that is read and the write takes; otherwise the load gives what was there before, or what the torn write left |
| Loaders.FileLoader.SavesWhereItReadsExactlyWhen | data_loader/file_loader.go:30-89 | a flush writes the file that a load reads if and only if there is no profile directory, or it is what the file name is relative to |
| Paths.JoinKeepsFileExactlyWhen | data_loader/file_loader.go:89 | joining a directory to a name without ".." names the same file in exactly those cases |
| Paths.SpellingsAgree | data_loader/file_loader.go:30 | "./" in front of a name changes nothing, as in the default profiles file (main.go:47) |
| Loaders.NilFlushLoses | data_loader/file_loader.go:89-97 | with any simple profile directory, a flush answers nil and the new profile is not there on reload |
| Loaders.PartialReload | data_loader/mongo_loader.go:94-112 | a flush broken off at element i loads as i profiles of the registry, none stale or invented |
| Loaders.MongoLoader.LoadIntoStore | data_loader/mongo_loader.go:51-70 | a failed query changes nothing; otherwise the collection is filed |
| Loaders.MongoLoader.Flush | data_loader/mongo_loader.go:83-115 | nil leaves exactly the registry; a failed insertion leaves exactly the profiles before it, and its own if it took effect anyway; a failed deletion leaves what it had not removed |
| Loaders.FileLoader.LoadIntoStore | data_loader/file_loader.go:27-57 | errs only for a file it cannot read; an undecodable file is no error and loads nothing |
| Loaders.FileLoader.Flush | data_loader/file_loader.go:59-99 | errs exactly for a failed read, backup or encoding; the second write's result is ignored; the backup holds the old file, the save the registry, and no other file changes; what a load would read survives every error |
| Loaders.FileLoader.NilFlushMeans | data_loader/file_loader.go:89-97 | what a load reads after a nil flush, and the exact cases in which that lists the registry |
| ProfileActions.Flush | tap/profileActions.go:38-45 | errs exactly when the loader's flush fails; a nil flush that can be relied on leaves the durable copy listing the registry; a failed one leaves the old file, or for Mongo what a failed deletion kept or the first part of a listing |
| ProfileActions.LoadIntoStore | data_loader/file_loader.go:27-57 | errs exactly for a failed query or a file that cannot be read; else what is durable and encodes is filed over the registry, and it is an operation of the abstract registry |
| ProfileActions.AddProfile | tap/profileActions.go:18-48 | which error is answered exactly when; if the write was reached the registry is the old one with the profile under its ID, whether or not the flush failed; else neither memory nor the durable copy changes |
| ProfileActions.UpdateProfile | tap/profileActions.go:50-90 | the same for an update: a mismatched ID, an unknown key, an encoding failure and a failed flush are told apart exactly, and the profile replaces the old one |
| ProfileActions.DeleteProfile | tap/profileActions.go:92-122 | not found exactly if absent; else the key is gone and all else is kept |
| ProfileActions.RunsReplay | tap/profileActions.go:18-122 | over every run with any failures, the registry is the replay of the operations that reached it, and each profile is filed under its own ID |
| ProfileActions.NilRestoresDurability | tap/profileActions.go:38-47 | however many flushes failed before, after an operation that answers nil and whose flush did what nil says, a reload gives the registry of that moment |
| ProfileActions.AddKeepsExactlyWhen | tap/profileActions.go:19-37 | an add that was carried out changed no profile already there, if and only if its ID is not empty, or no other profile had the empty ID |
| ProfileActions.AddInsertsIfAbsent | tap/profileActions.go:19-27 | for non-empty IDs an add inserts if absent, and answers "already exists" exactly if present |
| ProfileActions.EmptyIdIsOverwritten | tap/profileActions.go:21 | two different profiles with the empty ID: the second add replaces the first |
| Base64.DecodeEncode | providers/util_ba_extractor.go:15 | decoding an encoding gives the bytes back, for all byte strings |
| Base64.EncodesQuantum | providers/proxy.go:117 | three bytes become the four letters of the RFC 4648 table that make up their 24 bits |
| Base64.EncodesOne | providers/proxy.go:117 | one byte becomes two letters and two pads, 0x3D |
| Base64.EncodesTwo | providers/proxy.go:117 | two bytes become three letters and one pad |
| Base64.DecodesQuantum | providers/util_ba_extractor.go:15 | four letters of the table become the three bytes of their bits |
| Base64.DecodesOne | providers/util_ba_extractor.go:15 | two letters and two pads become one byte |
| Base64.DecodesTwo | providers/util_ba_extractor.go:15 | three letters and one pad become two bytes |
| Base64.DecodesExactlyWhen | providers/util_ba_extractor.go:15-16 | what decodes, besides line breaks: letters of the table in fours, the last one or two possibly pads |
| Base64.LineBreaksPassedOver | providers/util_ba_extractor.go:15 | carriage returns and line feeds are passed over wherever they stand, and nothing else is |
| Base64.EncodeInjective | providers/proxy.go:117 | an encoding determines the bytes |
| BasicAuth.ExtractFromBasic | providers/util_ba_extractor.go:9-27 | from a well-formed Basic header exactly the credentials are read, or nothing if either holds a colon |
| BasicAuth.ExtractFromBytes | providers/util_ba_extractor.go:9-27 | the same with the bytes of the scheme, the space and the colon written out |
| BasicAuth.ExtractExactlyWhen | providers/util_ba_extractor.go:12-22 | for every header, credentials are read if and only if it is two fields of which the second decodes to them around the one colon |
| BasicAuth.Example | providers/util_ba_extractor.go:9-27 | "Basic dTpwdw==" is read as "u" and "pw" |
| BasicAuth.RoundTripExactlyWhen | providers/util_ba_extractor.go:18-22 | the credentials sent are those read if and only if neither holds a colon |
| BasicAuth.ExtractIsSound | providers/util_ba_extractor.go:9-27 | any credentials read come from a header of two fields whose second decodes to them, joined by a colon |
| BasicAuth.GateIsExact | providers/proxy.go:115-133 | with no response configured all bodies pass; else the one it encodes, if it is an encoding, and no other |
| BasicAuth.GateMatchesBody | providers/proxy.go:116-132 | configured with the encoding of a body, the gate passes exactly that body |
| Groups.FlattenValues | providers/saml.go:311-315 | the string builder, trimmed, holds the values joined with single spaces |
| Groups.FlattenStatement | providers/saml.go:308-317 | the attributes of one statement, on top of those before |
| Groups.FlattenAttributes | providers/saml.go:304-318 | the claims of an assertion: those of all its attributes in order |
| Groups.LastAttributeWins | providers/saml.go:310-315 | the claim of a name is the join of the values of its last attribute |
| Groups.ClaimsAreAttributes | providers/saml.go:308-315 | there are claims of the names of attributes and no others |
| Groups.GroupsStringer | tap/identity-handlers/tyk_handler.go:210-232 | a list is taken as it is; a text is cut into pieces that hold no separator, a space unless one is configured, and join to the text again |
| Groups.GetGroupId | tap/identity-handlers/tyk_handler.go:545-581 | the images of exactly the mapped groups, in the order of the groups; the default group, or none if there is none, when the field, the claim or every mapping is missing |
| Groups.MappedIsImage | tap/identity-handlers/tyk_handler.go:570-574 | an ID is granted if and only if some group of the user maps to it |
| Groups.SplitFlattened | tap/identity-handlers/tyk_handler.go:226-230 | with spaces as separator, splitting a flattened attribute yields the words of its values, in order |
| Groups.GroupsSurviveExactlyWhen | providers/saml.go:304-318 | for every separator, the exact condition under which groups come back as sent: for spaces, some and no space in any; for others, one group without the separator |
| Groups.SamlGroupsAsListed | tap/identity-handlers/tyk_handler.go:552-581 | for such groups the group IDs are those of mapping the list itself |
| Groups.EmptyAttribute | providers/saml.go:310-315 | an attribute without values comes back as one empty group |
| Redis.CleanFix | backends/redis.go:202-212 | cleaning undoes fixing, for every key and prefix |
| Redis.CleanKeyIs | backends/redis.go:202-204 | what is cleaned is the first occurrence of the prefix, wherever it stands; a name without it stays |
| Redis.RedisBackend.SetKey | backends/redis.go:127-145 | writes one prefixed entry of the shared database, or nothing |
| Redis.RedisBackend.GetKey | backends/redis.go:147-159 | after any operations of backends whose prefixes do not clash, what a database of its own would return |
| Redis.RedisBackend.DeleteKey | backends/redis.go:206-208 | removes one prefixed entry, or nothing |
| Redis.PrefixesClashExactlyWhen | backends/redis.go:210-212 | two prefixes have a database key in common if and only if one is a prefix of the other |
| Redis.BackendsAreIndependent | backends/redis.go:127-212 | over every run of operations, a backend sees what it would see with a database of its own |
| Redis.BrokerPrefixesAreApart | initializer/initializer.go:23 | the identity cache and the path-parameter store (main.go:53) do not clash |
| PathParams.SetPathParams | tothic/tothic.go:79-104 | renames ":provider" to "provider" in the caller's map, and saves the "id" and "provider" it then holds under the profile's key, if they encode |
| PathParams.RenamedAgain | tothic/tothic.go:81-85 | beginning again with the edited map chooses the same provider |
| PathParams.GetProviderName | tothic/tothic.go:273-283 | a provider if and only if the stored text decodes to one that is not empty; after any run of begins and token traffic that is the one of the profile's latest saved begin |
| PathParams.CallbackSeesLatestSaved | tothic/tothic.go:79-110 | the callback sees the parameters of the latest begin saved under its key, whatever other profiles and the token cache do meanwhile |
| PathParams.CallbackSeesLatestBegin | tothic/tothic.go:79-110 | that is its own profile's, if no other organisation ID continues its own after a hyphen or the other way round |
| PathParams.OthersCanIntrudeExactlyWhen | tap/profile.go:69-71 | a saved begin can be overridden by one of another organisation if and only if one ID continues the other after a hyphen |
| ReverseProxy.CopyHeader | providers/reverse_proxy.go:88-94 | every value of every key is added under its canonical key, in the order the source map is walked; for canonical keys that order does not matter |
| ReverseProxy.CopyGathers | providers/reverse_proxy.go:88-94 | a copy holds under each key the values of all keys with that canonical form |
| ReverseProxy.ScrubHopHeaders | providers/reverse_proxy.go:185-195 | the shared map is never changed; it is sent on itself if and only if no hop header is visible, else a fresh copy without them |
| ReverseProxy.ScrubbedIsClean | providers/reverse_proxy.go:96-107 | no hop header can be got from what is sent on; every other header keeps its values in order |
| ReverseProxy.HopHeadersAre | providers/reverse_proxy.go:98-107 | which eight headers those are |
| ReverseProxy.HopRemainsExactlyWhen | providers/reverse_proxy.go:187 | for canonical keys, a hop header stays in the map if and only if its first value is empty, or it has none and nothing was copied |
| ReverseProxy.HopGetsThroughExactlyWhen | providers/reverse_proxy.go:185-195 | for any keys, the one case in which a hop header can still be got from what is sent on |
| ReverseProxy.OthersGetThrough | providers/reverse_proxy.go:185-195 | for any keys, every other header is as in the shared map, or as the copy gathered it |
| ReverseProxy.PrepareHeaders | providers/reverse_proxy.go:185-205 | what is sent on, for any keys; X-Forwarded-For reaches the caller's map exactly when no copy was made |
| ReverseProxy.ForwardedAppends | providers/reverse_proxy.go:197-205 | the client is appended to the prior chain, folded into one value; no other header changes |
| ReverseProxy.BackendSees | providers/reverse_proxy.go:180-207 | the backend gets no hop header, the extended chain, and all other headers untouched |
| LatencyWriter.ReachableInv | providers/reverse_proxy.go:279-303 | mutex ownership, delivery and shutdown stay in step in every interleaving |
| LatencyWriter.NoOverlapInOrder | providers/reverse_proxy.go:258-300 | a write and a flush never overlap; what has arrived is a first part of what was to be written, and all of it between writes unless one fell short |
| LatencyWriter.NothingAfterStop | providers/reverse_proxy.go:288-303 | nothing happens, and no flush starts, after stop has returned |
| LatencyWriter.WriteCanStart | providers/reverse_proxy.go:279-300 | from any state between writes, a few steps of the flush loop free the mutex |
| LatencyWriter.StopCanReturn | providers/reverse_proxy.go:285-303 | from any state in which stop is blocked, a few steps let it return |
| LatencyWriter.StopNeverHangs | providers/reverse_proxy.go:303 | no reachable state has stop blocked with the loop gone, and stop can return within five steps |
| LatencyWriter.OnlyTicksDelayStop | providers/reverse_proxy.go:288-300 | while stop waits, every fifth step is a tick the select took although the stop was ready; nothing else delays it |

## Left out

- Slug.SlugIdempotent: is about the loop alone; `Slug.SlugTwice` adds the decomposition.
- LatencyWriter.StopNeverHangs: says that stop can return; that it does, needs a select that does not prefer ticks forever (`LatencyWriter.OnlyTicksDelayStop`).
- TykHandler.TykIdentityHandler.SetKey: a write that errs although it took effect is the successful step here, as the logins ignore the error; so is an invalidation that does, as they go on alike.
- OneToken.OneTokenExactlyWhen: starts from an empty cache, and leaves out stores in which one token of the run reads back as another; `OneToken.CleanRunLeaves` covers those.
- Portal.PortalHandler.UpdateDeveloper: an update of the developer without an ID, which follows a body that did not decode, is taken to change no record.
- Loaders.MongoLoader.Flush: the driver is taken to report "no rows" only for an empty collection.
- Strings are sequences of characters, slug texts sequences of Unicode scalar values; invalid UTF-8 in a Go string is not modelled.
- The Unicode tables and decomposition are abstract, under the assumptions in `Runes.Unicode.Lawful`.
- JSON is an abstract pair of functions per entity; case-insensitive field names and profile fields that JSON drops are not modelled.
- Mongo, Redis, the file system, the gateway and the dashboard are maps and sequences whose operations may fail; a torn file is an arbitrary text; a file is known by its path from the root, however spelled, and links are not modelled.
- Locks of the in-memory backend and concurrent profile API calls: check-then-write is not atomic, so registry properties are about sequential runs.
- `MongoBackend`, Redis as a profile registry (`GetAll`, `GetKeys`, and the string case of the Mongo flush): listing Redis returns keys, not profiles.
- Stored texts that decode to a profile which cannot be encoded again: excluded by `Encoding.Json.Closed`.
- Developer passwords and creation dates: random or clock values that JSON does not send back.
- Nonce creation is a parameter; its regular and admin endpoints, and the dashboard login, are single calls.
- A portal login without a return URL reports success instead of redirecting; both are one outcome here.
- User ID, email, name and custom-claim fallbacks: single lookups. A claim that is neither text nor list of texts stops the original and is not modelled.
- Trailers, response headers, `singleJoiningSlash`, `runOnFirstRead` and request cancellation of the reverse proxy; the proxy provider's status and regex checks.
- LDAP, social providers, SAML validation, JWE decryption, certificates, HTTP routing and configuration: foreign calls or plumbing.
