# Verified model of the raemote server

raemote lets paired phones reach web apps on a machine over authenticated connections. This project
models the four parts of the server whose correctness does not depend on the network libraries, and
proves properties of them that hold over every input, every run and every interleaving.

**Pairing and trust** (`Trust.dfy`, `TrustStore.dfy`, `AuthState.dfy`, `PairingLink.dfy`). `Trust` is
the state machine behind the pairing token, the one-time invitations, the failure counter, the trusted
devices and their names; its theorems quantify over whole runs. `AuthState` is the mutable object, a
class whose methods are each proved to perform one step of that machine and which carries its whole
history, so the theorems about runs apply to the object. `TrustStore` is the file of trusted devices;
it separates the section under the lock from the calls that later create, fill and rename the
temporary file, so that saves may overlap and fail at any call. `PairingLink` prints the link, parses it and sends the token back.

**Serving** (`LimiterCache.dfy`, `Admission.dfy`, `Upgrade.dfy`). `LimiterCache` is a transition system
with one step per atomic load, lock, locked section and write, for any number of lookups and config
reloads. Its invariant needs a history variable, the config version in force at each bump of the
generation, because a late lookup may store an older generation back. `Admission` counts connections
and concurrency permits under any interleaving, and `CapHoldsWithoutReload` composes the two protocols.
`Upgrade` reads a response head from arbitrarily cut reads.

**Discovery to catalog** (`Listeners.dfy`, `Discovery.dfy`, `Catalog.dfy`, with `Sorting.dfy`).
Filtering and merging of the socket table, the cache that is reconciled while probes finish in any
order, and the naming of the published catalog, up to `PublishedAreFound`, which runs through all
three. An arbitrary order (probe completion, iteration of a hash map) is an unconstrained choice in
the methods, so what they ensure holds for every order.

**Parsers and printers** (`Origins.dfy`, `SocketTable.dfy`, `Names.dfy`, with `Text.dfy`). Origins and
their text, the hide list, the kernel's socket table and the three text normalizers, each loop proved
equal to a closed form whose canonical shape, length bound and idempotence are proved.

Instants are nanoseconds of a monotonic clock. The random draws, the clock, the answers of probes, the
success of writes and the choice of what counts as a real page are arguments.

What the proofs found out about the code:

- A fixed pairing token with `&` in it, or with blanks around it, passes `src/config.rs:365-369` but no
  scanned link can pair with it (`PairingLink.PairingEndToEnd` gives the exact condition,
  `PairingLink.UnpairableTokens` two such tokens).
- All saves of the trusted devices share one temporary file. When two of them are between creating and
  renaming it at once, the stored file can become empty although memory never was, and a save that
  reports failure can replace it (`TrustStore.ConcurrentSavesLoseAll`, `TrustStore.FailedSaveReplaces`).
  One save at a time, the file always holds a set that memory once held (`TrustStore.DiskWasHeld`), and
  the rule can be dropped at no point (`TrustStore.OverlapEmpties`).
- Even then, when the saves of a bind and a revocation land in reverse order, the file keeps the revoked
  device and a restart trusts it again (`TrustStore.ReversedSavesResurrect`). `TrustStore.FileIsCurrent`
  says exactly when the file is current; that the newest snapshot lands last suffices.
- A stream that has passed the trust check when its device is revoked is still opened, at most one for
  each connection (`Admission.RevokedOpensNothing`, `Admission.LateStreamOpens`).
- A manual app whose name is not a path segment, such as one with a slash, a question mark or a blank,
  passes `src/config.rs:407-415` but no request path reaches it (`Catalogs.RouteReaches`,
  `Catalogs.UnreachableApps`).
- Hiding and then unhiding an origin restores the exclude list exactly for canonical origins and for no
  others (`Origins.HideThenUnhide`); everything discovery emits is canonical.
- A slug can be 49 characters long, one above the loop's limit of 48 (`Names.SlugCanReach49`).
- A panicked probe is the only way for a candidate to appear in neither the cache nor the report, and
  for a cached app to outlive its recheck period (`Discovery.EachCandidateOnce`,
  `Discovery.VerifiedRecently`).
- The comment at `src/discovery/listener.rs:233` says the skipped sockets are sorted by port; the code
  at line 342 sorts them by the text of their address, and so does the model.

## Model

| member | source | states |
|---|---|---|
| Trust.Provenance | src/auth.rs:270-518 | after any run the trusted set is exactly what the history says: loaded and never revoked, or admitted by a bind with a live credential after the last revocation |
| Trust.TrustIsPaired | src/auth.rs:364-500 | every trusted device was loaded and not revoked, or bound after its last revocation with a value this run had minted (and not replaced) or issued (and not yet spent), before its deadline |
| Trust.AdmissionIssued | src/auth.rs:442-481 | a credential that is live at some point of a run goes back to an earlier mint or invitation of the same run whose deadline is ahead |
| Trust.Isolation | src/auth.rs:270-323 | no sequence of operations on other devices changes a device's trust or name |
| Trust.RenameShows | src/auth.rs:301-323 | a rename of a trusted device shows the sanitized name, or none, until it is renamed again or revoked, whatever happens in between |
| Trust.NamesClean | src/auth.rs:301-315 | any name a run shows was loaded at the start or is in sanitized form |
| Trust.RunKeepsInv | src/auth.rs:193-500 | over every run named devices are trusted ones, and the failure counter never overflows 32 bits |
| Trust.LedgerHolds | src/auth.rs:391-481 | issued values are outstanding, spent, or lapsed because an operation read the clock past their deadline |
| Trust.InvitationsConserved | src/auth.rs:391-481 | invitations issued = outstanding + redeemed + lapsed, in every run with distinct draws |
| Trust.RedeemedOnce | src/auth.rs:460-481 | no invitation is redeemed twice in any run |
| Trust.OutstandingBounded | src/auth.rs:391-423 | outstanding invitations never exceed max(cap, 1) |
| Trust.LockoutBound | src/auth.rs:483-508 | one minted token takes at most (k+1)(M-1)+1 rejected attempts, k being the fresh binds meanwhile |
| Trust.RevokedTokenIsDead | src/auth.rs:489-496 | after `Revoked` that value binds nobody as a pairing token until it is minted again, whatever else is minted, and nobody at all unless it is or becomes an invitation |
| Trust.StaysNotPending | src/auth.rs:442-458 | a value that is not the pending token is never answered `Bound` before it is minted itself |
| Trust.StaysLockedOut | src/auth.rs:442-488 | a value that is neither pending nor an invitation binds nobody in any run that does not mint or issue this very value |
| TrustStore.LoadAuthorized | src/auth.rs:520-541 | the line loop yields the set of readable ids; missing file, blank and malformed lines as in the source |
| TrustStore.SaveThenLoad | src/auth.rs:520-551 | loading what was saved gives the saved set, in whichever order it was listed |
| TrustStore.PlayOrderly | src/auth.rs:543-551 | with the temporary file created, filled and renamed by one save at a time, the file is always exactly the snapshot renamed last, through failures at any call |
| TrustStore.DiskWasHeld | src/auth.rs:543-551 | so, however operations and saves overlap otherwise, the file always loads as a set that memory once held |
| TrustStore.OverlapEmpties | src/auth.rs:546-549 | that rule cannot be dropped at any point: whenever one save is at work and another waits, some continuation lets the file load as empty |
| TrustStore.ConcurrentSavesLoseAll | src/auth.rs:546-549 | a concrete run of two binds after which the file trusts nobody, a set memory never held |
| TrustStore.FailedSaveReplaces | src/auth.rs:547-549 | the save that was overtaken fills the file already in place and fails at its own rename |
| TrustStore.FileIsCurrent | src/auth.rs:270-294 | file equals memory if and only if the operations since the snapshot that landed last left the authorized set as it was |
| TrustStore.NewestIsDurable | src/auth.rs:285-294 | it suffices that the newest snapshot landed last, whatever became of the others |
| TrustStore.InOrderIsDurable | src/auth.rs:285-294 | when every save lands in lock order, the newest snapshot is the set in memory, and with none in flight the file holds exactly it |
| TrustStore.ReversedSavesResurrect | src/auth.rs:452-456 | a concrete run, one save at a time but in reverse order, that leaves a revoked device in the file |
| AuthState.XorZero | src/auth.rs:596-598 | the exclusive or of two bytes is zero exactly when they are equal |
| AuthState.ConstantTimeEq | src/auth.rs:591-600 | the fold accepts exactly equal byte strings |
| AuthState.SameText | src/auth.rs:449-450 | comparing the bytes of two texts decides equality of the texts |
| AuthState.AuthState.LoadAt | src/auth.rs:193-219 | the loaded object: devices from the file, names restricted to them, no credentials |
| AuthState.AuthState.IsAuthorized | src/auth.rs:511-517 | yes exactly for the devices the object's history trusts |
| AuthState.AuthState.SetMaxAttempts | src/auth.rs:222-224 | performs the machine's step and extends the history |
| AuthState.AuthState.MintTokenWith | src/auth.rs:364-386 | performs the mint step, with the fixed or the drawn value and the clamped lifetime |
| AuthState.AuthState.MintInvitation | src/auth.rs:391-423 | performs the invite step: prune, refuse at the cap, insert |
| AuthState.AuthState.MatchInvitation | src/auth.rs:460-467 | scanning all invitations in any order finds exactly the presented value |
| AuthState.AuthState.BindLocked | src/auth.rs:430-500 | the locked section performs the bind step and lists the set exactly when it has to be saved |
| AuthState.AuthState.Authenticate | src/auth.rs:429-500 | performs the bind step; allowed exactly when the device is trusted afterwards; a successful save leaves the set of memory on disk |
| AuthState.AuthState.SaveAuthorized | src/auth.rs:543-551 | a save that overlaps no other leaves a file that loads as the listed set, or the old file when it fails |
| AuthState.AuthState.RevokeLocked | src/auth.rs:271-285 | the locked section performs the revoke step and lists the set exactly when it has to be saved |
| AuthState.AuthState.Revoke | src/auth.rs:270-296 | performs the revoke step, saves both files, and tells whether the device was trusted |
| AuthState.AuthState.SetDeviceName | src/auth.rs:301-323 | performs the rename step and saves the names, or refuses an untrusted device |
| AuthState.AcceptBind | src/bind.rs:53-110 | no answer and no change without a permit, without a complete read in time, or over 512 bytes; otherwise the decoded and trimmed request is authenticated, and a delivered reply is `OK` exactly when the device is trusted |
| PairingLink.ParseBindUri | examples/client.rs:224-242 | the pair loop: last value wins, unknown keys ignored, errors as in the source |
| PairingLink.LinkRoundTrip | src/auth.rs:72-77 | a printed link parses back to its node and token exactly when the token has no `&` |
| PairingLink.PairingEndToEnd | src/bind.rs:76-93 | scanning the link of a live token binds a new device exactly when the token has no `&`, is trimmed and fits the request limit |
| PairingLink.DrawnTokensPair | src/auth.rs:368-371 | every randomly drawn token satisfies that condition |
| PairingLink.UnpairableTokens | src/config.rs:365-369 | a token with an ampersand and one with a leading blank that the configuration check accepts and that fail the condition |
| LimiterCache.PlayKeepsInv | src/http.rs:165-198 | the invariant tying generations, config versions, cached limiters and both locks holds in every interleaving |
| LimiterCache.LookupIsCurrent | src/http.rs:165-198 | a lookup returns a limiter built from a config at least as new as that of any reload finished when it began |
| LimiterCache.ReloadKeepsInv | src/daemon.rs:150-162 | writing the config and then bumping the generation keeps the invariant for all lookups under way |
| LimiterCache.OneLimiterPerDevice | src/http.rs:186-198 | without a reload, two lookups get the same limiter exactly when they are for the same device, built from the config in force |
| LimiterCache.NeverStuck | src/http.rs:170-186 | the mutex and the reader lock cannot deadlock |
| Admission.PlayKeepsInv | src/http.rs:209-273 | in every interleaving, permits available plus permits held equal the cap configured for the version a limiter was built from |
| Admission.CapHolds | src/http.rs:218-273 | no limiter serves more streams than its config allows; the counter equals the live connections and never wraps |
| Admission.CapHoldsPerDevice | src/http.rs:229-264 | when a device's connections share a limiter the cap bounds the device over all of them |
| Admission.CapHoldsWithoutReload | src/http.rs:186-264 | with the limiters the cache hands out while nothing is reloaded, each device stays within the configured number of concurrent streams |
| Admission.RevokedOpensNothing | src/http.rs:219-250 | a revoked device opens no further stream until trusted again, except at most one for each connection that had passed the check when the trust went |
| Admission.LateStreamOpens | src/http.rs:238-250 | that exception is real: a revocation between the check and the spawn comes too late |
| Admission.RevokedConnectionCloses | src/http.rs:232-245 | in any run, a revoked device's connection on which a stream arrives is over from then on |
| Upgrade.FindTerminator | src/http.rs:610-612 | finds the end of the first CRLFCRLF, or none exactly when there is none |
| Upgrade.ReadHead | src/http.rs:596-661 | however the stream is cut, the head ends at its first CRLFCRLF and leftover plus unread is exactly what follows; both failures are given exactly when no head completes in time |
| Upgrade.AcceptedHowever | src/http.rs:609-620 | heads up to 65537 bytes are accepted under every cut, those over 66560 under none |
| Origins.AuthorityRoundTrip | src/discovery/model.rs:55-109 | `parse_authority` inverts `authority` exactly on canonical origins |
| Origins.AuthorityInjective | src/discovery/model.rs:55-61 | different origins have different texts |
| Origins.EmittedIsCanonical | src/discovery/model.rs:67-74 | every origin discovery can emit, for any IPv4 or IPv6 bind address, is canonical and reads back |
| Origins.Hide | src/bin/raemote.rs:1304-1320 | adds the origin's text unless an entry already names it |
| Origins.Unhide | src/bin/raemote.rs:1342-1353 | drops every entry that names the origin and tells whether there was one |
| Origins.HideThenUnhide | src/bin/raemote.rs:1304-1353 | hiding and unhiding restores the list exactly, if and only if the origin is canonical |
| SocketTable.ParseIp | src/discovery/proc_sockets.rs:66-84 | the buffer filled word by word holds the little-endian bytes of all words, or nothing on any error |
| SocketTable.ParseTable | src/discovery/proc_sockets.rs:39-64 | the row loop skips the header and keeps exactly the rows that read as listening addresses |
| SocketTable.TableRoundTrip | src/discovery/proc_sockets.rs:35-64 | parsing a table rendered the kernel's way gives exactly its LISTEN rows with a port, in order, with the original address bytes |
| Names.SanitizeDeviceName | src/auth.rs:103-129 | the loop with its cap equals the closed form |
| Names.DeviceNameCanonical | src/auth.rs:99-129 | canonical spacing, 1 to 64 characters, no control characters, visible characters kept in order and all of them when they fit, idempotent |
| Names.DeviceNameCleared | src/auth.rs:103-129 | no name results exactly when nothing visible was supplied |
| Names.NormalizeName | src/discovery/probe.rs:296-319 | the loop with its cap equals the closed form |
| Names.TitleCanonical | src/discovery/probe.rs:296-319 | canonical spacing, 1 to 120 characters, visible characters kept in order and all of them when they fit, idempotent |
| Names.Slugify | src/catalog.rs:166-184 | the loop with its pending dash equals the closed form |
| Names.SlugCanonical | src/catalog.rs:158-184 | lower-case runs joined by single dashes, at most 49 characters, all letters and digits kept when they fit, idempotent |
| Names.SlugCanReach49 | src/catalog.rs:169-182 | the bound of 49 is reached |
| Listeners.FilterListeners | src/discovery/listener.rs:275-347 | the loop with its `seen` set and both sorts yields the specified outcome |
| Listeners.FilterAccounts | src/discovery/listener.rs:275-347 | candidates and skips are, as multisets, one record for each listening TCP socket with a port, with its first reason; candidates have distinct origins ordered by port; a duplicate's origin is a candidate's |
| Listeners.CandidatesAreAccepted | src/discovery/listener.rs:316-337 | the candidates are exactly the first passing sockets of their origins, with process and pid |
| Listeners.MergeUnattributed | src/discovery/listener.rs:243-264 | appends exactly the unknown sockets, without process and pid |
| Listeners.MergeKeepsCandidates | src/discovery/listener.rs:243-347 | merging neither displaces nor alters a candidate, through the dedupe and the stable sort |
| Listeners.HideHides | src/discovery/listener.rs:62-74 | adding a reported origin's text to the exclude list drops exactly that candidate |
| Listeners.ExcludedNotCandidate | src/discovery/listener.rs:323-327 | an excluded origin is no candidate's |
| Discovery.DiscoveryEngine.ScanOnce | src/discovery/mod.rs:92-217 | the cycle in all its branches: cache, report, catalog and generation, for every completion order |
| Discovery.DiscoveryEngine.Reconcile | src/discovery/mod.rs:139-212 | retaining, probing and collecting in any order ends in the order-free cache, and the failures are those of the due candidates |
| Discovery.DiscoveryEngine.DueCandidates | src/discovery/mod.rs:143-154 | selects exactly the new or expired candidates, in order |
| Discovery.DiscoveryEngine.CollectProbes | src/discovery/mod.rs:171-211 | whatever finishes next, each due candidate is settled once and nothing else is touched |
| Discovery.DiscoveryEngine.Finish | src/discovery/mod.rs:171-210 | one finished probe inserts, removes or leaves the entry and reports accordingly |
| Discovery.DiscoveryEngine.RebuildCatalog | src/discovery/mod.rs:219-226 | publishes the catalog of the cached apps in the map's order and bumps the generation |
| Discovery.OneCatalog | src/discovery/mod.rs:219-226 | which catalog that is depends on the cached apps only, not on iteration order or verification times |
| Discovery.EachCandidateOnce | src/discovery/mod.rs:139-212 | each candidate is in exactly one of cache and failure report, except exactly a panicked probe of an uncached one; an entry with its address is its own failure and is listed once |
| Discovery.VerifiedRecently | src/discovery/mod.rs:143-195 | cached origins are live; an entry outlives the recheck period exactly when its due probe panicked |
| Discovery.IncrementalIsScratch | src/discovery/mod.rs:143-212 | an incremental scan ends with the apps of a full one exactly when every candidate is unchanged |
| Discovery.SteadyRunIsScratch | src/discovery/mod.rs:73-217 | over any steady run of scans, failures and switches, each scan publishes what probing afresh would |
| Discovery.PublishedAreFound | src/discovery/mod.rs:92-226 | a scan from an empty cache publishes exactly the apps probing the accepted sockets finds, with title, process and pid, less the manually shadowed |
| Discovery.HiddenStaysOut | src/discovery/listener.rs:323-327 | an excluded origin appears in the next catalog only as a manual app |
| Catalogs.Pigeonhole | src/catalog.rs:193-201 | at most as many names tried for one app can be taken as there are used names |
| Catalogs.FirstFree | src/catalog.rs:186-202 | the first free name exists within that bound |
| Catalogs.UniqueName | src/catalog.rs:186-202 | the counter loop terminates and takes the first free of base, base-port, base-port-2, ... |
| Catalogs.Rebuild | src/catalog.rs:72-119 | both loops and the sort build the specified catalog |
| Catalogs.OrderFree | src/catalog.rs:92-101 | every order of the discovered apps gives the same catalog |
| Catalogs.LowerAppsDecide | src/catalog.rs:92-116 | the entries before an origin depend only on the manual apps and the apps before it |
| Catalogs.AddingKeepsNames | src/catalog.rs:92-116 | adding an app changes no entry with a smaller port and host |
| Catalogs.Covers | src/catalog.rs:72-119 | manual apps first and in order, then each unshadowed discovered app as often as found, sorted, with its details |
| Catalogs.ShownApps | src/catalog.rs:103-116 | an app is shown exactly when discovered and not shadowed by a manual one |
| Catalogs.NamesDistinct | src/catalog.rs:72-119 | all names are distinct exactly when the manual names are |
| Catalogs.FindApp | src/catalog.rs:127-129 | the search returns the first entry of that name |
| Catalogs.FindsEach | src/catalog.rs:127-129 | with distinct names each entry is found under its own name |
| Catalogs.RouteSplits | src/http.rs:358-361 | `/app/{name}/{rest}` splits back into name and rest exactly when the name has no slash |
| Catalogs.ReachableIsSegment | src/http.rs:358-366 | with distinct names, an app is reached by some request path if and only if its name is a path segment of section 3.3 of RFC 3986 |
| Catalogs.RouteReaches | src/http.rs:358-366 | so every discovered app is reached, by all of its paths and with their rest, and a manual app exactly when its name is a path segment |
| Catalogs.SlashedNameUnreachable | src/http.rs:358-366 | an app whose name has a slash is reached by no path, well-formed or not |
| Catalogs.UnreachableApps | src/config.rs:407-415 | four manual apps that the configuration check accepts and no request path reaches |

## Left out

- TrustStore.DiskWasHeld: the text of one save is written in one call or breaks off once; changing the file mode and a crash of the file system itself are not modelled.
- TrustStore.LoadAuthorized: a node id is 64 hexadecimal digits; the base32 form and the check that the bytes are a curve point belong to the key library.
- AuthState.AuthState.SaveAuthorized: one save from beginning to end; overlapping saves are the subject of TrustStore.
- AuthState.AcceptBind: the decoding of malformed UTF-8 is an arbitrary function; a timeout shows as a read that did not complete or a reply that was not delivered, and the grace period after the reply is left out.
- PairingLink.ParseBindUri: as for TrustStore.LoadAuthorized, node ids in base32 are not read.
- PairingLink.LinkRoundTrip: a node id is 32 bytes printed in hexadecimal; the base32 form and the check that the bytes are a curve point belong to the key library.
- LimiterCache.LookupIsCurrent: sequentially consistent steps, where the source uses relaxed atomics; the attempt limit that a reload also sets is not part of that protocol.
- Admission.CapHoldsWithoutReload: each lookup of the limiter cache runs on a thread of its own, so that all their results can be told.
- Admission.CapHolds: the rate limiter is a wait of arbitrary length; upgrade tunnels outlive `serve_stream` and are not counted.
- Upgrade.ReadHead: what is done with the status line and the headers, and the tunnel's other direction.
- Listeners.HideHides: the built-in port and process tables are part of the lists passed in, not spelled out.
- SocketTable.ParseTable: reading the two kernel files and joining their results.
- Discovery.DiscoveryEngine.ScanOnce: the probe itself, its concurrency limit and the credibility rule; a probe is an arbitrary answer at an arbitrary time.
- Catalogs.RouteReaches: request paths are those RFC 3986 allows; what an HTTP library lets through beyond them, and the proxying behind the route.
- Names files, configuration files and the catalog's JSON: serialization by libraries; a names file is a map.
- Waiting for a requested scan (`DiscoverNow`, `DiscoverReport`, `/_hub/discover`): a scan already under way can satisfy the wait, so there is no clean freshness statement.
- Title extraction, response parsing and redirects of a probe, header and location rewriting: dominated by library behaviour.
- The default device name, status queries, logging, the command line, the instance lock and shutdown.
