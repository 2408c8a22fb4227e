# Dafny model of dwpk

dwpk gives each person a Kubernetes namespace with workspaces in it: a controller reconciles the custom
resources, a web UI edits them, a gateway opens sessions into running workspaces. This project models the
protocols underneath, with the API server as a map from names to objects that offers atomic create, get,
list, delete and merge patch, and proves what holds over every run of them.

| module | what it is about |
|---|---|
| `MergePatch` | `client.MergeFrom` patches: the flat algebra on data maps, the recursive one on JSON documents (section 2 of RFC 7396), and when the first stands for the second |
| `Common` | optional values, instants and the symbolic digest |
| `Ordering`, `Text` | sorted permutations, string order, the string helpers of Go's standard library |
| `GitSsh` | the encrypted key Secret the UI edits, and the decrypted Secret the controller derives from it |
| `SessionStore`, `LoginFlow`, `OAuthLogin` | sessions with sliding expiry, the login flow at the granularity of its lock sections, one-shot OAuth challenges |
| `LocalUsers`, `Bootstrap`, `ResetStore`, `TokenStore` | local accounts, the install hook that may race and crash, reset links, API tokens |
| `WorkspaceStatus`, `RoleGrants`, `Selection`, `RegistrySync` | the reconcilers: status with two writers, administrator grants, registry selection, sync and prune |
| `People`, `Pagination`, `Slug` | the people table, paging and its links, catalog names |

How it is written. An object the source mutates is a class; its methods carry the loops and are proved equal
to specification functions on values. Concurrency is a state machine: `Step` takes one atomic action (one API
call or one lock section, with at most one clock reading), `Run` folds it over any sequence of events, and the
theorems quantify over all of them. An event that is not enabled changes nothing, so every sequence is a run;
a request that fails or dies is one that takes no further step. In the methods, failing API calls are
parameters (`faults`, `listFails`, `createFails`, ...), and the contract says what each leaves behind. Clock
readings, random values and remote answers are parameters too. AES-GCM, bcrypt and SHA-256 are symbolic: a sealed value opens under its own key
only, a hash verifies the password it was made from, no two plaintexts share a digest. RE2 matching is any
relation, and deriving Secret, entry and binding names is any function wherever a proof does not need more,
so nothing rests on those names being injective. Protocols patch flat maps; `GitSsh.PatchOnTheWire`,
`GitSsh.RuntimePatchOnTheWire`, `LocalUsers.PasswordPatchOnTheWire`, `Bootstrap.RecordPatchOnTheWire` and
`WorkspaceStatus.StatusOnTheWire` show that this is what the API server makes of the nested JSON patches.

## What the proofs found

- `DeleteGitSSHKey` deletes the whole Secret when the host it removes is the last one it read. A key another
  request added in between is lost with it (`GitSsh.AdditionLost`); `GitSsh.RemovalIsExactIff` says exactly
  when for one write and `GitSsh.RunIsLedgerIff` for whole runs.
- Racing key requests leave the `config` entry of the source Secret stale. `GitSsh.ConfigFreshIff` says exactly
  when a write leaves it right: if the request's patch carries a config, it must have seen exactly the other
  hosts stored by then; if it does not (the request read, from an already stale Secret, the very config it
  plans), the stored config must already be right for the result. The derived Secret is right all the same,
  because its config is rebuilt from the key entries.
- When reading the runtime Secret fails, a controller pass for an absent source reports success and the
  runtime Secret outlives its source (`GitSsh.FailedPassWritesNothing`).
- A recorded bootstrap value can be overwritten when two runs read the record before it holds one
  (`Bootstrap.RacingRunsOverwrite`): the password by hooks for two usernames with different Secret names, the
  token by two token runs. `Bootstrap.RecordChangesIff` says exactly which step does it. For passwords the line
  runs between one Secret name and two, not between one username and two: `Bootstrap.PasswordIsFinalIff`.
- A hook that loses the race to create the account fails with the API server's conflict, where the comment in
  `internal/bootstrap/account.go` expects it to find the account and stop quietly. The line is the run's own
  lookup: past it a run can only fail, before it a run can only stop quietly (`Bootstrap.RaceLoserFailsIff`).
- A hook that dies between creating the account and recording its generated password loses the password for
  good; while any run still holds it, it can still be recorded (`Bootstrap.RecordableIff`).
- A stored token expiry that does not parse never expires. The comment in `recordFromSecret` says it counts
  as expired (`TokenStore.ExpiryDecides`). The model follows the code.
- An OAuth session may be created after its challenge expired: the deadline is checked before the exchange with
  the provider, and not again (`OAuthLogin.CreationMayBeLate`).
- Emptying a non-empty data map sends `null` for it, which also wipes keys the client never saw
  (`MergePatch.WirePatch`). None of the modelled patches does that, as the five wire lemmas above show.
- Some usernames get a Secret name the API server refuses: "a..b", for one
  (`LocalUsers.SecretNameIsUsableIff` says exactly which).
- Secret names of local users collide for usernames that differ in case only, and for plain usernames only then
  (`LocalUsers.NamesCollideIff`). Stored usernames stay distinct regardless, but a password change verified on
  one account can land on another created under the same Secret name in between
  (`LocalUsers.SharedNameMixes`); with distinct names it cannot (`LocalUsers.DistinctNamesNeverMix`).

## Model

| member | source | states |
|---|---|---|
| MergePatch.DiffReaches | internal/ui/k8s.go:487-502 | a patch taken from the stored object, merged into it, gives its target |
| MergePatch.DiffIsLocal | internal/ui/k8s.go:487-502 | merged into any object, a patch writes the keys its two ends differ on and leaves every other key |
| MergePatch.DisjointPatchesCommute | internal/bootstrap/initial.go:80-98 | patches on disjoint keys commute, whatever they are merged into |
| MergePatch.MergeReaches | internal/ui/k8s.go:487-502 | on JSON documents a diff reaches its target if and only if the target differs from the base by members holding no null |
| MergePatch.MergeIsLocal | internal/gateway/server.go:231-243 | any place, at any depth, that the two ends of a diff agree on is left alone in any document |
| MergePatch.MemberAfterMerge | internal/gateway/server.go:231-243 | one member of a document after merging a diff, case by case |
| MergePatch.WirePatch | internal/ui/k8s.go:487-502 | an object's wire patch is the flat patch on its map-like member, exactly unless a non-empty map was emptied while keys were added; the rest of the object is untouched |
| MergePatch.RenamedPatch | internal/ui/k8s.go:487-502 | patching and naming the keys commute |
| MergePatch.NamedPatch | internal/ui/k8s.go:487-502 | a patch that leaves the member non-empty is the flat patch, whatever the keys are called |
| Ordering.SortedUnique | internal/ui/admin_people.go:127-132 | two sorted permutations of elements with distinct keys are equal, so an unstable sort has one answer |
| Ordering.LessMeans | internal/ui/admin_people.go:127-132 | string order is lexicographic: where two strings first differ, one has ended or has the smaller character |
| Ordering.SortForgetsOrder | internal/workspace/gitssh.go:36-45 | sorting a listing of a set gives one sequence for every iteration order |
| GitSsh.EntryNamesAreExact | internal/workspace/gitssh.go:36-45 | data keys and their reading by prefix are in one-to-one correspondence |
| GitSsh.PatchOnTheWire | internal/ui/k8s.go:487-541 | what the API server makes of a request's JSON patch is the flat patch of the protocol, and nothing outside the data changes |
| GitSsh.RuntimePatchOnTheWire | internal/controller/workspace_controller.go:230-236 | the controller's JSON patch makes the runtime Secret's data exactly the derived data |
| GitSsh.HostsFromData | internal/workspace/gitssh.go:36-45 | the hosts are exactly those with a key entry, ascending, for every map order |
| GitSsh.RenderInjective | internal/workspace/gitssh.go:54-61 | two host lists with the same rendered config are the same list |
| GitSsh.IdentityIsMounted | internal/workspace/gitssh.go:54-61 | a host's block points ssh at the very entry its key is mounted under |
| GitSsh.ConfigTellsHosts | internal/workspace/gitssh.go:54-61 | a config entry tells exactly which set of hosts it was made for |
| GitSsh.CommitKeepsCoherence | internal/ui/k8s.go:456-543 | one write prepared from any coherent snapshot keeps any coherent Secret coherent |
| GitSsh.HostAfterWrite | internal/ui/k8s.go:456-543 | an accepted write leaves its own host as requested and every other host as it was, however stale the snapshot |
| GitSsh.EveryInterleavingIsCoherent | internal/ui/k8s.go:456-543 | in every interleaving of reads and writes a host has a key exactly when it has metadata, and the metadata describes that very key |
| GitSsh.PatchRefinesAtomicUpdate | internal/ui/k8s.go:456-543 | a read-then-patch request is an atomic update of the host-to-key map stored at its write |
| GitSsh.RemovalIsExactIff | internal/ui/k8s.go:511-543 | a removal takes away just its host if and only if it saw another host, or no other host is stored by then |
| GitSsh.RunIsLedgerIff | internal/ui/k8s.go:456-543 | a run is, after each of its steps, the fold of its accepted writes as atomic updates if and only if no removal deletes a host it never saw |
| GitSsh.AdditionLost | internal/ui/k8s.go:511-543 | a run in which the removal of the last key deletes an addition stored in between |
| GitSsh.UnracedWriteKeepsConfig | internal/ui/k8s.go:456-543 | a request that writes to what it read keeps the config entry right |
| GitSsh.LastConfigWins | internal/ui/k8s.go:487-504 | from any snapshot, a patching request replaces the config by the one for the hosts it saw, unless it read that very config: then the stored one stays |
| GitSsh.FreshConfigChanges | internal/ui/k8s.go:487-504 | with the right config in its snapshot a request always carries another one |
| GitSsh.ConfigFreshIff | internal/ui/k8s.go:456-543 | from any snapshot: a write whose patch carries a config leaves the config entry right if and only if it saw exactly the other hosts stored by then, and one whose patch does not if and only if the stored config already is right for the result |
| GitSsh.SeenAllYetStale | internal/ui/k8s.go:511-543 | a removal that saw all the hosts, but read the config of a race, turns a right config stale |
| GitSsh.RaceThenStale | internal/ui/k8s.go:456-543 | a run of ten events from a right config in which that happens |
| GitSsh.RacingAdditionsStaleConfig | internal/ui/k8s.go:456-505 | two additions over one snapshot: both keys are stored and the config names only the later one |
| GitSsh.ListKeys | internal/ui/k8s.go:419-442 | one line for each metadata entry, no host twice, for every map order |
| GitSsh.Unrecognised | internal/ui/k8s.go:431-437 | metadata that is not two words is shown as unrecognised |
| GitSsh.ListingShowsStoredKeys | internal/ui/k8s.go:419-442 | the page lists a host exactly when its key is stored, with that key's type and fingerprint |
| GitSsh.Namespace.PutGitSSHKey | internal/ui/k8s.go:456-505 | refusals in order; for a host without a key exactly that key is added, sealed, to a Secret there or not, with a config that is right and every other entry as it was; a host with one is refused; a failing call changes nothing |
| GitSsh.Namespace.DeleteGitSSHKey | internal/ui/k8s.go:511-543 | nothing for an unknown host, the whole Secret exactly with its last key, otherwise exactly that key, with a config that is right; a failing call changes nothing |
| GitSsh.WithoutHost | internal/ui/k8s.go:526-527 | removing a host from the sorted list leaves the sorted list of the others |
| GitSsh.DecryptAll | internal/controller/workspace_controller.go:204-215 | succeeds exactly when every key entry opens, and then holds exactly the opened key entries |
| GitSsh.Namespace.EnsureRuntimeSecret | internal/controller/workspace_controller.go:179-241 | a pass fails exactly when something cannot be read, opened under a usable master key, or written, and has then written nothing; otherwise the runtime Secret is exactly what the source calls for, or gone with it, and a write is reported exactly when there was one |
| GitSsh.DerivedMounts | internal/controller/workspace_controller.go:204-216 | the derived Secret holds each stored key in the clear, a config naming exactly those hosts, and nothing else |
| GitSsh.PassDerives | internal/controller/workspace_controller.go:179-241 | a pass on a decryptable source derives from whatever runtime Secret was there; the next writes nothing |
| GitSsh.PassConverges | internal/controller/workspace_controller.go:179-241 | after any interleaving of key requests one pass makes the runtime Secret exactly the stored keys, an absent source leaves none, and a second pass writes nothing |
| GitSsh.FailedPassWritesNothing | internal/controller/workspace_controller.go:179-241 | a failing pass has written nothing; a pass that reports success did what a fault-free one does, except for an unreadable runtime Secret without a source |
| GitSsh.RunsSealUnder | internal/ui/k8s.go:456-505 | when all additions seal under one key, every stored key opens under it in every interleaving |
| SessionStore.Store.constructor | internal/auth/session.go:45-55 | starts empty, with fifteen minutes for a window that is not positive |
| SessionStore.Store.CreateWithTTL | internal/auth/session.go:73-100 | an email is required; the new session carries it and expires its own window from now |
| SessionStore.Store.Get | internal/auth/session.go:102-118 | finds an unexpired session and drops an expired one |
| SessionStore.Store.Delete | internal/auth/session.go:120-125 | removes that session only |
| SessionStore.Store.Refresh | internal/auth/session.go:127-165 | error order, and the expiry slides by the session's own window |
| SessionStore.HistoryIsReflected | internal/auth/session.go:73-169 | after every run the stored entry says exactly what the history of that id says |
| SessionStore.SessionHistoryLaw | internal/auth/session.go:73-169 | a session is found at t exactly when it was created, never deleted, and no gap between creation, refreshes and t reaches its window; the stored expiry is the last refresh plus the window |
| LoginFlow.EveryRunKeepsInv | internal/ui/auth_handlers.go:357-477 | in every interleaving only issued ids are stored, each identity at most once, and a logout past its delete has left no session |
| LoginFlow.RemovedStaysRemoved | internal/auth/session.go:102-165 | a session id once removed is in no later state of any run |
| LoginFlow.NothingAfterLogout | internal/ui/auth_handlers.go:357-477 | every call begun after a logout returned is refused for that session |
| LoginFlow.TokenNeedsLiveSession | internal/ui/auth_handlers.go:357-375 | a token is returned only by the step that found the session present and unexpired and slid its expiry |
| LoginFlow.IdentityIsStable | internal/ui/auth_handlers.go:432-477 | a stored identity changes only by onboarding going from pending to completed, and is never stored twice |
| LoginFlow.Flow.SessionIdentity | internal/ui/auth_handlers.go:455-470 | known exactly when the session is live and its identity stored; a miss drops session and identity |
| LoginFlow.LookupLeads | internal/ui/auth_handlers.go:455-470 | a lookup goes on exactly with a live session, and with its identity stored the call does what it was made for |
| LoginFlow.MissLeads | internal/ui/auth_handlers.go:455-477 | a miss forgets the identity and is refused, and so is a call the minter gives nothing |
| LoginFlow.LogoutLeads | internal/ui/auth_handlers.go:378-386 | a logout that found its identity has, three steps of its own later, returned with session and identity gone |
| LoginFlow.LogoutIsNotRefused | internal/ui/auth_handlers.go:378-386 | from there no interleaving turns it back |
| LoginFlow.MintLeads | internal/ui/auth_handlers.go:357-375 | a mint that found its identity returns the minted token exactly if it is usable and the session still alive, and stores it |
| LoginFlow.LoginLeads | internal/ui/auth_handlers.go:295-342 | a login stores its session and, one step later, its identity |
| LoginFlow.OnboardLeads | internal/ui/auth_handlers.go:443-453 | completing onboarding clears that flag and nothing else |
| LoginFlow.Flow.MintTokenForSession | internal/ui/auth_handlers.go:357-375 | a token is returned exactly for a live session with a stored identity and a usable minted token, and then stored with the expiry slid; a refusal touches that session and identity only |
| LoginFlow.Flow.Logout | internal/ui/auth_handlers.go:378-386 | succeeds exactly for a live session with a stored identity, and then removes just that session and identity |
| LoginFlow.Flow.MarkOnboardingCompleted | internal/ui/auth_handlers.go:443-453 | only that identity, only its onboarding flag |
| OAuthLogin.ChallengeStore.Put | internal/ui/challenges.go:31-35 | stores the challenge under its state |
| OAuthLogin.ChallengeStore.Take | internal/ui/challenges.go:37-49 | removes the challenge in every case and returns it only to its provider before it expires |
| OAuthLogin.EveryRunKeepsInv | internal/ui/login.go:102-160 | every stored, taken or completed challenge traces back to its own begin-login, and no two callbacks or sessions share one |
| OAuthLogin.SessionsComeFromLogins | internal/ui/auth_handlers.go:245-303 | sessions map injectively to earlier begin-logins with the same provider, state, nonce and verifier, unexpired at the take and at the check; the request check never reports a state mismatch |
| OAuthLogin.SessionsComeFromEvents | internal/ui/auth_handlers.go:245-303 | every session carries the provider, state, nonce and verifier of a begin-login event of the run, and was taken and checked within its lifetime |
| OAuthLogin.BeginIsRecorded | internal/ui/login.go:102-127 | a begin-login stores its own state, nonce and verifier, for its own lifetime |
| OAuthLogin.ValidateMeans | internal/ui/auth_handlers.go:479-494 | exactly which requests pass the check, and the order of its errors |
| OAuthLogin.CallbackLeads | internal/ui/login.go:129-147 | a callback takes its challenge only with the cookie of that state, and gets past exactly if the challenge is there, its provider's and unexpired |
| OAuthLogin.CheckLeads | internal/ui/auth_handlers.go:262-269 | a callback stays only if the check passes it |
| OAuthLogin.CreateLeads | internal/ui/auth_handlers.go:295-303 | a session is created exactly for a callback that was checked and accepted |
| OAuthLogin.CreationMayBeLate | internal/ui/auth_handlers.go:262-303 | the session itself may be created at any later time |
| OAuthLogin.GoneStaysGone | internal/ui/challenges.go:31-49 | a challenge that left the store never returns |
| OAuthLogin.FirstTakeConsumes | internal/ui/challenges.go:37-49 | after one callback named a state, accepted or refused, every later callback naming it is refused |
| LocalUsers.SanitiseName | internal/auth/localuser_name.go:61-72 | the rune loop is lower-casing, replacement and trimming |
| LocalUsers.SecretNameIsNameLike | internal/auth/localuser_name.go:42-56 | every username gets a non-empty name of name characters and legal length, alphanumeric at both ends |
| LocalUsers.SecretNameIsUsableIff | internal/auth/localuser_name.go:42-56 | that name is an RFC 1123 subdomain if and only if in what is kept of the username every dot stands between two alphanumerics |
| LocalUsers.PlainName | internal/auth/localuser_name.go:42-56 | a username of name characters with alphanumeric ends, once lower-cased, carries no digest |
| LocalUsers.ChangedCarriesDigest | internal/auth/localuser_name.go:46-51 | a username that sanitising changed carries its digest |
| LocalUsers.ChangedNamesDiffer | internal/auth/localuser_name.go:46-51 | so it shares its name neither with the plain username it was changed to nor with another of a different digest |
| LocalUsers.NamesCollide | internal/auth/localuser_name.go:42-56 | such usernames that differ in case only share one Secret name |
| LocalUsers.NamesCollideIff | internal/auth/localuser_name.go:42-56 | plain usernames (name characters, alphanumeric ends, at most 237) share a Secret name if and only if they differ in case only |
| LocalUsers.UsernamesStayDistinct | internal/auth/localuser_store.go:64-149 | in every interleaving of creations, password changes and deletions stored usernames are pairwise distinct, for any naming function |
| LocalUsers.AccountsPersist | internal/auth/localuser_store.go:64-217 | only its deletion takes an account away, nothing changes its username or owner, and only a password change for its Secret its hash |
| LocalUsers.CreationLeads | internal/auth/localuser_store.go:64-104 | a creation is let through exactly with a username not empty and not taken, and adds its account exactly if the Secret name is free |
| LocalUsers.VerifiesOnlyOwn | internal/auth/localuser_store.go:112-149 | an account verifies its own password and no other |
| LocalUsers.PasswordPatchKeepsUsername | internal/auth/localuser_store.go:137-149 | a password patch from any snapshot leaves username and owner |
| LocalUsers.PasswordPatchOnTheWire | internal/auth/localuser_store.go:137-149 | the JSON patch of a password change is the flat one |
| LocalUsers.DistinctNamesNeverMix | internal/auth/localuser_store.go:112-149 | with Secret names distinct for the usernames in play, no interleaving lets a password change land on somebody else's account |
| LocalUsers.SharedNameMixes | internal/auth/localuser_store.go:112-149 | where two usernames share a Secret name, a run in which it does |
| LocalUsers.Store.FindByUsername | internal/auth/localuser_store.go:274-289 | a match if there is one, a miss only if there is none, a failed list told apart |
| LocalUsers.Store.Create | internal/auth/localuser_store.go:64-104 | empty, taken and clashing names and every failing call change nothing; otherwise exactly the new account is added |
| LocalUsers.Store.SetPassword | internal/auth/localuser_store.go:112-149 | succeeds exactly with the current password and no failing call, and changes that account's hash only |
| LocalUsers.Store.Delete | internal/auth/localuser_store.go:211-217 | removes that Secret only, or nothing if the call fails |
| LocalUsers.FindByLogin | internal/auth/localuser_store.go:228-257 | one pass with an early return equals the two-stage resolution |
| LocalUsers.LookupMeans | internal/auth/localuser_store.go:228-257 | a username match always wins; otherwise the one account whose owner matches, nothing exactly for none, and an ambiguity exactly for two or more |
| LocalUsers.LookupForgetsOrder | internal/auth/localuser_store.go:228-257 | with distinct usernames every order of the listing gives the same answer |
| LocalUsers.ReachableLookupIsOrderFree | internal/auth/localuser_store.go:228-289 | so it does in every reachable state |
| Bootstrap.RecordsStayTruthful | internal/bootstrap/account.go:50-100 | for every interleaving and crash point a recorded password opens the recorded user's stored account and a recorded token hashes to a stored one |
| Bootstrap.RecordedKeysStay | internal/bootstrap/initial.go:55-99 | no writer ever erases a recorded key |
| Bootstrap.RecordedPasswordIsFinal | internal/bootstrap/account.go:50-143 | while all configured usernames derive one Secret name the recorded password never changes |
| Bootstrap.PasswordIsFinalIff | internal/bootstrap/account.go:50-143 | over all runs of hooks for two usernames from an empty cluster, the recorded password is final if and only if they derive one Secret name |
| Bootstrap.RecordPatchOnTheWire | internal/bootstrap/initial.go:80-98 | the JSON patch of a run is the flat one |
| Bootstrap.RecordChangesIff | internal/bootstrap/initial.go:84-98 | a step changes a recorded value, password or token, if and only if it patches another one from a snapshot without any |
| Bootstrap.RacingRunsOverwrite | internal/bootstrap/initial.go:55-99 | two runs that both read a record without a value overwrite one another, for every key, and what is recorded stays truthful |
| Bootstrap.RacingUsernamesReached | internal/bootstrap/account.go:50-143 | from an empty cluster, a token run and then runs for two usernames do get to that point |
| Bootstrap.AccountRunCreates | internal/bootstrap/account.go:65-100 | a run that meets nobody creates an account that opens with the configured or generated password, and has just a generated one to record |
| Bootstrap.TokenRunIssues | internal/bootstrap/admin.go:48-79 | a token run changes nothing when there is a token, and otherwise issues one and has it to record |
| Bootstrap.RecordingMatches | internal/bootstrap/initial.go:55-99 | a run left alone adds exactly the values the record lacks |
| Bootstrap.ConfiguredIsNotRecorded | internal/bootstrap/account.go:94-98 | in every run a configured password is never on its way into the record |
| Bootstrap.LostPasswordStaysLost | internal/bootstrap/account.go:50-100 | once the account exists and nobody holds its password, none is ever recorded |
| Bootstrap.HolderRecords | internal/bootstrap/initial.go:55-99 | whoever holds the password has it recorded within three steps of its own |
| Bootstrap.RunsStayGrounded | internal/bootstrap/initial.go:55-99 | in every run, whoever is past its read has a record to patch with all it read in it |
| Bootstrap.RecordableIff | internal/bootstrap/account.go:50-143 | once the account exists its password can still come to be recorded if and only if it is recorded already or some run holds it |
| Bootstrap.WinnerIsThere | internal/bootstrap/account.go:85-92 | the create that wins puts the account there |
| Bootstrap.RaceLoserFailsIff | internal/bootstrap/account.go:65-92 | once the account is there, a run that has not looked for it can only end quietly and one that has can only fail, in every run that does not kill it |
| Bootstrap.FillMissing | internal/bootstrap/initial.go:84-91 | the loop fills missing keys, keeps present ones and reports a change truthfully |
| Bootstrap.Cluster.WriteInitialValues | internal/bootstrap/initial.go:55-99 | on success the record holds what it held and, of the values, exactly those it lacked; on failure it is unchanged |
| Bootstrap.Cluster.AdminAccount | internal/bootstrap/account.go:50-100 | exactly when an account is created or found; a created one opens with its password, which is the recorded one if generated; nothing stored is lost, and the record stays truthful whatever fails |
| Bootstrap.Cluster.AdminToken | internal/bootstrap/admin.go:48-79 | a token is issued exactly when there is none and no call fails before; it is then recorded unless one is, and the record stays truthful |
| ResetStore.Store.ClearStaleAndPrevious | internal/auth/reset.go:165-181 | deleting while listing leaves exactly the others' unexpired records; when a call fails, only doomed records are gone |
| ResetStore.Store.Issue | internal/auth/reset.go:79-108 | clears, then adds the one new record; exactly when it fails, and that it then adds none |
| ResetStore.Store.Redeem | internal/auth/reset.go:115-147 | the matching record is deleted, expired or not, and grants its user if unexpired; a failing call grants and changes nothing |
| ResetStore.LifetimeIsADay | internal/auth/reset.go:79-108 | a link lives over 24 hours less a second and at most 24 hours |
| ResetStore.ExpiredIff | internal/auth/reset.go:151-157 | a deadline passes after its second; one that cannot be read counts as passed |
| ResetStore.IssueLeavesOne | internal/auth/reset.go:79-108 | right after an issue that person has exactly the new record and nobody an expired one |
| ResetStore.ResetHistoryLaw | internal/auth/reset.go:79-181 | a link resets a person's password exactly when it is from their latest issue, was never presented, and its stored deadline has not passed |
| TokenStore.Store.Issue | internal/auth/apitoken_store.go:71-116 | one new Secret holding the digest and the expiry in whole seconds, or none if the call fails |
| TokenStore.Store.Lookup | internal/auth/apitoken_store.go:120-149 | returns exactly the accepted record, a failed list told apart |
| TokenStore.Store.Revoke | internal/auth/apitoken_store.go:175-181 | removes that Secret only, and may be repeated; nothing if the call fails |
| TokenStore.Store.HasAny | internal/auth/apitoken_store.go:185-191 | true exactly when a token of that kind is stored, a failed list told apart |
| TokenStore.RunsStayValid | internal/auth/apitoken_store.go:71-181 | in every run no token is stored twice |
| TokenStore.TokenHistoryLaw | internal/auth/apitoken_store.go:71-212 | a token is accepted at t exactly when it was issued, not revoked and not past its expiry rounded down to a second, and the answer is what it was issued for |
| TokenStore.ExpiryDecides | internal/auth/apitoken_store.go:193-212 | expiry refuses exactly a readable date other than the zero time that has passed |
| WorkspaceStatus.FindAfterSet | internal/controller/workspace_controller.go:340-359 | setting a condition replaces that one and no other, and its transition time moves exactly with its status |
| WorkspaceStatus.FindAfterAll | internal/controller/workspace_controller.go:340-359 | after setting several, the last one of a kind counts |
| WorkspaceStatus.VerdictSets | internal/controller/workspace_controller.go:243-336 | which conditions each outcome of a reconcile sets, and to what |
| WorkspaceStatus.MarkedIsHealthy | internal/controller/workspace_controller.go:243-359 | whatever was there, a published status has state Running exactly when Ready is True, and then the image is resolved, nothing degraded and a pod named |
| WorkspaceStatus.MergedMeans | internal/controller/workspace_controller.go:340-359 | field by field, zero values omitted, a merged status takes what the patch changed and keeps the rest |
| WorkspaceStatus.StatusOnTheWire | internal/controller/workspace_controller.go:340-359 | merging statuses is what the API server makes of the nested document patch, and nothing outside `status` changes |
| WorkspaceStatus.NoWriterEmptiesStatus | internal/gateway/server.go:231-243 | neither writer sends an empty status |
| WorkspaceStatus.StampIsLocal | internal/gateway/server.go:231-243 | a gateway stamp from any snapshot changes the activity time only |
| WorkspaceStatus.PublishIsAtomic | internal/controller/workspace_controller.go:340-359 | a controller patch over its current fields is the atomic update, later activity stamps kept |
| WorkspaceStatus.PublishLands | internal/controller/workspace_controller.go:340-359 | a publish makes the stored status the marked one |
| WorkspaceStatus.StampLands | internal/gateway/server.go:231-243 | a stamp sets the activity time |
| WorkspaceStatus.StatusStaysHealthy | internal/controller/workspace_controller.go:96-143 | in every run of reconciles and gateway steps the status is healthy and the gateway's readiness test agrees with the Ready condition |
| WorkspaceStatus.GatewayIsInvisible | internal/gateway/server.go:231-259 | the controller's fields are what its own events alone would have made them |
| WorkspaceStatus.ControllerIsInvisible | internal/gateway/server.go:231-243 | the activity time is what the gateway's events alone would have made it |
| WorkspaceStatus.Workspace.PatchStatus | internal/controller/workspace_controller.go:340-359 | the loop over conditions and the patch give the intended status, or nothing if the patch fails |
| WorkspaceStatus.Workspace.Mark | internal/controller/workspace_controller.go:243-336 | each mark publishes its verdict and leaves a healthy status, or changes nothing |
| WorkspaceStatus.Workspace.Reconcile | internal/controller/workspace_controller.go:96-143 | from what it meets alone: Running exactly with the image, storage, no error, wanted, and a ready replica; which other state, pod name, conditions and reason otherwise; a deletion, a failed read or a failed patch publishes nothing |
| WorkspaceStatus.Workspace.TouchActivity | internal/gateway/server.go:231-243 | the activity time only, or nothing if a call fails |
| RoleGrants.NamesAreApart | internal/controller/role_objects.go:45-59 | administrator and owner binding names never meet, and one user's names tell the roles apart |
| RoleGrants.Cluster.ListBindings | internal/controller/userspace_controller.go:240-243 | lists exactly the bindings labelled for the user |
| RoleGrants.Cluster.ReconcileRoleGrants | internal/controller/userspace_controller.go:219-254 | the two loops are grant-all then sweep, for every failing call |
| RoleGrants.AfterApply | internal/controller/userspace_controller.go:220-229 | granting touches only its own names, removes nothing and takes over nothing |
| RoleGrants.AppliedAll | internal/controller/userspace_controller.go:220-229 | a completed grant leaves every configured role bound |
| RoleGrants.AfterSweep | internal/controller/userspace_controller.go:240-252 | a sweep, complete or not, deletes only the user's ungranted administrator bindings, and all of them if complete |
| RoleGrants.SuccessIsExact | internal/controller/userspace_controller.go:219-254 | after success the user's administrator bindings refer to exactly the configured roles, or to none |
| RoleGrants.GrantedBindings | internal/controller/role_objects.go:45-59 | and each granted role is bound under its own name, to this user |
| RoleGrants.ReconcileOkIff | internal/controller/userspace_controller.go:219-254 | a reconcile succeeds exactly if every name it grants under is free or its own, the list is served and no call it makes fails |
| RoleGrants.SubjectsStayRight | internal/controller/role_objects.go:45-59 | in every run each listed administrator binding is for the user it is listed under |
| RoleGrants.EditsCount | internal/controller/userspace_controller.go:219-230 | role edits and configured roles count from the next reconcile on |
| RoleGrants.OthersUntouched | internal/controller/userspace_controller.go:219-254 | succeed or fail, other users' bindings and every owner binding are unchanged |
| RoleGrants.ReconcileIsIdempotent | internal/controller/userspace_controller.go:219-254 | a second reconcile changes nothing |
| RoleGrants.GrantsPersist | internal/controller/userspace_controller.go:219-254 | a user's grants survive any edits and reconciles of others, failing ones included |
| RoleGrants.RunsStayOwned | internal/controller/role_objects.go:45-59 | in every run each listed administrator binding is controlled by its user |
| RoleGrants.GrantsAreExact | internal/controller/userspace_controller.go:219-254 | after any history a successful pass makes a user's grants exact, and they stay so until that user or the configuration changes |
| Selection.SelectTags | internal/registry/selection.go:62-82 | the newest qualifying tags of a repository, up to the limit, newest first |
| Selection.Select | internal/registry/selection.go:23-41 | one group per qualifying repository in order of first appearance, each its top k |
| Selection.RepositoriesAreDistinct | internal/registry/selection.go:23-58 | the groups are exactly the listed repositories that qualify, each once |
| Selection.EligibleIff | internal/registry/selection.go:43-91 | exactly which images a policy admits, and how many of a repository |
| Selection.FirstAppearances | internal/registry/selection.go:23-41 | the groups follow the first appearance of their repositories |
| Selection.SelectionIsSound | internal/registry/selection.go:23-91 | what is selected was listed and is eligible, excludes beat includes, and nothing eligible left out is newer than what was kept of its repository |
| Selection.SelectionIsFull | internal/registry/selection.go:23-91 | of every repository the selection keeps as many images as the limit allows, or all eligible ones of the listing if they are fewer |
| Selection.SelectAgain | internal/registry/selection.go:23-91 | selecting from a selection keeps the same multiset |
| RegistrySync.SyncedNameIsUsable | internal/controller/imageregistry_objects.go:53-65 | every derived name has legal characters, alphanumeric ends and at most 200 characters |
| RegistrySync.SyncedNameEmptyIff | internal/controller/imageregistry_objects.go:53-65 | a derived name is empty if and only if registry, repository and tag have no alphanumeric |
| RegistrySync.SyncedNameKeeps | internal/controller/imageregistry_objects.go:53-65 | registry, repository and tag that need no replacing are in the name as they are, lower-cased |
| RegistrySync.Controller.Reconcile | internal/controller/imageregistry_controller.go:77-116 | catalog, status and result for every selection, listing and failing call, the status patch included |
| RegistrySync.Controller.ListEntries | internal/controller/imageregistry_controller.go:145-149 | lists exactly the entries labelled for the registry |
| RegistrySync.Controller.PruneEntries | internal/controller/imageregistry_controller.go:145-160 | deletes the listed entries no longer desired, up to the first failure |
| RegistrySync.AppliedAt | internal/controller/imageregistry_controller.go:97-104 | what an apply pass, complete or not, leaves at one name |
| RegistrySync.PrunedAt | internal/controller/imageregistry_controller.go:145-160 | what a prune, complete or not, leaves at one name |
| RegistrySync.SyncedExactly | internal/controller/imageregistry_controller.go:61-116 | after success the registry's entries are exactly the selected names, plus the old ones if prune is off; the status counts and dates it |
| RegistrySync.SyncedContent | internal/controller/imageregistry_objects.go:32-45 | under each name the reference, display name and pull secret of the last image that derives it; what the sync does not manage is as it was |
| RegistrySync.SyncOkIff | internal/controller/imageregistry_controller.go:77-116 | a sync succeeds exactly if there is a selection, no other registry controls a selected name, the list is served and no call it makes fails |
| RegistrySync.OthersUnchanged | internal/controller/imageregistry_controller.go:61-116 | entries neither listed for nor named by the registry never change; a failure keeps count and sync time |
| RegistrySync.FailureBeforePruneDeletesNothing | internal/controller/imageregistry_controller.go:61-116 | any failure before entries are pruned deletes nothing |
| RegistrySync.SyncIsIdempotent | internal/controller/imageregistry_controller.go:61-116 | repeating a sync leaves the catalog unchanged, colliding names included |
| People.PeopleRows | internal/ui/admin_people.go:92-134 | the three loops and the sort give a join for some iteration order |
| People.EverySpaceHasOneRow | internal/ui/admin_people.go:102-121 | every UserSpace is shown in one row, shared owners included |
| People.EveryLoginIsInOneRow | internal/ui/admin_people.go:92-134 | every login is in exactly one row, none lost or doubled; each unmatched owner, and nobody else, has one extra row |
| People.EveryRowIsRight | internal/ui/admin_people.go:92-134 | an owner's logins are all in the row of its first UserSpace, or all in its extra row |
| People.LoginsKeepOrder | internal/ui/admin_people.go:96-99 | logins keep the order of the listing |
| People.TableIsSorted | internal/ui/admin_people.go:127-132 | the table is sorted by owner, then name |
| People.OneAnswer | internal/ui/admin_people.go:123-133 | the table is the same for every iteration order and every sorted permutation |
| Pagination.AtoiItoa | internal/ui/helpers.go:627-646 | a number in a link parses back to itself, up to the integer range |
| Pagination.AtoiSigned | internal/ui/helpers.go:569-572 | signs are read, and a sign alone is no number |
| Pagination.PageSizeFrom | internal/ui/helpers.go:589-598 | a size is one the screen offers, or unlimited |
| Pagination.PageSizeMeans | internal/ui/helpers.go:589-598 | "all" is unlimited, an offered size is itself, and everything else is the screen's first choice |
| Pagination.PaginateWith | internal/ui/helpers.go:560-582 | any requested number lands on a page there is, and the items are that page's |
| Pagination.PagesConcatenate | internal/ui/helpers.go:560-582 | all pages in order are the list |
| Pagination.PagesAreFull | internal/ui/helpers.go:560-582 | all pages but the last are full, and none is empty unless the list is |
| Pagination.PageQuery | internal/ui/helpers.go:627-646 | the other filters are copied and the choice added; never a bare path |
| Pagination.FollowLink | internal/ui/helpers.go:560-646 | a followed link shows exactly its page and size if and only if the size is offered and the page exists |
| Pagination.LinksKeepFilters | internal/ui/helpers.go:627-646 | every link keeps the other filters, and of several links followed the last decides |
| Slug.Slugify | internal/ui/admin_catalog.go:313-333 | a label of at most 60 characters without a doubled dash, or nothing, and nothing exactly for names without alphanumerics |
| Slug.SlugKeepsWords | internal/ui/admin_catalog.go:313-333 | a slug that is not cut has exactly the words of the name, in order |
| Slug.SlugIdempotent | internal/ui/admin_catalog.go:313-333 | slugging is idempotent for every lower-casing that fixes ASCII lower case |
| Slug.CandidatesAreLabels | internal/ui/admin_catalog.go:294-298 | the ten candidates are labels of at most 63 characters |
| Slug.CandidateMeans | internal/ui/admin_catalog.go:294-298 | the first candidate is the slug, the others are numbered from two |
| Slug.CandidatesDiffer | internal/ui/admin_catalog.go:294-298 | no two candidates are equal |
| Slug.Api.CreateWithSlug | internal/ui/admin_catalog.go:287-309 | takes the first free candidate, or changes nothing and says why |
| Slug.OutcomeUnique | internal/ui/admin_catalog.go:287-305 | one call has one outcome |
| Slug.EveryCallIsRight | internal/ui/admin_catalog.go:287-305 | whatever others do to the catalog in between, a creation takes a name only if it is free at that call, each earlier candidate having been taken at its own, gives up only after ten, and otherwise changes nothing |
| Slug.LastCallIsAtomicIff | internal/ui/admin_catalog.go:287-305 | a creation's last call does what one atomic creation at that moment would if and only if the candidates it met taken still are |
| Slug.CreationsAreAtomic | internal/ui/admin_catalog.go:287-305 | so among creations alone, however their API calls interleave, each takes the first candidate free at its last call, or changes nothing |
| Slug.EntriesPersist | internal/ui/admin_catalog.go:287-305 | an entry that others leave alone is as it was after every run |
| Slug.SuccessesAddUp | internal/ui/admin_catalog.go:287-305 | each success adds exactly one entry |
| Slug.NamesStayUsable | internal/ui/admin_catalog.go:287-305 | every name stays a label that its object carries |

## Left out

- HTTP handlers, cookies, templates, CSRF, command-line entry points: plumbing.
- ECR listing, OIDC and GitHub exchanges, owner resolution, token minting, SSH and pod streams: foreign calls with any answer.
- The digests and ciphers themselves, and random generation: symbolic, with fresh values as parameters.
- RE2 and the compilation of patterns: any relation; a pattern that does not compile is a failed selection.
- Unicode case mapping: `strings.ToLower`, `TrimSpace` and `EqualFold` are modelled on ASCII in `LocalUsers` and `RegistrySync`; `Slug` takes the lower-cased text as given.
- CRD validation, webhooks, quota patches, network policies, RBAC rule tables: data with easy facts only.
- Stale cache reads of the controllers: a status patch from an old base breaks the status law until the next pass, so `WorkspaceStatus` has one reconcile in flight, on an object it read from the server.
- `AdminAccount`'s first step, which ensures the administrator's UserSpace, and deletions by others during bootstrap.
- A create whose reply is lost after the API server stored the object.
- Query-string encoding: taken as the inverse of parsing. 64-bit overflow of page arithmetic, out of reach for the offered sizes.
- SessionStore.SessionHistoryLaw: for operations that are atomic with their clock reading; `Refresh` reads the clock before it takes the lock, and across that gap only `LoginFlow.RemovedStaysRemoved` and its companions are claimed.
- ResetStore.ResetHistoryLaw: takes issue and redeem as atomic, though each is a list followed by separate deletes and creates.
- TokenStore.TokenHistoryLaw: is about records the store itself wrote; `TokenStore.ExpiryDecides` covers the others.
- Bootstrap.RecordedPasswordIsFinal: assumes one Secret name, because with two it is false (`Bootstrap.PasswordIsFinalIff`).
- Bootstrap.PasswordIsFinalIff: for usernames that are not blank, and a trimming that trims once and for all, as `strings.TrimSpace` does.
- Slug.CreationsAreAtomic: for creations alone, because with others editing the catalog it is false (`Slug.LastCallIsAtomicIff`); `Slug.EveryCallIsRight` has no such limit.
- LocalUsers.NamesCollideIff: for usernames that are kept whole; longer ones may also collide by truncation, and others carry a digest.
- GitSsh.RenderInjective: for hosts without a line break, as the profile page's host pattern ensures.
- People.OneAnswer: uses that UserSpace names are non-empty and distinct, as the API server ensures.
- People.PeopleRows: the columns copied from a UserSpace are one opaque value.
