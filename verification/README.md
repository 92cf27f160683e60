# Dafny models of holo-js

Models of six cores of the framework, with proofs of what they keep and compute. They share no state; each part has its own modules.

| part | files |
|---|---|
| Layered authorization registry | `AuthorizationLedger`, `AuthorizationRefinement`, `AuthorizationLosses`, `AuthorizationRollback`, `AuthorizationIndexes`, `AuthorizationRuntime`, `AuthorizationRuns`, `AuthorizationOrderlyRuns` |
| Auth sessions and multi-factor protocol | `MultiFactorLease`, `OneTimeCodes`, `GuardSessions`, `GuardHomes`, `GuardRuns`, `AuthSessions` |
| Validation flash cookie | `FlashValues`, `FlashJson`, `FlashBudget`, `ValidationFlash`, `FlashReading`, `CookiePath` |
| Reconnecting socket | `Reconnection`, `BrowserConnection` |
| Source scanner, splicers, source map, fixpoint | `SourceScanner`, `SourcePrinter`, `Splicer`, `SourceMap`, `DefinitionLocals` |
| Channel patterns | `ChannelPatterns` |

`Prelude`, `Text` and `Base64Digits` hold shared value types, splitting and joining, and the base64 alphabets.

Verify everything with `dafny verify dfyconfig.toml`.

The registry. `Ledger` is what one kind of definition (policies or abilities) keeps: the by-name map, the lifetimes
of installed definitions and what each installation owns and displaced. The class `Runtime` has the registry's own
fields and updates them in place; every method is tied to a function on ledgers and indexes. The specification is
`Stack`: a base and layers, read from the top; a layer hides its source names, shows what it bound, and hides what it
borrowed from below. The refinement lemmas show that the mutable maps answer like the stack, say exactly when a layer
may be dropped (`AuthorizationLosses` says so of what the registry shows), and `Run` carries this through whole runs on
the mutable registry.

The session protocols are state machines. In `MultiFactorLease` and `OneTimeCodes` every awaited store operation ends an
atomic step, steps of all calls interleave freely, and store operations may fail; the theorems speak of every
sequence of events. `GuardSessions` models one request's operations on shared session records as functions,
`GuardHomes` says where each guard's payload is, `GuardRuns` is about whole requests, and `AuthSessions` is the runtime
that performs the operations in place.

The flash. `FlashJson` renders JSON and encodes it to bytes, `FlashBudget` proves the size arithmetic exact and the
greedy choice optimal, `ValidationFlash` is the fitting procedure with the three outcomes it can have. `FlashReading`
reads base64url, UTF-8 and JSON, and proves that what was written is read back.

The socket. `Reconnection` is the state machine of handlers with its timers, sockets and promises; `BrowserConnection`
is the object whose methods assign the closure's variables, proved to be that machine step by step. Time is a ghost
clock, jitter an arbitrary number between 0 and 1.

The source tools. `SourceScanner` holds the cursor loops, `SourcePrinter` a printer for nested token trees: the scanner
closes exactly what the printer prints. `Splicer` compares both ways of replacing ranges with a position-by-position
reference. `SourceMap` writes mappings and reads them with a decoder written from ECMA-426 (sections 6 and 9.2).

## Model

| member | source | states |
|---|---|---|
| AuthorizationRuns.Run | packages/authorization/src/runtime.ts:221-377 | stack refinement over whole runs: after any sequence of non-overlapping installations, loads that define, throw or return a definition of any name (new, or registered by anyone), disposals in any order, and definitions made or taken out outside any installation, the registry binds every name to what the topmost undisposed layer of the specified stack says, else the base; a running installation hides names not loaded yet, a failed one counts as disposed, and the policy indexes agree throughout. Asked of an event: a disposal is of a layer that may be dropped, no two policies visible after a disposal or failure clash, and a change from outside is of a name no undisposed installation mentions |
| AuthorizationRuns.RunShows | packages/authorization/src/runtime.ts:291-377 | what tracking the stack means for a reader of the registry: under every policy and ability name, exactly what the stack shows |
| AuthorizationRuns.Step | packages/authorization/src/runtime.ts:291-377 | one event of a run takes the registry to the stack the specification steps to |
| AuthorizationRuns.InstallingShows | packages/authorization/src/runtime.ts:341-344 | what is visible after the start of an installation: none of its sources, everything else as before |
| AuthorizationRuns.LoadingPolicyShows | packages/authorization/src/runtime.ts:345-349 | what is visible after a load answered: the copy under the source's name, nothing under the name of a registered definition that was returned, all else as before; or the installation has ended in a failure |
| AuthorizationRuns.LoadingAbilityShows | packages/authorization/src/runtime.ts:350-354 | the same for abilities |
| AuthorizationRuns.DefiningShows | packages/authorization/src/runtime.ts:200-250 | a definition made by a load is visible under its name and changes nothing else, unless it is refused, which changes nothing |
| AuthorizationRuns.ThrowingShows | packages/authorization/src/runtime.ts:355-363 | a load that throws ends the installation, and what is below its layer is visible again |
| AuthorizationRuns.DisposingShows | packages/authorization/src/runtime.ts:307-375 | any installation but the running one can be disposed at any time: where its layer was on top what is below it becomes visible, and nothing else changes |
| AuthorizationRuns.OutsideShows | packages/authorization/src/runtime.ts:221-278 | a definition made or taken out outside, or in code of an installation that has ended, under a name no installation mentions, is visible or not accordingly, and nothing else changes |
| AuthorizationRuns.Install | packages/authorization/src/runtime.ts:341-344 | starting an installation pushes a layer that hides its source names, in both kinds |
| AuthorizationRuns.LoadPolicySource | packages/authorization/src/runtime.ts:345-349 | whatever definition the load returns: one that is registered is taken out under its own name, the copy is bound in the top layer under the source's name, or, when that name is visibly taken or the policy clashes, the installation fails and its layer is dropped |
| AuthorizationRuns.LoadAbilitySource | packages/authorization/src/runtime.ts:350-354 | the same for abilities |
| AuthorizationRuns.Discard | packages/authorization/src/runtime.ts:307-339 | disposing an installation whose layer may be dropped, or rolling the running one back, drops exactly its layer in both kinds, and no registration that restores a policy is refused |
| AuthorizationRuns.DisposeExactly | packages/authorization/src/runtime.ts:307-375 | an installation may be disposed (its layer may be dropped in both kinds, and no two policies then visible clash) if no registration is refused, the registry shows the stack without the layer at once, and still shows the stack when the installations above are disposed too, in any order; and if it may be, all this is so, in every order in which each of the others may be dropped in its turn |
| AuthorizationRuns.RunStatesAreSound | packages/authorization/src/runtime.ts:291-377 | every state of a run meets what exact rollback asks for, and shows no two clashing policies |
| AuthorizationRuns.FailedInstallation | packages/authorization/src/runtime.ts:291-363 | exact rollback: whatever the loads of an installation define, take out or return, once it fails all three policy indexes and the ability map hold what they held before it started |
| AuthorizationRuns.UntouchedTracks | packages/authorization/src/runtime.ts:78-98 | any registry in agreement that no installation has touched is a stack without layers, so runs may start there |
| AuthorizationOrderlyRuns.OrderlyRunIsSmooth | packages/authorization/src/runtime.ts:291-377 | when loads take out only what their own installation registered (and no source loaded before), changes from outside leave the installations' names alone, and each target and key belongs to one name, a run of any length meets the condition of `Run` at every event |
| AuthorizationOrderlyRuns.OwnNamesAreTidy | packages/authorization/src/runtime.ts:345-354 | a load that returns a definition under its source's name, registered or not, takes out nothing else |
| AuthorizationOrderlyRuns.OwnNamedRunIsSmooth | packages/authorization/src/runtime.ts:345-354 | so when every load returns a definition under its source's name and each target and key belongs to one name, every run of installations and disposals meets the condition of `Run` throughout |
| AuthorizationOrderlyRuns.SourceTakenByAnother | packages/authorization/src/runtime.ts:345-354 | a source that returns the definition just registered for an earlier source of the same installation takes that name away; the installation may then be disposed if and only if nothing was registered under the name before |
| AuthorizationOrderlyRuns.AliasIsLost | packages/authorization/src/runtime.ts:345-354 | for every registry, a reachable case in which a layer may not be dropped: a load answers with a definition registered below under another name, a later installation covers that name, and after both are disposed the definition below is missing although the stack shows it |
| AuthorizationRefinement.ResolveIsLookup | packages/authorization/src/internal/installation.ts:20-28 | following replaced definitions from what a layer displaced gives the stack's answer below that layer, for every pattern of disposed installations |
| AuthorizationRefinement.BeginPushes | packages/authorization/src/runtime.ts:298-344 | the start of an installation pushes a layer hiding its names and keeps the invariant |
| AuthorizationRefinement.RegisterBinds | packages/authorization/src/runtime.ts:221-250 | a registration inside the running installation binds its name in the top layer |
| AuthorizationRefinement.WithdrawTakesOut | packages/authorization/src/runtime.ts:252-278 | taking out any bound name inside the running installation takes it out of the top layer: the layer gives up its own binding, or borrows the definition visible below and hides it |
| AuthorizationRefinement.OwnerIsTopmost | packages/authorization/src/runtime.ts:307-312 | an installation owns the current binding of a name exactly when its layer is the topmost undisposed one that mentions the name, and bound it |
| AuthorizationRefinement.DropUncovers | packages/authorization/src/runtime.ts:307-339 | on stacks: dropping a layer shows what is below it where it was on top, and changes nothing elsewhere |
| AuthorizationRefinement.DisposeDrops | packages/authorization/src/runtime.ts:307-339 | disposing a layer that may be dropped refines dropping it and keeps the invariant, whatever was disposed before |
| AuthorizationRefinement.DisposeDropsExactly | packages/authorization/src/runtime.ts:307-375 | disposing an installation keeps the representation invariant of the refinement if and only if its layer may be dropped: at every name it mentions, nothing lies below; or it is on top there and bound or borrowed the name; or it is covered, bound the name, and what it borrowed under it is not hidden by the cover |
| AuthorizationLosses.LossIsSeen | packages/authorization/src/runtime.ts:307-375 | a disposal whose layer may not be dropped is seen in the registry: it stops showing the stack at once, or when the undisposed installations above are disposed too, in whatever order |
| AuthorizationLosses.DroppableIffShown | packages/authorization/src/runtime.ts:307-375 | when the installations above may each be dropped in turn: a layer may be dropped if and only if the registry shows the stack right after its disposal and still does once those are disposed |
| AuthorizationLosses.NeverLeadsBelow | packages/authorization/src/internal/installation.ts:20-28 | what an installation above a hole displaced never leads, whatever is disposed later, to the definition below the hole |
| AuthorizationRefinement.RegisterOutsideExactly | packages/authorization/src/runtime.ts:221-250 | after a registration outside any installation the registry shows the stack with the definition in its base if and only if no undisposed installation mentions the name |
| AuthorizationRefinement.UnregisterOutsideExactly | packages/authorization/src/runtime.ts:252-278 | the same for taking a definition out |
| AuthorizationRefinement.RollbackDrops | packages/authorization/src/runtime.ts:355-363 | rolling back the running installation always refines dropping its layer, whatever its loads took out |
| AuthorizationRefinement.DisposeAgain | packages/authorization/src/runtime.ts:371-374 | disposing an installation a second time changes nothing if and only if no name it borrowed is free while the definition borrowed is still live |
| AuthorizationRollback.RollbackIsExact | packages/authorization/src/runtime.ts:307-363 | the by-name index after a rollback is the one before the installation, when nothing else touched the registry |
| AuthorizationRollback.UnregisterStaysAlone | packages/authorization/src/runtime.ts:252-278 | whatever name a load takes out, the contexts still remember everything a rollback needs |
| AuthorizationRollback.RegisterStaysAlone | packages/authorization/src/runtime.ts:221-250 | the same for a registration |
| AuthorizationIndexes.RegisterAgreesExactly | packages/authorization/src/runtime.ts:200-235 | a registration keeps name, target and key indexes in agreement if and only if it does not memoise a late key for a definition object that another policy was registered with while the key was blank |
| AuthorizationIndexes.UnregisterAgreesExactly | packages/authorization/src/runtime.ts:252-268 | taking a policy out keeps the three indexes in agreement if and only if its key did not turn from blank into one that another policy holds or shares; a memoised key that is not blank always removes the right entry |
| AuthorizationIndexes.BlankKeyRemovesAnotherEntry | packages/authorization/src/runtime.ts:625-635 | a run from the empty registry in which a blank memoised key, computed again once it is another policy's key, removes that policy's entry |
| AuthorizationIndexes.RefusedIffClash | packages/authorization/src/runtime.ts:200-219 | a registration is refused exactly for a bound name or for a target or key shared with a registered policy |
| AuthorizationIndexes.NamesDetermineIndexes | packages/authorization/src/runtime.ts:221-268 | in agreement, the by-name index and the memoised keys determine the other two indexes |
| AuthorizationIndexes.StepAgrees | packages/authorization/src/runtime.ts:200-268 | when no key that was memoised as blank has become another one, every registration, refusal and withdrawal keeps the agreement, and no definition object changes its key |
| AuthorizationIndexes.EverySequenceAgrees | packages/authorization/src/runtime.ts:200-268 | over every sequence of registrations, refusals and withdrawals, inside or outside installations, with what definition objects compute as keys changing from step to step, the three indexes describe the same policies, as long as a key once computed as blank stays blank |
| AuthorizationRuntime.ResolveLive | packages/authorization/src/internal/installation.ts:20-28 | the loop ends and returns the first definition on the chain of replaced ones whose installation is not disposed |
| AuthorizationRuntime.Plan | packages/authorization/src/runtime.ts:309-322 | the names released and the live definitions brought back, computed before the registry changes |
| AuthorizationRuntime.Runtime.RegisterPolicyDefinition | packages/authorization/src/runtime.ts:221-235 | the new state of all indexes and of the active context; a refused registration changes no index |
| AuthorizationRuntime.Runtime.RegisterAbilityDefinition | packages/authorization/src/runtime.ts:237-250 | the new ability map and context, or a refusal that changes nothing |
| AuthorizationRuntime.Runtime.UnregisterPolicyDefinition | packages/authorization/src/runtime.ts:252-268 | the policy leaves all three indexes; the active context gives it up if it was its own, else remembers the first definition displaced under the name |
| AuthorizationRuntime.Runtime.UnregisterAbilityDefinition | packages/authorization/src/runtime.ts:270-278 | the same for abilities |
| AuthorizationRuntime.Runtime.BeginInstallation | packages/authorization/src/runtime.ts:298-344 | a new context and every source name taken out, in both kinds, in agreement |
| AuthorizationRuntime.Runtime.FinishInstallation | packages/authorization/src/runtime.ts:364-366 | the context of an installation that has loaded its last source is no longer active, and nothing is recorded in it any more |
| AuthorizationRuntime.Runtime.RestorePolicies | packages/authorization/src/runtime.ts:307-339 | in any order of the names, every policy comes back exactly when no two policies of the result clash, and then the registry is the restored ledger; otherwise what comes back is part of it and every policy missing clashes with one that is there |
| AuthorizationRuntime.Runtime.RestoreAbilities | packages/authorization/src/runtime.ts:307-339 | the abilities always come back |
| AuthorizationRuntime.Runtime.DisposeInstallation | packages/authorization/src/runtime.ts:307-375 | dispose and rollback: the new ledgers, failure exactly when two of the policies left clash, and after a failure every policy but some that clash with one that is there |
| AuthorizationRuntime.Runtime.LoadPolicy | packages/authorization/src/runtime.ts:345-349 | after a load: take out the returned object if it was just registered, then register the copy or fail |
| AuthorizationRuntime.Runtime.LoadAbility | packages/authorization/src/runtime.ts:350-354 | the same for abilities |
| MultiFactorLease.RunKeepsInv | packages/auth/src/runtime.ts:1851-1945 | the protocol's invariant over every interleaving of logins, challenges and recoveries, store operations failing at will |
| MultiFactorLease.OneHolderEver | packages/auth/src/runtime.ts:1867-1871 | over all interleavings at most one call holds the lease of a session, and while it does nobody else can take it |
| MultiFactorLease.EveryExitSettles | packages/auth/src/runtime.ts:1402-1945 | whenever no call has the lease of a challenge session in hand, the session is in exactly one of three states: lease back, session gone, or replaced by an authenticated session; excepted are sessions on which giving back, ending or reading back failed |
| MultiFactorLease.OnlyVerifiedLogIn | packages/auth/src/runtime.ts:1893-1920 | over every interleaving a challenge session is replaced by an authenticated one only if a call holding its lease found its code right, and every authenticated session replaced such a one |
| MultiFactorLease.CheckDecides | packages/auth/src/runtime.ts:1893-1920 | what a check leads to, whatever other calls do meanwhile and as long as the store works: a right code ends with the session replaced by an authenticated one; a wrong one below five counted attempts, or a check that fails, with the lease back; a wrong one from the fifth on with the session gone |
| MultiFactorLease.CountDecides | packages/auth/src/runtime.ts:1873-1892 | what counting the attempt leads to: above the limit the session ends, with a count the code is checked, without one the lease is given back |
| MultiFactorLease.FailedEstablishmentRecovers | packages/auth/src/runtime.ts:1921-1931 | an establishment that fails before the rotation gives the lease back |
| MultiFactorLease.FailedReplacementEndsBoth | packages/auth/src/runtime.ts:2481-2518 | one that fails after the rotation leaves neither the old session nor the new one |
| MultiFactorLease.ChallengeNeedsLease | packages/auth/src/runtime.ts:1851-1871 | a login makes a session without a login in it, and a call goes on to a code exactly when it reads a pending session and finds its lease there |
| MultiFactorLease.LastStepSettlesExactly | packages/auth/src/runtime.ts:1872-1945 | the step that ends a call settles its session if and only if it is not a failed last chance: a failing operation that gives the lease back, ends the session or reads it back |
| MultiFactorLease.StrandedIsDead | packages/auth/src/runtime.ts:1867-1871 | a session left without its lease in nobody's hands stays so over every later run: no challenge of it ever gets hold of it |
| MultiFactorLease.ChallengeIsStranded | packages/auth/src/runtime.ts:1874-1884 | a run from the start that strands a challenge: the rate limiter fails and giving the lease back fails too |
| MultiFactorLease.StepKeepsInv | packages/auth/src/runtime.ts:1402-1945 | each atomic step keeps the invariant |
| OneTimeCodes.CountersIncrease | packages/auth/src/runtime.ts:1795-1804 | over every run and all sessions, the TOTP counters accepted from one credential strictly increase from its enrolment counter (section 5.2 of RFC 6238) |
| OneTimeCodes.RecoveryCodesAreSpentOnce | packages/auth/src/runtime.ts:1806-1814 | no recovery hash is accepted more often than it was issued, across challenge, disable and regenerate |
| OneTimeCodes.RegenerationReplaces | packages/core/src/portable/authPersistence.ts:447-460 | regenerating leaves exactly the new recovery codes when what the verification returned is still what is stored, and changes nothing otherwise |
| OneTimeCodes.RegenerationRetires | packages/auth/src/runtime.ts:2064-2077 | after a regeneration a code that is not among the new ones is never accepted again, over every later run that does not issue it again |
| OneTimeCodes.RetiredIsNeverAccepted | packages/auth/src/runtime.ts:1806-1814 | from any reachable state, a recovery code that is not live and not issued again is never accepted |
| OneTimeCodes.RecoveryDecides | packages/core/src/portable/authPersistence.ts:428-446 | a recovery code passes exactly when it is live; then it is live once less, and nothing else has changed |
| OneTimeCodes.CounterDecides | packages/core/src/portable/authPersistence.ts:411-427 | a counter passes exactly when it is above the last one used, which it then is; else the next one is tried |
| OneTimeCodes.NewestCounterDecides | packages/auth/src/runtime.ts:1795-1804 | undisturbed, a code passes if and only if the newest of its counters is above the last one used |
| OneTimeCodes.EnrolmentDecides | packages/core/src/portable/authPersistence.ts:402-410 | enrolling works exactly where there is no credential, and disabling leaves none |
| OneTimeCodes.OnlyAcceptedCallsChange | packages/auth/src/runtime.ts:2058-2077 | over every run, only a call whose code the store has accepted disables the identity, replaces recovery codes or resets the limit |
| OneTimeCodes.AcceptedAgainstLiveExactly | packages/auth/src/runtime.ts:1795-1849 | in every run, a counter the store accepts was checked against the live credential's secret if and only if the identity was enrolled all the time between the call's reading of the credential and the acceptance |
| OneTimeCodes.OldSecretIsAccepted | packages/core/src/portable/authPersistence.ts:411-426 | a run from the start in which a code of a disabled enrolment's secret is accepted by the next enrolment, because the store does not ask whose secret a counter came from |
| OneTimeCodes.ChecksAreLimited | packages/auth/src/runtime.ts:1816-1843 | between two resets of the rate-limit key at most five codes are checked, plus those of calls admitted before the first reset |
| OneTimeCodes.RoomIsUsed | packages/auth/src/runtime.ts:1816-1843 | the limiter lets through every check it has counted room for |
| OneTimeCodes.HitDecides | packages/auth/src/runtime.ts:1816-1829 | a call is admitted exactly while fewer than five were counted |
| OneTimeCodes.ResetGivesRoom | packages/auth/src/runtime.ts:1833-1838 | an accepted call's clearing, when it works, and the end of the window start the count anew |
| OneTimeCodes.CarriedCallsExceedTheLimit | packages/auth/src/runtime.ts:1872-1912 | from any state in which a reset finds an admitted call that has not checked yet, six checks follow without another reset, so the addition in ChecksAreLimited is needed |
| OneTimeCodes.RunKeepsInv | packages/auth/src/runtime.ts:1795-1912 | the invariant behind the three: counters, recovery codes and paid checks, over every interleaving |
| GuardRuns.RunSpares | packages/auth/src/runtime.ts:632-656 | guard isolation over whole requests: from a start in which every payload is in the session of its own guard and none there was revoked, logins, impersonations, stops, logouts and resolutions of other guards, in any order and each hydrating its guards from the request's cookie first, leave what a guard sees as it is; only a logout without payload of a guard at home in the same session is excluded |
| GuardRuns.DoSpares | packages/auth/src/runtime.ts:1197-2518 | the same for one operation, with revoked payloads too |
| GuardRuns.DoDecides | packages/auth/src/runtime.ts:1197-2518 | what each operation does to its own guard in a request: the payload of a login, nothing after a logout, the former user after a stop exactly when it may be restored, the target after an accepted impersonation |
| GuardRuns.DoKeepsHomesExactly | packages/auth/src/runtime.ts:1281-1293 | every operation keeps each payload in the session of its own guard, with exactly one exception: a guard whose user is gone is resolved, in a session that is not the cookie's, with a revoked payload of another guard, while a third stays bound to it |
| GuardRuns.RevokedBehindIsSeen | packages/auth/src/runtime.ts:1281-1293 | whenever the exception strikes in a request with a cookie, two logins show it: the guard of the revoked payload logs in, and a login of one of the others then leaves it seeing nothing |
| GuardHomes.RequestsStartHomed | packages/auth/src/runtime.ts:650-655 | a request in which guards are unbound or bound to the cookie's session starts with every payload at home |
| GuardHomes.ResolvingKeepsHomesExactly | packages/auth/src/runtime.ts:1197-1301 | the exception, on resolving a user |
| GuardHomes.EstablishSpares | packages/auth/src/runtime.ts:2422-2480 | a login shows every other guard what it saw before, hydrated or not yet |
| GuardRuns.LoginLogsOutAnother | packages/auth/src/runtime.ts:1281-1293 | four operations of one request after which the exception matters: a login moves a guard that has just logged in back to its revoked payload |
| GuardRuns.RevokedIsStoredAgain | packages/auth/src/runtime.ts:1281-1290 | one resolution after which a revoked payload that was just dropped is stored again |
| GuardRuns.LogoutWithoutPayloadEndsOthers | packages/auth/src/runtime.ts:2239-2242 | one logout of a guard without payload after which another guard sees nothing any more |
| GuardRuns.UnusedGuardIsForgotten | packages/auth/src/runtime.ts:2082-2132 | an impersonation on a guard not yet used in the request does not remember that guard's payload, and ending it logs the guard out |
| GuardSessions.EstablishIsolatesExactly | packages/auth/src/runtime.ts:2422-2518 | a login changes nothing for other guards if and only if each guard with a payload waiting in the shared session is bound to it or already sees that payload; its own guard sees the new payload |
| GuardSessions.RotationMovesEverything | packages/auth/src/runtime.ts:2448-2480 | after a rotation the old session is gone, every guard bound to it is bound to the new one, and the new one holds the old payloads with one replaced |
| GuardSessions.LoginJoins | packages/auth/src/runtime.ts:2434-2480 | a login while the bound guards share a living session binds its guard and all of them to one new session that holds their payloads and the new one |
| GuardSessions.LogoutForgets | packages/auth/src/runtime.ts:2230-2251 | after a logout the guard is unbound and its payload gone, the others' payloads stay, and the session goes exactly when none is left |
| GuardSessions.OnlyRetainedStay | packages/auth/src/runtime/sessionRevocations.ts:53-82 | revoking others leaves valid, of the identity's earlier sessions, exactly those of the current one's family; other identities are not concerned, and a new login is always valid |
| GuardSessions.LogoutIsolatesExactly | packages/auth/src/runtime.ts:2230-2251 | a logout changes nothing for other guards if and only if the guard holds a payload, or nobody else bound to the session has one that counts |
| GuardSessions.StopRestores | packages/auth/src/runtime.ts:2155-2196 | stopping an impersonation concerns one guard and gives its former payload back exactly when there was one, the user exists and it is not revoked |
| GuardSessions.ImpersonateExactly | packages/auth/src/runtime.ts:2082-2132 | an accepted impersonation remembers the guard's former payload; a refused one changes nothing for the guard; other guards keep what they see, but for the actor's guard (whose stale impersonation may end) and for guards whose payload waits in the rotated session while they are not bound to it |
| GuardSessions.NeverNested | packages/auth/src/runtime.ts:2082-2132 | an impersonation is accepted only when neither the actor nor the guard is impersonating |
| GuardSessions.ImpersonateThenStop | packages/auth/src/runtime.ts:2082-2196 | impersonate then stop returns the former user exactly when it still exists and is not revoked, whatever other guards did in between |
| GuardSessions.ResolveIsolates | packages/auth/src/runtime.ts:1197-1301 | resolving a user changes nothing for other guards |
| GuardSessions.ResolveDecides | packages/auth/src/runtime.ts:1197-1301 | the user a guard resolves to, from what counts for it alone: nobody without a payload or while a challenge is pending; the remembered user of a stale impersonation exactly when it exists and is not revoked; else the payload's own user exactly when it exists. And what counts for the guard afterwards |
| GuardSessions.ImpersonateDecides | packages/auth/src/runtime.ts:2082-2132 | an impersonation is accepted exactly when the actor's guard has a user and no impersonation, the guard has none, and the target exists; otherwise the reason is the first of these that fails. The actor is never a pending challenge, and is remembered as it was |
| GuardSessions.DropRevokedShowsTheSame | packages/auth/src/runtime.ts:1156-1172 | dropping revoked payloads changes what no guard sees |
| GuardSessions.WriteThenRead | packages/auth/src/runtime.ts:2442-2444 | one payload stored bare or several stored by guard are read back as written |
| AuthSessions.AuthRuntime.EstablishSession | packages/auth/src/runtime.ts:2422-2518 | the in-place operation is the rotation or creation proved about above |
| AuthSessions.AuthRuntime.HydrateGuard | packages/auth/src/runtime.ts:632-656 | an unbound session guard takes the id of the request's cookie |
| AuthSessions.AuthRuntime.FilterRevoked | packages/auth/src/runtime.ts:1156-1172 | the loop over payloads is the specified filter |
| AuthSessions.AuthRuntime.StopImpersonating | packages/auth/src/runtime.ts:2155-2196 | the in-place operation is the specified stop |
| AuthSessions.AuthRuntime.LogoutGuard | packages/auth/src/runtime.ts:2230-2251 | the in-place operation is the specified logout |
| AuthSessions.AuthRuntime.ResolveUser | packages/auth/src/runtime.ts:1197-1301 | the in-place operation is the specified resolution |
| AuthSessions.AuthRuntime.ImpersonateUser | packages/auth/src/runtime.ts:2082-2132 | the in-place operation is the specified impersonation |
| Reconnection.ConnectionIsSound | packages/broadcast/src/browser-connection.ts:40-161 | in every reachable state: a retry timer is pending exactly when reconnecting without an attempt; the stability timer only while the current attempt is open; no other timer; at most one created socket is not closed; every superseded attempt has settled |
| Reconnection.DroppedConnectionIsRetried | packages/broadcast/src/browser-connection.ts:84-99 | over every run, judged by its events: once an attempt has opened and until disconnect, an attempt is in progress or a retry timer is pending; while none has, no retry is |
| Reconnection.FailureIsRetried | packages/broadcast/src/browser-connection.ts:56-99 | after every failure of the attempt in progress: no attempt, every socket closed, and the retry due between c/2 and c later exactly when an attempt had opened since the last disconnect |
| Reconnection.PromisesTell | packages/broadcast/src/browser-connection.ts:76-120 | over every run a promise is resolved exactly when its attempt opened, rejected when it was superseded before, and an attempt that stays open for five seconds has the counter reset |
| Reconnection.AttemptsGoOn | packages/broadcast/src/browser-connection.ts:101-150 | over every run no attempt is stuck: its URL may still arrive or fail, or its socket may open or close, and a timer that is due may fire |
| Reconnection.ConnectingAsks | packages/broadcast/src/browser-connection.ts:68-82 | connect, or the retry timer, starts one new attempt that asks for its URL, unless one is in progress |
| Reconnection.UrlMakesSocket | packages/broadcast/src/browser-connection.ts:101-111 | the URL of the attempt in progress makes its socket |
| Reconnection.OpeningStartsCheck | packages/broadcast/src/browser-connection.ts:112-126 | the opening resolves the promise, ends reconnecting and starts the check due in five seconds |
| Reconnection.StableResets | packages/broadcast/src/browser-connection.ts:119-124 | when the check comes to an end the attempt is open and the counter reset |
| Reconnection.DisconnectEndsEverything | packages/broadcast/src/browser-connection.ts:152-161 | after disconnect no attempt, timer, open socket or pending promise is left, and the counter is 0 |
| Reconnection.ApplyKeepsInv | packages/broadcast/src/browser-connection.ts:46-161 | every handler keeps the invariant |
| Reconnection.LateEventsChangeNothing | packages/broadcast/src/browser-connection.ts:84-137 | events of a superseded attempt change nothing but the record that they happened |
| Reconnection.RetriesTakeTheirTime | packages/broadcast/src/browser-connection.ts:56-66 | over every run, n retries since the last reset, n at least 6, have taken at least 15750 + 15000 * (n - 6) ms |
| Reconnection.DelayBounds | packages/broadcast/src/browser-connection.ts:27-30 | the n-th delay lies between c/2 and c with c = min(30000, 500 * 2^(n-1)) |
| Reconnection.ResetOnlyWhenStable | packages/broadcast/src/browser-connection.ts:112-126 | the retry counter goes back only by disconnect or once the current attempt has been open for 5 s |
| BrowserConnection.BrowserConnection.Handle | packages/broadcast/src/browser-connection.ts:40-161 | one event handled by the mutable closures' counterpart is one step of the state machine, and keeps the invariant |
| BrowserConnection.BrowserConnection.Connect | packages/broadcast/src/browser-connection.ts:68-82 | the in-place operation is the specified one |
| BrowserConnection.BrowserConnection.Fail | packages/broadcast/src/browser-connection.ts:84-99 | the in-place operation is the specified one |
| BrowserConnection.BrowserConnection.Open | packages/broadcast/src/browser-connection.ts:101-137 | the in-place operation is the specified one |
| BrowserConnection.BrowserConnection.Disconnect | packages/broadcast/src/browser-connection.ts:152-161 | the in-place operation is the specified one |
| SourcePrinter.ScanFindsExactlyGroups | packages/adapter-sveltekit/src/preprocess.ts:125-159 | from an opening bracket the scan ends at j if and only if the text up to j is a printed group: nested groups, strings with escapes, both comment kinds, lone slashes and plain text |
| SourcePrinter.PrintedGroupCloses | packages/adapter-sveltekit/src/preprocess.ts:125-159 | scanner agrees with printer: at any printed group, with any text around it, the scan returns the group's last index |
| SourcePrinter.OnlyGroupsClose | packages/adapter-sveltekit/src/preprocess.ts:125-159 | the converse: what the scan closes is a printed group |
| SourcePrinter.CallParensAreFound | packages/adapter-sveltekit/src/preprocess.ts:111-159 | spaces and a printed argument list after a callee: its parentheses are found |
| SourcePrinter.TypedCallParensAreFound | packages/adapter-sveltekit/src/preprocess.ts:71-159 | the same with type arguments in between |
| SourcePrinter.ArrowEndsTypeArguments | packages/adapter-sveltekit/src/preprocess.ts:71-109 | type arguments in which an arrow follows any printed tokens end at that arrow, and the call's parentheses are not found unless some follow the arrow |
| SourceScanner.ScanFindsFirstBalance | packages/adapter-sveltekit/src/preprocess.ts:125-159 | on any text: the scan returns the first position where brackets outside strings and comments balance, and nothing exactly when there is none |
| SourceScanner.FindClosing | packages/adapter-sveltekit/src/preprocess.ts:125-159 | the cursor and depth loop ends and computes that scan |
| SourceScanner.FindClosingParen | packages/adapter-sveltekit/src/preprocess.ts:125-159 | the same with -1 for nothing |
| SourceScanner.SkipTypeArguments | packages/adapter-sveltekit/src/preprocess.ts:71-109 | past the balancing angle bracket, or the position itself |
| SourceScanner.FindOpeningParen | packages/adapter-sveltekit/src/preprocess.ts:111-123 | the position of the parenthesis past spaces and type arguments, or -1 |
| SourceScanner.SkipString | packages/adapter-sveltekit/src/transform-utils.ts:7-24 | the loop ends and stops behind the closing quote, escapes skipped |
| Splicer.SplicersAgree | packages/adapter-sveltekit/src/transform-utils.ts:36-51 | for pairwise disjoint ranges with distinct starts, left-to-right replacement of any order of the list gives one text, and right-to-left splicing gives the same |
| Splicer.AppliedIsWoven | packages/adapter-sveltekit/src/transform-utils.ts:43-50 | left-to-right copying is the position-by-position reference |
| Splicer.SplicedIsWoven | packages/adapter-shared/src/validation-transform.ts:164-165 | right-to-left splicing is the same reference |
| Splicer.EqualStartsKeepTheirOrder | packages/adapter-sveltekit/src/transform-utils.ts:42-42 | two insertions at one place depend on the order of the list, so distinct starts are needed |
| Splicer.ApplyReplacements | packages/adapter-sveltekit/src/transform-utils.ts:36-51 | the loop computes it, and the reference text when the ranges are disjoint |
| Splicer.SpliceFromTheEnd | packages/adapter-shared/src/validation-transform.ts:164-165 | the loop computes it, and the reference text when the ranges are disjoint and ascending |
| SourceMap.MappingsRoundTrip | packages/adapter-shared/src/build.ts:296-312 | decoding the mappings by ECMA-426 gives the list of lines back (no lines as one unmapped line) if and only if every step between mapped lines is a signed 32-bit integer |
| SourceMap.SourceMapRoundTrip | packages/adapter-shared/src/build.ts:296-312 | so every list of optional line numbers below 2^31 survives, negative steps included |
| SourceMap.VlqRoundTrip | packages/adapter-shared/src/build.ts:284-294 | a field followed by any text decodes to itself and that text, exactly for signed 32-bit integers |
| SourceMap.ShiftedValue | packages/adapter-shared/src/build.ts:286-286 | the shifted number for every integer: its magnitude modulo 2^31 with the sign in the lowest bit |
| SourceMap.DigitsAreSelfDelimiting | packages/adapter-shared/src/build.ts:287-292 | base-32 digits with continuation bits are self-delimiting |
| SourceMap.EncodeVlq | packages/adapter-shared/src/build.ts:284-294 | the do-while loop ends and writes those digits |
| SourceMap.CreateMappings | packages/adapter-shared/src/build.ts:296-303 | the running previous line gives the specified segments |
| DefinitionLocals.CollectDefinitionLocals | packages/adapter-shared/src/build.ts:205-225 | ends, and returns the least set closed under "the initializer mentions a realtime binding or a name in the set" |
| DefinitionLocals.LocalsAreReached | packages/adapter-shared/src/build.ts:205-225 | a name is in the least set if and only if a chain of references connects it to a realtime binding |
| DefinitionLocals.OrderIsImmaterial | packages/adapter-shared/src/build.ts:205-225 | the order of declarations does not change the result |
| DefinitionLocals.FreshName | packages/adapter-shared/src/build.ts:403-404 | ends with the shortest underscored name that is not exported |
| DefinitionLocals.ChooseFactoryLocals | packages/adapter-shared/src/build.ts:400-406 | one import name for each factory in use, none an exported name, no two alike |
| ChannelPatterns.MatchThenFill | packages/broadcast/src/auth.ts:226-250 | filling a pattern with the parameters of every channel it matches gives the channel back, if and only if no parameter is repeated or called __proto__ |
| ChannelPatterns.FillThenMatch | packages/broadcast/src/contracts.ts:661-672 | a target's channel name matches its pattern with the target's parameters, but for __proto__ |
| ChannelPatterns.MatchesWhenAllFit | packages/broadcast/src/auth.ts:226-250 | segments match if and only if each is a wildcard or equal |
| ChannelPatterns.WildcardExactly | packages/broadcast/src/auth.ts:238-241 | a segment is a wildcard if and only if it is an identifier in braces |
| ChannelPatterns.ResolvesWhenMatched | packages/broadcast/src/auth.ts:252-283 | a definition is found if and only if some definition matches, and it matches with the parameters returned |
| ChannelPatterns.FirstDefinitionWins | packages/broadcast/src/auth.ts:252-283 | the definition chosen is the first exact one, or without any the first that matches |
| ChannelPatterns.ExactPatternWins | packages/broadcast/src/auth.ts:252-283 | the definition whose pattern is the channel is chosen if and only if no definition before it matches by __proto__ wildcards alone |
| ChannelPatterns.ExactPatternWinsInAnyOrder | packages/broadcast/src/auth.ts:252-283 | so without __proto__ parameters it is chosen in any order |
| ChannelPatterns.ProtoShadowsExact | packages/broadcast/src/auth.ts:252-268 | a definition of one __proto__ parameter, listed first, takes a channel from the definition named like it |
| ChannelPatterns.LookupUndoesWireName | packages/broadcast/src/auth.ts:61-72 | looking up a sent channel gives it back, exactly unless it is public and starts like another type |
| ChannelPatterns.LookupIgnoresSpaces | packages/broadcast/src/auth.ts:61-72 | spaces around a channel do not matter, and spaces alone are refused |
| ChannelPatterns.KindUndoesWireName | packages/broadcast/src/workerProtocol.ts:116-138 | the worker reads the kind and the name that were sent, exactly unless a public name starts like another kind |
| ChannelPatterns.TargetsResolve | packages/broadcast/src/auth.ts:296-302 | end to end: what is sent to a private or presence target resolves to a definition, and a faithful one rebuilds the channel from its parameters |
| ChannelPatterns.MatchPattern | packages/broadcast/src/auth.ts:226-250 | the index loop computes the match |
| ChannelPatterns.ResolveChannelMatch | packages/broadcast/src/auth.ts:252-283 | the two search loops compute the choice |
| ValidationFlash.FitValidationFlash | packages/adapter-sveltekit/src/index.ts:305-378 | the flash that is written: the fewest largest values dropped, errors cut only when not even zero values fit beside them, everything dropped only when that does not help, and then the generic flash exactly when it fits; a candidate chosen by the estimate is never refused |
| ValidationFlash.FirstMessageOfEach | packages/adapter-sveltekit/src/index.ts:365-367 | cutting the errors keeps every field, its key and place, and of its messages exactly the first |
| ValidationFlash.ConsideredFields | packages/adapter-sveltekit/src/index.ts:312-319 | the fields considered are the first 200 filtered ones, each once |
| ValidationFlash.GenericFlashIs | packages/adapter-sveltekit/src/index.ts:351-357 | the generic flash has no old input, one message and everything else of the payload |
| ValidationFlash.FittingHeader | packages/adapter-sveltekit/src/index.ts:280-290 | what has to fit is the whole header, with every attribute, in 4000 code units |
| FlashReading.FlashIsReadBack | packages/adapter-sveltekit/src/index.ts:395-427 | a cookie that was written is read back as the candidate with its filtered values and paths, exactly on the page it was flashed for; elsewhere nothing is read |
| FlashReading.JsonRoundTrip | packages/adapter-sveltekit/src/index.ts:407-407 | parsing undoes rendering for every value that has a JSON form (sections 2 to 7 of RFC 8259) |
| FlashReading.Utf8RoundTrip | packages/kernel/src/cookieEncryption.ts:19-33 | decoding undoes encoding for every text (section 3 of RFC 3629) |
| FlashReading.Base64UrlRoundTrip | packages/kernel/src/cookieEncryption.ts:20-26 | reading base64url undoes writing it for every sequence of bytes (section 5 of RFC 4648) |
| ValidationFlash.NoFullerFlash | packages/adapter-sveltekit/src/index.ts:311-378 | no choice of the considered fields whose cookie fits has more of them than the one written; if any choice fits with all errors, errors are not cut |
| ValidationFlash.ChosenCandidateFits | packages/adapter-sveltekit/src/index.ts:345-350 | the candidate picked by arithmetic always yields a cookie within the budget |
| ValidationFlash.PathsAreStable | packages/adapter-sveltekit/src/index.ts:252-255 | the encoder, given the page path, arrives at the same paths and no others |
| ValidationFlash.LargestFirstSorts | packages/adapter-sveltekit/src/index.ts:316-319 | the fields are sorted by size, largest first, none lost |
| ValidationFlash.EncodeValidationFlashPayload | packages/adapter-sveltekit/src/index.ts:170-186 | the encoder's second filtering and path computation give the cookie of the candidate |
| ValidationFlash.SameErrors | packages/adapter-sveltekit/src/index.ts:361-361 | spreading only new values is the candidate with its errors as they were |
| FlashBudget.EstimateIsExact | packages/adapter-sveltekit/src/index.ts:305-332 | the plaintext size computed from frame, pairs, commas and errors is the byte length of the JSON that is encrypted |
| FlashBudget.EstimateDecides | packages/adapter-sveltekit/src/index.ts:297-351 | the header of the written cookie has exactly the estimated length, so the arithmetic test decides |
| FlashBudget.LargestFirstDropCount | packages/adapter-sveltekit/src/index.ts:322-341 | the loop returns the fewest first fields to drop, nothing exactly when zero fields do not fit |
| FlashBudget.GreedyIsOptimal | packages/adapter-sveltekit/src/index.ts:321-341 | over descending sizes, no subset that fits has more members than the loop keeps, and if the loop gives up none fits |
| FlashBudget.LastOnesAreLeast | packages/adapter-sveltekit/src/index.ts:316-341 | of all subsets of a size, the suffix of a descending list has the least sum |
| FlashJson.ObjectSize | packages/adapter-sveltekit/src/index.ts:316-332 | an object takes two braces, its pairs and the commas between them (section 4 of RFC 8259) |
| FlashJson.OrderKeepsTotal | packages/adapter-sveltekit/src/index.ts:342-344 | the order in which kept members are listed does not change the size |
| FlashJson.Base64UrlSize | packages/adapter-sveltekit/src/index.ts:297-299 | unpadded base64url takes four thirds, rounded up (section 5 of RFC 4648) |
| FlashValues.FilterIsIdempotent | packages/adapter-sveltekit/src/index.ts:197-229 | filtering twice is filtering once at every depth, and exactly the clean values are left alone |
| FlashValues.FilterKeeps | packages/adapter-sveltekit/src/index.ts:215-229 | a member is flashed if and only if its key is not sensitive and its value has a JSON form |
| FlashValues.SensitiveExactly | packages/adapter-sveltekit/src/index.ts:188-195 | a key is sensitive if and only if it begins, after spaces, with an underscore, or has one of the four words in it, in any case and with any separators |
| FlashValues.WordsAreFound | packages/adapter-sveltekit/src/index.ts:188-195 | a word split by a separator, with anything around it, is found |
| FlashValues.FilterOfOne | packages/adapter-sveltekit/src/index.ts:197-229 | what filtering makes of one item or member, which determines it on lists (`FilterJoins`, `FilterMembersJoins`) |
| FlashValues.FilterFlashValues | packages/adapter-sveltekit/src/index.ts:215-229 | the loop computes the filter |
| FlashValues.FilterFlashValue | packages/adapter-sveltekit/src/index.ts:197-213 | the recursion computes the filter |
| CookiePath.CookiePathFor | packages/adapter-sveltekit/src/index.ts:257-270 | ends with a valid path that path-matches the page (section 5.1.4 of RFC 6265), the longest such; for an invalid page it is a directory of it |
| CookiePath.NarrowestIsUnique | packages/adapter-sveltekit/src/index.ts:257-270 | there is only one such path |
| CookiePath.MatchingPathsAreDirectories | packages/adapter-sveltekit/src/index.ts:257-270 | any valid cookie path that matches an invalid page is no longer than one of its valid directories |
| CookiePath.SameOriginIsStable | packages/kernel/src/requestUrl.ts:203-209 | the same-origin path of a same-origin path is itself |
| CookiePath.SameOriginExactly | packages/kernel/src/requestUrl.ts:203-209 | every answer is a local path, every local path is its own answer, and everything else becomes the root |
| CookiePath.ValidExactly | packages/adapter-sveltekit/src/index.ts:272-277 | a path is valid if and only if it has no semicolon and no control character |

## Left out

Findings: places where the code does less than its documentation or a natural reading suggests. The members named show them and say when they happen.

- A definition whose memoised key is blank (its name and table trim to nothing) may later remove another policy's key entry (`BlankKeyRemovesAnotherEntry`), exactly as `RegisterAgreesExactly` and `UnregisterAgreesExactly` say. A run on the mutable registry has one fixed reader of keys, so there a blank key stays blank.
- Disposing an installation does not give back what it took from below once a later installation covers that name, or once another of its own sources took the name (`AliasIsLost`, `SourceTakenByAnother`; exactly when, in what the registry shows: `DroppableIffShown`).
- A definition made or taken out outside any installation, under a name that an undisposed installation mentions, is shown against the stack (exactly so: `RegisterOutsideExactly`, `UnregisterOutsideExactly`).
- A disposed installation whose disposal is called again may register a definition again that it had borrowed and somebody withdrew since (exactly when: `DisposeAgain`).
- A challenge whose session cannot be read back, whose lease cannot be given back and which cannot be ended is left without lease; nobody can complete it any more (`ChallengeIsStranded`; exactly when: `LastStepSettlesExactly`).
- Calls admitted by the rate limiter before a reset and checking after it are not counted against the limit again (`CarriedCallsExceedTheLimit`; never more than that: `ChecksAreLimited`).
- A code that matches the secret of a disabled enrolment is accepted by the next one when its call had read the credential before (`OldSecretIsAccepted`; exactly when: `AcceptedAgainstLiveExactly`).
- Logging out a guard that holds no payload ends the whole shared session (`LogoutWithoutPayloadEndsOthers`; exactly when: `LogoutIsolatesExactly`).
- Resolving a guard whose user is gone writes the record back as it was read, so payloads just dropped as revoked are stored again (`RevokedIsStoredAgain`); nobody sees them until a later login of the same request moves their guard back to them (`LoginLogsOutAnother`; payloads are left so exactly as `DoKeepsHomesExactly` says, and in a request with a cookie it can always be seen: `RevokedBehindIsSeen`).
- Impersonation does not hydrate its own guard, so a guard that was not used before in the request loses its session when the impersonation ends (`UnusedGuardIsForgotten`; what is remembered otherwise: `ImpersonateExactly`).
- A pattern parameter called `__proto__` is never recorded, because assigning a string to that property of a plain object has no effect; a repeated parameter, which channel definitions do not refuse, keeps its last value (exactly when that matters: `MatchThenFill`).
- VLQ fields are exact for signed 32-bit integers only, because of 32-bit shifts (`VlqRoundTrip`).
- Type arguments with an arrow in them end at the arrow (`ArrowEndsTypeArguments`; the parenthesis of `<()=>T>(x)` is not found: `ArrowHidesCall`). Quotes inside regular expressions and templates nested in templates are read as plain quotes; the printer prints neither.

What the models do not capture:

- AuthorizationRuns.Run: does not cover installations that overlap, or `dispose()` called from inside another installation's load (it would register under that installation). What definition objects compute as their keys is fixed during a run; `EverySequenceAgrees` is about keys that change.
- AuthorizationRuntime.Runtime: installation contexts are entries of a list referred to by index, not objects; `isAuthorizationTargetModel` is fixed for each target, and what a definition object currently computes as its key is a function given by the caller. Errors thrown by a table-name reader are not modelled.
- AuthorizationRuntime.Runtime.RestorePolicies: names are visited in arbitrary order, which covers insertion order; the error objects are counted, not built.
- Policy evaluation, actors, guards and handlers of the authorization package.
- MultiFactorLease.EveryExitSettles: expiry times, the code check itself and cookies are not modelled; a check may succeed, be wrong or fail. Logouts and fresh logins on the same session id by other requests are not steps of this machine.
- OneTimeCodes.ChecksAreLimited: the limiter's `hit` is atomic and reports limited exactly above the maximum; which counters a code matches is given by the caller, and an enrolment's secret is its number.
- GuardRuns.RunSpares: one request at a time, and nobody is revoked and no user disappears during it; revocation metadata is a generation and an identifier. Remember tokens, cookies, cached users, malformed stored payloads and hosted identities are left out.
- Reconnection.ConnectionIsSound: a socket constructor that calls back into the connection, a second open event of one socket and messages are left out; `onOpen` and `onDisconnect` are re-entrant only through events that follow them.
- SourceScanner.FindClosing: `findClosingParen` and `skipTypeArguments` are one loop over a pair of brackets.
- Regular expressions of the preprocessor: script blocks, import aliases and `const` declarations are not parsed; only what happens from the end of the callee on is modelled.
- TypeScript parsing and printing: a module is a list of declarations with the names they bind and mention.
- SourceMap.MappingsRoundTrip: the other members of the map are constants.
- ChannelPatterns.TargetsResolve: loading, caching and authorizing definitions are left out; the order of definitions is any list.
- FlashJson.ObjectSize: strings are sequences of Unicode scalar values, so lone surrogates are not modelled; JSON numbers are given by their text; members whose value is undefined are taken to be absent from the payload.
- ValidationFlash.FitValidationFlash: encryption is any function with the lengths of AES-GCM; the order in which `Object.fromEntries` lists kept keys is any permutation; the app key is present or not; warnings about dropped fields are not modelled.
- FlashReading.FlashIsReadBack: the reader takes JSON as `JSON.stringify` writes it, without white space between tokens; decryption is any function that undoes encryption; the check of the shape of what was parsed is left out.
- FlashValues.FilterKeeps: property order follows the input, whose integer-like keys already come first.
- Cryptography, hashing, random numbers, wall-clock time, every network call, the React, Svelte, Nuxt and Next.js bindings, build plugins, configuration and driver registries.
