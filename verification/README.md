# usersync: a verified model

usersync keeps a host's accounts in step with a roster: it reads the host's state, plans actions, carries
them out, and reads again on the next run. This project models that loop and what surrounds it, and proves
what it keeps over one run, over any sequence of runs, and over any interleaving of roster edits.

**The loop.** A `World` holds the databases and file systems a run touches: passwd, group and gshadow entries,
SMB accounts, homes, group folders, quotas, and the namespace of reader views. `Collect` reads it into a
`State`, `Plan` compares the state with a roster, and `Apply` carries the plan out call by call, each with the
backend's own conditions (`Executor.Exec`); any call may also be failed by the environment, as a set of faults.
The loops of the program are methods proved to compute these functions (`Reconciler`, `Machine`, `ViewSystem`,
`Driver`), and the theorems are about the composition: `PlanExact` (the plan, action by action and in order, read off
the host and the roster), `ActionExact` (what each action does), `Observation` (what observing reader views
reports), `Convergence`, `Rounds` and `ExactRounds` (when a host ends in sync, and after how many runs), `PosixRounds`
(the same for runs that own only the POSIX half), `Refusals`, `Success` and `Executability` (what a plan refuses and
when a run goes through), `Standing` (what a run does to groups and memberships, exactly), `Safety` and `History`
(what no run ever does). Hosts on which a stated condition fails are written out in `Sharpness` and `Witnesses`.

**Around it.** Reader views as a state machine over mounts and directories (`Views`, `AllTeams`, `IdMap`); the
roster's validation (`Validation`, `Roster`, `IdRange`); edits of the roster file as interleaved steps of many
clients under a lock, with crashes and power loss (`RosterEdit`, `EditProtocol`, `EditClient`); the share file
(`Splice`, `Shares`); the audit (`Audit`); the getent parsers (`Getent`, `Gshadow`, `GetentExact`); the busybox
membership diff (`Busybox`); distinguished-name escaping (`EscapeDN`); and the watch loop (`Watch`).

## Findings

Statements one would expect that do not hold of the code, each with the condition under which they do:

- *Two clean rounds always converge.* They do not. The reconciler takes the gid of a reader's directory for the
  reader's gid when it observes views. A round that corrects one directory puts the views that matched the wrong
  gid out of step, to be seen only by the next round. `Sharpness.TwoRoundsTooFew`, with `Sharpness.Exists`, is a
  host that two clean rounds do not bring in sync. `ExactRounds.ConvergesInTwo` says exactly when two are enough,
  `ExactRounds.Exactly` when any given number is, both in terms of the host before the first of them, and
  `Rounds.Converges` that two and one more for every wrong directory always are.
- *Some number of rounds converges.* Not where a declared group has the gid of its member's primary group: a scan
  leaves that membership out, so it is planned for ever. `Rounds.Converges` has this as its exact condition, and
  `Witnesses.PrimaryNeverClean` is such a host.
- *A plan without refusals goes through.* Not where an unmanaged group holds the gid a new account's private group
  needs (`Witnesses.GidHeldFails`), where a declared group carries the account's name (`Witnesses.NamesakeFails`),
  where an owner is a reserved name without an account (`Witnesses.ReservedOwnerFails`), where a mount that is not a
  view occupies a view's place (`Witnesses.ForeignMountFails`), or where a password is to be derived without a seed
  (`Witnesses.NoSeedFails`). `Success.SucceedsExactly` has the exact condition, for either half and with refusals;
  `Executability.PlanExecutable` says what it comes to where nothing is refused.
- *Clean posix-only runs leave the POSIX half nothing to do.* They do not touch folders, so only where every declared
  group's folder was as declared from the start, besides what runs of both halves need (`PosixRounds.PosixExactly`).
- *A refused group is left alone.* It is not made, but its members' accounts are still put into the group that has
  its name, and its owners still replace that group's administrators, outside the managed range as well:
  `Witnesses.RefusedYetChanged`. `Standing.LeftAloneExactly` says exactly when the entry of such a group is left as
  it is. Its reader views are still set as well, where they differ from the declared ones (`Success.ReadersPlanned`);
  `Success.ViewsLeftAlone` says that otherwise they stay as they were.
- *An account gains no membership outside the managed range if no group declared for it is there outside it.* It can:
  where such a group is refused and a new account carries its name, the account's private group is what usermod finds
  (`Witnesses.StandInGained`). `Standing.ForeignChangesExactly` says exactly when a run without faults changes such
  memberships, and `History.ForeignSame` what rules it out from the start, over any history.
- *A group no roster names is left alone.* It is, but for members it lists in vain, without an account or with it as
  their primary group: a scan does not report them, so usermod takes them out (`Standing.BystanderEnds`,
  `History.BystandersForever`).
- *Only usersync's own mountpoints are removed.* An empty directory that something else left beneath a view goes
  with the view, where its reader is no longer declared; `Views.SpotsKept` and `Views.RemovedExactly` have this as
  the only exception.
- *Splicing the share block is idempotent.* Exactly if the file's markers are in place
  (`Splice.SpliceIdempotent`), for blocks that hold the end marker only at their end. `Render` does not keep it out
  of a description; then it is idempotent on such a file exactly if nothing of the block follows the line of its
  first end marker (`Splice.InnerEnd`).
- *An escaped value can be read back.* Exactly if all its bytes belong to characters (`EscapeDN.LosslessExactly`).

## Model

| member | source | states |
|---|---|---|
| Rounds.Converges | internal/reconcile/reconcile.go:251-530 | From any host, clean rounds numbering at least two plus one for every reader directory with a wrong gid end in sync if and only if no live user's primary group is a declared group it belongs to |
| Rounds.NeverConverges | internal/provider/scan.go:96-100 | With such a primary group no number of clean rounds ends in sync |
| Rounds.ConvergesAtOnce | internal/executor/executor.go:53-156 | Without residue one clean round ends in sync and every later one leaves the host exactly as it is |
| ExactRounds.Exactly | internal/fsops/view.go:128-165 | For every number of clean rounds: they end in sync if and only if no primary group is in the way, no limit is hidden from a single round, and every team those rounds do not set is observed as declared once their grants are made; all of it read off the starting host |
| ExactRounds.ConvergesInTwo | internal/reconcile/reconcile.go:105-123 | Two clean rounds end in sync if and only if no primary group is in the way and every team the first leaves alone and in step stays in step through the grants of the second |
| Rounds.Progress | internal/fsops/view.go:301-358 | Where no primary group is in the way, a clean round over a built host ends in sync or leaves fewer wrong reader directories |
| Rounds.InSyncStays | internal/executor/executor.go:194-206 | On a host in sync the plan has no change and no refusal, and running it under any faults changes nothing and reports no error |
| PosixRounds.PosixExactly | internal/cmd/apply.go:28-52 | For every number of clean runs that own only the POSIX half: nothing is left for one more to change if and only if every declared folder was as declared from the start, no primary group is in the way, and that many rounds are enough for the views; all of it read off the starting host |
| PosixRounds.PosixQuiet | internal/cmd/apply.go:28-52 | What the filter leaves of a plan holds only notices if and only if groups, folders, views, accounts and memberships are as declared, spelled out without the planner |
| Convergence.OneRound | internal/executor/executor.go:208-343 | One clean round ends in sync if and only if the host had no residue: no limit on an unborn account's uid, no hidden primary group, no views put out of step by the round itself |
| Convergence.SmbFollowsRoster | internal/reconcile/reconcile.go:478-529 | After a clean round a managed account with a valid name is enabled in SMB if and only if the roster declares it active |
| Convergence.PrimaryHidden | internal/provider/scan.go:96-100 | A declared group that is the user's primary group is not among its memberships as scanned, even right after a clean run granted it, so what is collected stays unlike what is declared |
| Convergence.AccountsBorn | internal/executor/executor.go:296-343 | Every account a clean round made is a declared, unreserved user's, with its uid, a gid of its own that a group holds, its full name, and a locked unix password |
| Sharpness.TwoRoundsTooFew | internal/fsops/view.go:259-265 | On the described host, two clean rounds leave something to change |
| Sharpness.Exists | internal/fsops/view.go:391-409 | Such a host and roster exist, written out |
| Agreement.PlanQuiet | internal/reconcile/reconcile.go:251-438 | A plan holds only notices if and only if the host agrees with the roster, spelled out entity by entity without mention of the planner |
| PlanExact.PlanExactly | internal/reconcile/reconcile.go:251-530 | An action, with everything in it, is in the plan if and only if it is due; what is due is spelled out on host and roster for each of the seventeen kinds, causes of refusals and notices included |
| PlanExact.PlanIs | internal/reconcile/reconcile.go:251-438 | The plan is the one list of what is due in this order: groups and folders, reader views, users, administrators, orphan groups, orphan users; by name; account, home, SMB, limit |
| PlanExact.NoticesExact | internal/reconcile/reconcile.go:404-435 | An orphan notice is in the plan if and only if a managed account (group) has no roster entry of its name, whatever its SMB side; a reserved one if and only if a reserved user's account is there with its uid |
| Agreement.UserGroupsExact | internal/reconcile/reconcile.go:372-387 | Inverting the member lists gives each user exactly the groups that contain it |
| Agreement.WantReadersExact | internal/reconcile/reconcile.go:50-72 | The views wanted for a group are its declared readers, in name order |
| Observation.ObservedExact | internal/fsops/view.go:128-165 | Reported for a team are, once each and in order, the readers with a view whose root shows the gid of their directory, and, if the team has a folder, its unmounted mountpoints as leftovers |
| Observation.LeftoverSeen | internal/fsops/view.go:150-159 | For a team with a folder a leftover is reported if and only if usersync's own mountpoint of another reader is there with nothing on it |
| Observation.AgreesExactly | internal/fsops/view.go:128-165 | What is observed of such a team is a given set of names without the mark if and only if these are the readers whose view shows and no mountpoint is left over |
| Fits.PlanFits | internal/reconcile/reconcile.go:251-530 | Every action of a plan is justified by a roster entry and by the state of the host it was planned on |
| Phases.GroupsMade | internal/reconcile/reconcile.go:270-273 | Once the first part of a clean run is over every declared group is there with its gid |
| Phases.NoLateGroups | internal/reconcile/reconcile.go:270-273 | After that part no group is made any more |
| Runs.Achieves | internal/executor/executor.go:194-206 | What an action of a clean run brings about, or what held before it, still holds at the end of the run |
| Calls.CreateUserOk | internal/executor/executor.go:296-343 | In either half, creating an account goes through if and only if the account is there or its uid and private group are free, its groups are there by then, and its SMB half, where it is run, can be done |
| Refusals.GroupRefusedExactly | internal/reconcile/reconcile.go:286-309 | A declared group is refused if and only if its name is there under another gid, or free with its gid held by any group |
| Refusals.UserRefusedExactly | internal/reconcile/reconcile.go:440-476 | A declared user is refused if and only if an account of its name has another uid (a managed one, for a reserved user), or it is not reserved, has none, and its uid is held or a group of its name has another gid |
| Refusals.RefusalFree | internal/reconcile/reconcile.go:251-438 | A plan is free of refusals if and only if no declared entry is so refused |
| Success.SucceedsExactly | internal/executor/executor.go:194-206 | A run without faults, of both halves or of the POSIX one alone, with refusals or without, reports no error if and only if a seed is there when one is needed, the views to be set have their folder and room, the accounts to be made can be, the groups users are to join are there by their turn, and so are the groups whose owners are to be set and these owners; all of it read off host and roster |
| Success.ViewsLeftAlone | internal/reconcile/reconcile.go:342-365 | Whatever fails, the views of a declared group, refused or not, stay as they were unless what is mounted is known and differs from what is declared, or is not known and readers are declared |
| Executability.PlanExecutable | internal/reconcile/reconcile.go:251-438 | What that comes to for a run of both halves whose plan refuses nothing: private groups are free, views have room, owners exist and a seed is there when one is needed |
| Witnesses.GidHeldFails | internal/provider/shadowutils.go:161-169 | A host where a refusal-free run fails by itself: the gid of a private group is held outside the managed range |
| Witnesses.NamesakeFails | internal/provider/shadowutils.go:174-197 | One where a declared group carries the new account's name |
| Witnesses.ReservedOwnerFails | internal/provider/shadowutils.go:274-281 | One where an owner is reserved and has no account |
| Witnesses.NoSeedFails | internal/cmd/apply.go:194-206 | One where a password is needed and there is no seed |
| Witnesses.ForeignMountFails | internal/fsops/view.go:419-459 | One where a mount that is not a view is in a view's place |
| Witnesses.PrimaryNeverClean | internal/provider/scan.go:96-100 | A host whose run is clean and that no number of clean rounds brings in sync |
| Phases.AdminsLast | internal/reconcile/reconcile.go:369-401 | Administrators are set only after every account has been dealt with |
| Safety.TurnSafe | internal/executor/executor.go:194-206 | Any run, refusals and failing calls included: nothing disappears, no id changes, no two accounts and no two groups come to share an id, passwords stay, unmanaged accounts and foreign memberships stay, and an unmanaged group no declared one names keeps gid, administrators and members but for those it lists unseen |
| Safety.PosixOnlySafe | internal/cmd/apply.go:40-52 | A run that owns only the POSIX half leaves SMB accounts, homes, folders and quotas exactly as they were |
| History.HistorySafe | internal/reconcile/reconcile.go:275-309 | Over any sequence of runs with any accepted rosters and any faults nothing disappears, no id changes, no sharing of ids is added to what the host had, and SMB passwords are never overwritten, new ones being the derived ones |
| History.ManagedIdsUnique | internal/reconcile/reconcile.go:275-309 | So managed uids and gids stay unique over any history, whatever ids the rest of the host shares |
| History.UidReserved | internal/reconcile/reconcile.go:447-476 | A uid that every roster names for one user, of any status, never goes to another |
| History.UidWithheld | internal/roster/load.go:261-275 | A uid that every roster reserves never goes to anyone |
| History.UnmanagedUntouched | internal/idrange/idrange.go:78-103 | An account outside the managed range comes through any history untouched |
| History.ForeignForever | internal/reconcile/reconcile.go:499-518 | Memberships outside the managed range are never lost, and gained only where a roster declares them |
| History.ForeignSame | internal/executor/executor.go:82-94 | They are identical before and after any history, whatever is refused or fails in it, where every group ever declared for the account is at the start managed, its primary one, or one it is in already, or is absent and has the name of no user who has yet to get an account |
| History.BystandersForever | internal/provider/shadowutils.go:202-207 | Over any history a group outside the managed range that no roster names keeps its gid and its administrators, gains nobody, and loses only declared users that it lists without an account or as their primary group |
| Standing.MembersEnd | internal/executor/executor.go:208-343 | After any run without faults, refusals and failing actions included, the members of any group: those usermod was run for if it was given the group, everybody else if they were before; whom it was run for is read off the host |
| Standing.AdminsEnd | internal/reconcile/reconcile.go:324-337 | And its administrators: the declared owners, whatever gid the declared group of that name has, where gpasswd was run, and otherwise those before |
| Standing.GroupsEnd | internal/provider/shadowutils.go:161-197 | The groups after such a run: those that were there under the gid they had, the declared ones that could be made, and the private groups of the accounts that could |
| Standing.ForeignEnds | internal/provider/shadowutils.go:202-207 | An account's memberships outside the managed range after it: those it had, and if usermod was run for it, the declared ones that are there unmanaged or have come about as another account's private group |
| Standing.ForeignChangesExactly | internal/executor/executor.go:82-94 | So they change if and only if usermod is run for it with such a group it was not in |
| Standing.LeftAloneExactly | internal/reconcile/reconcile.go:292-337 | A declared group that was there, refused or not, is left as it is if and only if everybody usermod is run for is already in or out of it as told, and gpasswd, if it is run, is told the administrators it has |
| Standing.BystanderEnds | internal/provider/shadowutils.go:202-207 | An unmanaged group no declared one names loses exactly the users usermod is run for that it lists without an account or as their primary group, and changes in nothing else |
| Witnesses.RefusedYetChanged | internal/reconcile/reconcile.go:292-337 | A host where a group is refused and the same run puts a member into the one of its name, which is not managed, and replaces its administrators |
| Witnesses.StandInGained | internal/provider/shadowutils.go:174-207 | A host where no group of a refused group's name is there, and its declared member ends in the private group, outside the managed range, of the new account of that name |
| OrderFree.PlanPermuted | internal/reconcile/reconcile.go:254-284 | Permuting a roster's groups and users leaves the plan identical, action for action |
| Names.SortByPermuted | internal/reconcile/reconcile.go:254-260 | Sorting by distinct names forgets the order it was given |
| Names.LessExact | internal/reconcile/reconcile.go:257-260 | Names are in order of their first differing character, a part before the whole |
| Reconciler.ReconcileRoster | internal/reconcile/reconcile.go:251-438 | On any collected state the loops compute exactly the plan, in whatever order the maps are walked |
| Reconciler.ReconcileUser | internal/reconcile/reconcile.go:440-530 | The branches for one user give exactly its part of the plan |
| Reconciler.MergeGroups | internal/reconcile/reconcile.go:25-42 | Through a seen-set: the sorted union |
| Reconciler.ResolveReaders | internal/reconcile/reconcile.go:50-63 | Through a seen-set: the readers with a gid, once each, by name |
| Reconciler.SameGroupSet | internal/reconcile/reconcile.go:533-549 | True if and only if both lists hold the same names |
| Reconciler.DedupSorted | internal/reconcile/reconcile.go:551-559 | In place: the first n elements are the ascending members of the list |
| Reconciler.AdminsDiffer | internal/reconcile/reconcile.go:584-590 | True if and only if the two lists differ as multisets |
| Reconciler.InvertMemberships | internal/reconcile/reconcile.go:378-383 | The loop gives each user the groups that contain it, in order |
| Executor.OutcomesExact | internal/executor/executor.go:194-206 | One result per action: that of the action run on what those before it left, failed or not |
| Executor.ApplyTrace | internal/executor/executor.go:194-206 | Every action runs on what the one before it left, failed or not, and the run is well if and only if every one is |
| Executor.RunTrace | internal/executor/executor.go:208-343 | An action's calls run in order up to the first that fails; that one and those after it do nothing |
| ActionExact.EffectExact | internal/executor/executor.go:208-294 | What each action on what is there does to the world, field by field, and exactly when it fails, without effect: memberships, administrators, SMB, homes, limits; notices and refusals do nothing |
| ActionExact.GroupMadeExact | internal/executor/executor.go:208-217 | Making a group fails if and only if its gid is held under another name; otherwise the group is there and, unless the run owns the POSIX half alone, its folder as asked |
| ActionExact.CreateExact | internal/executor/executor.go:296-343 | A creation that can be done makes the account, locked, with its own group and exactly its groups, its home if it wants one, and SMB on or off, the password derived unless an SMB account was there; nothing else changes |
| Calls.HomeMade | internal/fsops/fsops.go:81-89 | Whatever was there, the home is the user's with mode 0700 |
| Calls.FolderMade | internal/fsops/fsops.go:53-79 | Whatever was there, the folder is the group's with the mode asked for, 02770 where none is, and keeps its owner |
| Machine.Machine.Apply | internal/executor/executor.go:194-206 | The host ends where the specification of a run ends, with one result per action |
| Machine.Machine.Dispatch | internal/executor/executor.go:208-288 | One action moves the host exactly as the run of its calls |
| Machine.Machine.CreateAccount | internal/executor/executor.go:296-343 | The calls of a create, in order, stopping at the first that fails |
| Machine.Machine.EnsureUser | internal/provider/shadowutils.go:174-197 | Private group, then account; nothing where the account is there |
| Machine.Machine.AddGroup | internal/provider/shadowutils.go:161-169 | Fails on a held gid, does nothing for a group that is there |
| Machine.Machine.SetSupplementaryGroups | internal/provider/shadowutils.go:202-207 | The user is in exactly the listed groups afterwards; fails on an unknown one |
| Machine.Machine.SetGroupAdmins | internal/provider/shadowutils.go:274-281 | The sorted list replaces the administrators; fails on an unknown user or group |
| Machine.Machine.EnsureGroupDir | internal/fsops/fsops.go:53-65 | Folder, group and mode in three calls |
| Machine.Machine.Collect | internal/executor/executor.go:53-156 | The loops fill exactly the specified state |
| Machine.Machine.SplitMemberships | internal/executor/executor.go:82-94 | An account's groups, split into managed and foreign, each sorted |
| Driver.RunApplyOnce | internal/cmd/apply.go:91-189 | Nothing is touched without a seed that is needed; otherwise the host goes through exactly the turn the theorems are about |
| Driver.NssOnlyActions | internal/cmd/apply.go:40-52 | Keeps exactly the actions of the POSIX half, in order |
| Executor.LeftOut | internal/cmd/apply.go:40-52 | Dropped are exactly the actions on SMB accounts, homes and limits |
| Driver.SeedNeeded | internal/cmd/apply.go:194-206 | True if and only if some action derives a password |
| Views.EnsuredObserved | internal/fsops/view.go:301-358 | After a successful run for a team exactly its declared readers are observed, sorted, with no leftover, and their directories carry the declared gids |
| Views.EnsuredOk | internal/fsops/view.go:301-358 | A run without faults succeeds if and only if every declared reader's point is ready, whatever folders there are: one that already presents the reader, or, with the team's folder there, one that can be mounted |
| Views.OtherTeams | internal/fsops/view.go:301-380 | Successful or not, a run for one team changes no other team's points |
| Views.RunKeepsForeign | internal/fsops/view.go:232-248 | No call takes down a mount that is not a view, or removes a path that is occupied |
| Views.SpotsKept | internal/fsops/view.go:301-380 | Whatever fails, a run for a team leaves every path that is not one of usersync's own empty mountpoints as it is, but for empty directories beneath views of readers no longer declared, and makes paths for declared readers only |
| Views.RemovedExactly | internal/fsops/view.go:301-380 | A successful run without faults removes exactly those |
| Views.SettledObserved | internal/fsops/view.go:128-165 | A team whose points are as declared is observed as exactly its declared readers |
| Views.StaysSettled | internal/fsops/view.go:286-298 | Runs for other teams leave a settled team settled |
| AllTeams.AllAgree | internal/fsops/view.go:286-298 | A pass over all teams makes all of them agree at once |
| ViewSystem.Namespace.EnsureReaderViews | internal/fsops/view.go:286-358 | The loops move mounts and directories exactly as the plan made for the namespace they started on |
| ViewSystem.Namespace.DropUndeclared | internal/fsops/view.go:307-341 | Views nobody declares come down; gives the declared readers already mounted |
| ViewSystem.Namespace.SweepLeftoverPoints | internal/fsops/view.go:362-380 | The team's unmounted points go, but for wanted readers' |
| ViewSystem.Namespace.EnsureView | internal/fsops/view.go:419-459 | A view that presents the reader is left, any other is mounted anew |
| ViewSystem.Namespace.EnsureReaderDir | internal/fsops/view.go:391-409 | The reader's directory exists and carries its gid |
| ViewSystem.Namespace.ReadReaderViews | internal/fsops/view.go:128-165 | The readers with a working view, then the leftovers, sorted |
| IdMap.IdmapSpec | internal/fsops/view.go:83-114 | Refuses exactly equal and out-of-range gids; otherwise the extents ascend, are disjoint in source and destination, and substitute reader for team leaving every other id fixed |
| IdMap.GidExtents | internal/fsops/view.go:95-114 | The loop appends exactly those extents, without wrap-around |
| IdMap.ShownIsMapping | internal/fsops/view.go:83-114 | What a view shows of an id, as the view machine uses it, is what the extents say |
| IdMap.MappingImage | internal/fsops/view.go:83-94 | Every id but the team gid is shown, and the team gid never is |
| IdMap.MappingInjective | internal/fsops/view.go:83-94 | No two ids are shown as one |
| IdRange.ClassesExact | internal/idrange/idrange.go:78-103 | In comparisons only, bounds included: protected below 1000, below the floor, or in a protect range; managed if not so and in the manage range; out of scope otherwise |
| IdRange.ClassifyLoop | internal/idrange/idrange.go:89-103 | The search of the protect ranges gives the class |
| IdRange.ProtectedWins | internal/idrange/idrange.go:78-103 | No configuration makes a uid or a gid below the floor or in a protect range manageable |
| IdRange.WindowsDisjoint | internal/cmd/config/config.go:209-213 | No id is managed both as a uid and as a gid |
| Roster.GroupReadersExact | internal/roster/roster.go:345-361 | The resolved readers are exactly the listed ones and, for a group that is neither anonymous nor exempt, the other groups that read all |
| Roster.OnlyListed | internal/roster/roster.go:345-361 | An exempt group and an anonymous one have the readers they list and no others |
| Roster.ReadersInOrder | internal/roster/roster.go:349-361 | Any other group has the readers it lists and then the unlisted groups that read all, in roster order |
| Roster.ComputeGroupReaders | internal/roster/roster.go:353-361 | The loop appends exactly those |
| Roster.ComputeGroupMembership | internal/roster/roster.go:378-392 | The members listed, or the active users of the cohort, in roster order |
| Roster.MembershipExact | internal/roster/roster.go:378-392 | A group that selects everyone or a profile contains exactly the active users selected, those without a profile counting as default; any other exactly those it lists |
| Roster.CohortInOrder | internal/roster/roster.go:382-391 | The users selected are in roster order |
| Validation.Validate | internal/roster/load.go:132-323 | No error if and only if the roster is acceptable, stated without the loops; and the entries to be skipped |
| Validation.NameExact | internal/roster/load.go:37-47 | A name is valid if and only if it has 1 to 32 lower-case letters, digits, underscores, dots and dashes and starts with a letter or an underscore |
| Validation.GroupNameExact | internal/roster/load.go:41-68 | A group's name is no section's and no reader's share's, and its description has no control character |
| Validation.UserExact | internal/roster/load.go:261-323 | A user passes if and only if its name is valid, its full name has no separator or control character, and its id is not protected, nor out of scope unless such entries are skipped |
| Validation.SkippedExact | internal/roster/load.go:285-323 | Skipped are exactly the entries whose id is out of scope |
| Validation.CheckReaders | internal/roster/load.go:190-228 | No error if and only if each reader is declared, listed once, not the group itself and not reading it anyway |
| Validation.NarrowedUnique | internal/roster/load.go:332-348 | What is left of an accepted roster is managed, with every name and id declared once |
| Validation.ReadersSound | internal/roster/load.go:139-228 | On an accepted roster a group's readers are distinct, declared, and never the group itself |
| Shares.OneRelation | internal/cmd/roster.go:175-186 | A pair is mounted if and only if it is served as a read-only share, and if and only if it is exported as a view |
| Shares.NarrowedReads | internal/roster/load.go:332-348 | Narrowing keeps who reads whom among managed groups |
| Shares.SectionsDistinct | internal/smbconf/smbconf.go:157-179 | All section names of the rendered block are pairwise distinct |
| Shares.Render | internal/smbconf/smbconf.go:37-146 | The builder emits homes, every team by name, then every reader's share by name |
| Shares.SectionsExact | internal/smbconf/smbconf.go:37-146 | The block holds the homes, a section for every declared team, closed to its members if and only if it is not anonymous, with the folder's mode for new folders, and one for every group that reads some team, with all of these |
| Shares.SectionsOrdered | internal/smbconf/smbconf.go:37-179 | Homes first, then the teams by name, then the readers by name |
| Shares.ViewsByReader | internal/cmd/roster.go:175-186 | For each reader exactly the teams it reads, sorted |
| Shares.ViewsExact | internal/cmd/roster.go:175-186 | Exported for a reader are the teams it reads, each once, by name |
| Splice.SpliceIdempotent | internal/smbconf/smbconf.go:185-206 | Splicing a block twice is splicing it once, if and only if the file's markers are in place |
| Splice.SpliceTwice | internal/smbconf/smbconf.go:185-206 | On such a file only the last block spliced counts |
| Splice.SpliceIs | internal/smbconf/smbconf.go:185-206 | A splice puts the block in the place of an old one, from a begin marker to the line of an end marker, or after the text with an empty line between them, and keeps the rest verbatim |
| Splice.BlockBounds | internal/smbconf/smbconf.go:189-205 | The old block runs from the first begin marker to the first end marker and the newline that follows it |
| Splice.SpliceLined | internal/smbconf/smbconf.go:185-188 | A block without a final newline is spliced as with one |
| Splice.StrayEnd | internal/smbconf/smbconf.go:189-205 | A stray end marker makes every splice append |
| Splice.StrayBegin | internal/smbconf/smbconf.go:189-205 | A stray begin marker makes the second splice lose text |
| Splice.InnerEnd | internal/smbconf/smbconf.go:28-30 | On every well-placed file a block with an end marker inside is spliced idempotently if and only if nothing follows the line of its first end marker |
| EditProtocol.AlwaysWhole | internal/roster/edit.go:258-301 | In every interleaving, with time-outs, crashes, and power loss that undoes any number of renames not yet on disk, the roster is a complete accepted document: the committed edits applied in commit order |
| EditProtocol.Exclusive | internal/roster/lock.go:28-45 | At most one client is in the critical section |
| EditProtocol.LastEditDecides | internal/cmd/member.go:121-181 | Each membership is what its last committed edit said, or the first document where there is none |
| EditProtocol.SuccessMeans | internal/cmd/member.go:121-181 | A client that reports success leaves its membership as asked and every other unchanged |
| EditProtocol.GivesUpLate | internal/roster/lock.go:28-67 | A client gives up only while another has the lock and after waiting for more than five seconds, and then reports no success |
| EditClient.FlockWait | internal/roster/lock.go:52-67 | Granted, refused or timed out by the first attempt that is one of these; a lock granted past the deadline is still taken |
| EditClient.Directory.WriteFile | internal/roster/edit.go:258-301 | Whatever step fails, the roster is the new text on disk or exactly what it was, and no temp file is left behind by a reported failure |
| EditClient.Directory.EditMembership | internal/cmd/member.go:121-181 | Nothing is written that would not load or validate; a refused or failed edit changes nothing, and a write fails if and only if one of its six steps does |
| RosterEdit.EditedExact | internal/roster/edit.go:188-212 | An edit decides the membership it names and leaves every other as it was |
| RosterEdit.AddWrites | internal/roster/edit.go:188-199 | The list written for an addition holds each listed name as often as before and the new one once, in order, so without repetition if there was none; every other group keeps its list |
| RosterEdit.RemoveWrites | internal/roster/edit.go:202-212 | The list written for a removal holds every other name as often as before, in the order they had |
| RosterEdit.EditFails | internal/roster/edit.go:87-140 | An edit fails if and only if no entry has the name, or the first one that has holds something else than a list |
| RosterEdit.EditedTwice | internal/roster/edit.go:188-212 | The same edit again changes nothing |
| RosterEdit.WithMembersKeeps | internal/roster/edit.go:142-185 | Changing the member list touches no other key, keeps the others in their order, and leaves a list that is replaced in its place |
| RosterEdit.WithMembersPlace | internal/roster/edit.go:142-185 | A new list comes last, and an empty one leaves no key |
| RosterEdit.Document.SetMembers | internal/roster/edit.go:142-185 | In place: the group's pairs with the new list, in its place, at the end, or without the key when empty |
| RosterEdit.Document.AddMember | internal/roster/edit.go:188-199 | The sorted list with the user added; no change where it is there |
| RosterEdit.Document.RemoveMember | internal/roster/edit.go:202-212 | The list without the user; no change where it is not there |
| RosterEdit.Document.GroupNode | internal/roster/edit.go:87-100 | The first entry of that name |
| Audit.Run | internal/audit/audit.go:133-217 | The report holds every true finding and no other, in strictly increasing order for distinct names, and is clean if and only if the system agrees with the ledger |
| Audit.NothingTrueExactly | internal/audit/audit.go:133-217 | No finding is true if and only if live names resolve to their numbers, tombstones to nothing, and every enumerated managed number has one name, a declared one |
| Audit.OneOrder | internal/audit/audit.go:206-215 | Only one list of findings is in order, so map iteration order cannot show |
| Audit.BeforeExact | internal/audit/audit.go:206-215 | Groups come before users, then names count, then the codes in the order of their texts |
| Audit.CollisionsMutual | internal/audit/audit.go:224-248 | A collision names exactly the other holders, and each of them reports it |
| Audit.Collisions | internal/audit/audit.go:224-248 | One line for each name that shares a managed number, naming the others in order |
| Getent.ScanRoundTrip | internal/provider/scan.go:20-107 | Scanning the printed form of a well-formed database gives every user back, colons in the GECOS field and all, with its groups, and nobody else, and every group with its gid, and no other |
| Getent.GroupsExact | internal/provider/scan.go:87-103 | A user's groups are exactly those that list it and have not its primary gid |
| Getent.PasswdRoundTrip | internal/provider/scan.go:43-58 | One printed passwd line reads back as its entry |
| Getent.GroupRoundTrip | internal/provider/scan.go:71-90 | One printed group line reads back as its entry |
| Getent.Scan | internal/provider/scan.go:20-107 | The line loops compute the users, their groups in file order, and the group table |
| GetentExact.PasswdExact | internal/provider/scan.go:31-66 | Any line gives a user if and only if, trimmed, it reads name:password:uid:gid:gecos:home:shell with colons in the GECOS field at most, and that user |
| GetentExact.GroupExact | internal/provider/scan.go:68-107 | Any line gives a group if and only if it starts name:password:gid:members, with the names between the commas but for blank ones |
| GetentExact.IdExact | internal/provider/scan.go:43-50 | An id is read from its decimal digits, behind any zeros, and from nothing else |
| GetentExact.LaterUser | internal/provider/scan.go:55-64 | Of two lines of one user the later counts |
| GetentExact.LaterGid | internal/provider/scan.go:82-83 | Of two lines of one group the later gid counts |
| Gshadow.AdminsRoundTrip | internal/provider/shadowutils.go:83-109 | Scanning the printed form of a well-formed gshadow gives every group its administrators, sorted, and no other group any; they count as known unless there is no line at all |
| Gshadow.LineRoundTrip | internal/provider/shadowutils.go:97-107 | One printed gshadow line reads back as its group's administrators |
| Gshadow.ScanAdmins | internal/provider/shadowutils.go:89-109 | The loops compute that table, and known if and only if getent answered with something |
| GetentExact.AdminsExact | internal/provider/shadowutils.go:97-107 | Any line gives administrators if and only if it starts name:password:administrators and the name is not empty |
| GetentExact.AnsweredExact | internal/provider/shadowutils.go:91-96 | The administrators count as known if and only if the answer holds more than blanks |
| GetentExact.LaterAdmins | internal/provider/shadowutils.go:107 | Of two lines of one group the later counts |
| Busybox.SetSupplementaryGroups | internal/provider/busybox.go:86-141 | The diff ends where `Busybox.After` says, fails exactly on a group to be joined that does not exist or for a user without an account, having joined exactly the groups before that one, and changes nothing but who lists the user |
| Busybox.RefinesReplace | internal/provider/shadowutils.go:202-207 | For safe names outside the primary gid that is what an exact replace gives, for any current and desired sets; unsafe names keep their membership |
| Busybox.ScansAsDesired | internal/provider/busybox.go:86-141 | With safe names the next scan reports exactly the desired groups |
| EscapeDN.RoundTrip | internal/idexport/idexport.go:142-164 | The output parses under section 2.4 of RFC 4514, with no special character unescaped, and decodes by section 3 to the characters that went in |
| EscapeDN.LosslessExactly | internal/idexport/idexport.go:142-164 | It decodes to the very input if and only if every byte of it belongs to a character |
| EscapeDN.NothingSpared | internal/idexport/idexport.go:142-164 | Nothing is escaped without need: left plain, any escaped character would break the grammar |
| EscapeDN.Escape | internal/idexport/idexport.go:142-164 | The builder loop writes exactly the escaped form |
| Watch.RunExact | internal/cmd/watch.go:113-157 | In every run, tick by tick: a cycle if and only if the roster changed since the tick before or a reload was accepted, with the last configuration accepted by then; a changed otel section announced if and only if a reload accepted there brings another one than the last before it; the end if and only if the file loads in another mode |
| Watch.CyclesSound | internal/cmd/watch.go:113-157 | So no cycle of any run leaves manage mode or the otel section the process started with |
| Watch.NotRetried | internal/cmd/watch.go:120-124 | A configuration that does not load is not read again until the file changes |
| Watch.EndsOnMode | internal/cmd/watch.go:125-128 | A tick is reached if and only if none before it loads a configuration of another mode |
| Watch.Watcher.Reload | internal/cmd/watch.go:174-195 | In place: an accepted configuration replaces the one in use but for its otel section |
| Watch.Watcher.OnTick | internal/cmd/watch.go:113-157 | One pass of the loop moves the watcher as specified |

## Left out

- The processes and system calls behind the backends (useradd, smbpasswd, mount, zfs, flock): each is a call with a stated effect and stated conditions, and may fail without effect.
- The wording of reasons, reports, prompts, JSON and logs; an action carries its cause, not its sentence.
- YAML: a document is its list of groups, each a list of keys and values. Loading and validating a document, and looking up a declared name in its text, are parameters of the edit protocol.
- The password derivation: a derived secret is known only as the one derived for a name.
- The unix password lock is set on creation (Convergence.AccountsBorn) and looked at no more, so it is no part of being in sync.
- Runs of one half are followed by runs of the same half: hosts that alternate between both are covered by the safety theorems and, run by run, by `Success` and `Standing`.
- Executability.PlanExecutable: for runs of both halves and plans without refusals; Success.SucceedsExactly has no such limit.
- Views and groups directories are taken as configured; paths are pairs of base and name.
- At most one mount per view point, and a view shows the current folder of its team; unmounting lazily is unmounting.
- Making a mountpoint, and mounting with the check that follows, are single calls.
- The gshadow lists are kept with the group entries of a world; the password field of a printed passwd or group line is always `x`.
- Order and repetition of memberships: a state holds them as sets, which is how the reconciler compares them.
- Busybox.SetSupplementaryGroups: the scan it starts from is taken from the databases directly.
- Shares.Render: a share is its section name, whom it admits and the modes of what is made in it; its other directives and comments are not modelled.
- EditProtocol.LastEditDecides: for rosters whose accepted documents name each group once, which the loader enforces; `purge --reserve` writes the roster without the lock and is no client of the protocol.
- Watch: a roster change between the first cycle and the first signature is not seen by the loop; signatures are opaque, and cancellation ends the sequence of ticks.
- Configuration loading, profiles' sizes, quota backends, LDIF and CSV beyond the escaping, the export command, shell entry points and probes.
