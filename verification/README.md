# Pipes, users, mailboxes and SOCKS: a verified model

The repository holds three shells (`project1/npshell.cpp`, `project2/np_simple.cpp`,
`project2/np_single_proc.cpp`), a multi-process chat server (`project2/np_multi_proc.cpp`) and a SOCKS 4
proxy (`project4`). This project models the stateful parts of them and proves what they keep over whole runs.

**Numbered pipes.** `cmd |N` sends its output to the N-th later command of the same client. `Schedule` says
so directly, with no table: a map from (client, index of a command) to the pipe that command reads.
`CountdownRing` is the table of countdowns used by the project2 servers, `ShiftingList` the list of pipe
slots used by npshell. Each is proved to do what `Schedule` asks *exactly when* a guard, checkable before
the line, holds. That is agreement in everything, state included; for the table it can last only until the
ring has turned once (`RingRuns`). `RingHistory` says with no guard what every line of every run reads, and
so when a pipe is delivered and when it is lost; `RingSchedule` compares this with the schedule over runs of
any length; `RingCapacity` has the exact capacity of the ring and what becomes of entry 1000. `Refinement`
runs table and list side by side. `NpSimple` and `NpShell` are the imperative forms: the source's arrays and
vectors, changed in place by its loops, each method tied to a step of the value model.

**One server process, many clients.** `Pipeline` is the stage loop with the dup2 table: `fork` is recorded
as the child's three standard descriptors and the pipe ends it inherits. `Registry` holds ids, nicknames
and logins. `ChatServer` puts the shared table, the registry, the user-pipe matrix and the server's open
pipe ends into one state with one step per event. `ServerRuns` proves what every interleaving keeps (ids,
names, flags) and what clean ones keep (end of file); `UserPipes` compares the user-pipe matrix with the
letters really posted and read; `Delivery` says which child reads what which child wrote, per descriptor
and per session; `ServerExamples` has runs for the failing cases. `NpSingleProc` is the imperative form.

**Mailboxes and signals.** `Mailbox` is the ten slots between one sender and one receiver: conservation
and order of delivery. `Signals` interleaves senders (fill a slot, then signal) with handlers (visit the
300 slots one by one; signals coalesce and are held back while the handler runs): no wake-up is lost, runs
end, nothing is left. `Commands` says whom a broadcast and a tell reach, and `DeliveryOrder` exactly which
runs deliver in sending order. `NpMultiProc` is the imperative form over shared arrays.

**SOCKS 4.** `Relay` is the callback protocol of `socks_bridge` and `socks_bind` for every order of
completions, `SocksSession` its object with buffers updated in place, and `Socks4` the request codec, whose
encoder and decoder live in different programs, and the firewall rules.

## How departures from intent are handled

The code is modelled as it is. Where a property fails of the code, a lemma ending in `Iff` states exactly
when it holds, and another lemma shows a failing case, as a run from the start where the property is about runs.

- `pos` runs over 0..1000 but the aging scan stops at 999, so entry 1000 never ages and its pipe is never read
  (`RingHistory.DeliveredIff`, `RingSchedule.ReadsAsScheduledIff`, `RingCapacity.LastEntryForever`,
  `RingCapacity.TurnLosesOne`).
- An entry that is taken again while it waits loses its pipe (`RingHistory.RetakenIsLost`,
  `RingCapacity.CapacityIff`).
- A builtin or a rejected line that carries a suffix leaves a countdown with no pipe behind it
  (`CountdownRing.PhantomEntry`, `RingRuns.BuiltinSuffixMergesStale`).
- In npshell an ordinary pipe symbol that meets an occupied slot consumes it
  (`ShiftingList.TwoPositionsLose`, `Refinement.ConsumedExample`).
- `np_single_proc` marks a user pipe as taken before it knows whether the line will run. The pipe is lost
  when `>` is then refused, when the line is a builtin, and when a numbered pipe matures on the line and
  takes the place of the input; a one-stage `<me >me` loses the new pipe (`UserPipes.StepMailIff`,
  `ServerExamples.LostPipeExamples`).
- A line that gives one pipe both to a user and to a suffix keeps a write end open
  (`ChatServer.SharedPipeBreaks`, `ServerExamples.SharedPipeExample`).
- A leaver's table entries stay, so a new session on the descriptor may read what an old one wrote
  (`Delivery.SessionInheritsIff`, `ServerExamples.InheritedExample`).
- A message stored behind a handler in mid-row is overtaken (`DeliveryOrder.DeliveredInOrderIff`,
  `DeliveryOrder.ReorderingRun`).
- `socks_bridge` ignores short sends, `socks_bind` resends from the start of the buffer
  (`Relay.BridgeWriteIff`, `Relay.BindWriteIff`, `Relay.RetriesIntactIff`).
- `match_IP` never compares the fourth part of an address (`Socks4.MatchIntendedIff`).
- `memcpy(pipedata, pipe_fd, 2)` copies two bytes where two descriptors are meant; the model returns both
  descriptors.

## Model

| member | source | states |
|---|---|---|
| `Schedule.ExactDelivery` | project2/np_single_proc.cpp:404-420 | over every interleaved run, command j reads what command i wrote under suffix N if and only if both belong to one client and j is its N-th later command that runs (builtins and rejected lines do not count) |
| `Schedule.ReadHasWriter` | project2/np_single_proc.cpp:551-561 | whatever a command reads was written by an earlier command of the same client |
| `Schedule.ReadOnce` | project2/np_single_proc.cpp:551-561 | no numbered pipe is read by two commands |
| `Schedule.EarlierIff` | project2/np_single_proc.cpp:551-561 | command j reads a pipe made before line a if and only if that pipe was already due after a lines |
| `Schedule.DueOrigin` | project2/np_single_proc.cpp:404-420 | a pipe that is due was made by the line it is named after, the first to name that target |
| `Schedule.WritesFiled` | project2/np_single_proc.cpp:404-420 | the pipe a line writes stays filed under its target for the rest of the run, so later lines with that target join it |
| `CountdownRing.FindPending` | project2/np_single_proc.cpp:407-413 | the merge scan returns the first entry of the client with countdown N+1 below the bound, or -1 when there is none |
| `CountdownRing.FindMatured` | project2/np_single_proc.cpp:552-558 | the aging scan returns the last entry of the client that stands at 1, or -1 when there is none |
| `CountdownRing.FreshIffNotDue` | project2/np_single_proc.cpp:407-418 | the merge scan misses exactly when nothing is due yet at the target command; when it hits, the entry holds the pipe that is due there |
| `CountdownRing.MaturedIsDue` | project2/np_single_proc.cpp:551-562 | under the guard the input of a command is exactly the pipe due at it |
| `CountdownRing.StepUnique` | project2/np_single_proc.cpp:404-420 | countdown uniqueness: no line, of any kind, gives two scanned entries of one client the same positive countdown |
| `CountdownRing.StepKeepsRep` | project2/np_single_proc.cpp:551-574 | a guarded line keeps the relation between the table and the schedule: one live entry, holding the right pipe, for every pipe still due |
| `CountdownRing.PhantomEntry` | project2/np_simple.cpp:109-132 | a builtin or rejected line with a new suffix, or a line that takes entry 1000, leaves a live countdown with no pipe due behind it |
| `CountdownRing.RefinesIff` | project2/np_single_proc.cpp:404-574 | one line of the table does what the schedule asks (same input, same output, related states) if and only if it either needs no new entry, or runs, and the entry at `pos` is dead and within the aging scan |
| `RingRuns.ScansAreUnambiguous` | project2/np_single_proc.cpp:407-419 | over every run each scan has at most one entry to find, so the scan that keeps the last match and the scan that stops at the first agree |
| `RingRuns.UniqueOverRuns` | project2/np_single_proc.cpp:404-419 | countdown uniqueness in every reachable table |
| `RingRuns.RunRefinesIff` | project2/np_single_proc.cpp:404-574 | over every run, all lines agree with the schedule in everything, the related states included, if and only if all lines meet the guard |
| `RingRuns.FewSuffixesGuarded` | project2/np_simple.cpp:153-178 | a run with at most a thousand numbered lines, of however many clients, and no suffix on a builtin or rejected line, meets every guard |
| `RingRuns.OverwrittenIsDead` | project2/np_simple.cpp:99-178 | ring bound: with one client and every N at most 1000, the scanned entry that a new pipe overwrites is dead, and no entry outlives its turn of the ring |
| `RingHistory.EndsAre` | project2/np_single_proc.cpp:567-574 | in every run an entry holds the ends of the pipe of the last running line that took it, or its initial value |
| `RingHistory.CountIs` | project2/np_single_proc.cpp:551-561 | in every run a scanned entry belongs to the client of the last line that took it, and its countdown is what that line asked for less the commands the client has run since |
| `RingHistory.ReadsIff` | project2/np_single_proc.cpp:551-562 | what a command reads, in every run and with no guard: it has an input if and only if some scanned entry was last taken by a line that asked for this command, and then the input is what that entry holds |
| `RingHistory.PipeReadIff` | project2/np_single_proc.cpp:551-562 | in every run a command reads the pipe of line k if and only if its entry is scanned, no later line has filled it, and the last line to take it asked for this command |
| `RingHistory.TableDelivers` | project2/np_single_proc.cpp:404-574 | exact delivery with no guard and any number of turns of the ring: if nobody has taken the entry since line k filled it, line j takes as input the ends of the pipe that line i (k, or one that joined it) writes into if and only if j is the N-th later command of the same client |
| `RingHistory.RetakenIsLost` | project2/np_simple.cpp:109-112 | once a later running line has taken the entry no command ever reads the pipe |
| `RingHistory.DeliveredIff` | project2/np_single_proc.cpp:404-574 | the command that line k asked for reads its pipe if and only if the entry is not entry 1000 and nobody has taken it since (when only running lines take it) |
| `RingHistory.RetakenAfterTurn` | project2/np_single_proc.cpp:569-573 | an entry is taken again only after more than a thousand lines with a suffix |
| `RingHistory.RoomDelivers` | project2/np_single_proc.cpp:404-574 | in every run a pipe in a scanned entry reaches its command if at most a thousand lines with a suffix, of whatever client, come in between |
| `RingHistory.OwnRoomDelivers` | project2/np_simple.cpp:99-178 | so it does for every N up to 1000 when only its own client has suffixes in between, on running lines |
| `RingSchedule.ReadsAsScheduledIff` | project2/np_single_proc.cpp:404-574 | over every run that overwrites no waiting entry, of any length: a command reads what the schedule says if and only if none of the lines that asked for it got entry 1000 |
| `RingSchedule.WritesAsScheduledIff` | project2/np_single_proc.cpp:404-420 | in such a run a line writes what the schedule says if and only if nobody asking for its target got entry 1000, or it is the first to ask and takes an entry |
| `RingSchedule.AgreeingIff` | project2/np_single_proc.cpp:404-574 | full agreement with the schedule, state included, holds exactly for runs whose new entries are taken by running lines and number at most a thousand |
| `RingCapacity.CapacityIff` | project2/np_simple.cpp:170-178 | the capacity is exact: in a run of 1001 lines with suffix N, one with N+1, and more with N, the first pipe reaches its command if and only if N is at most 1000 |
| `RingCapacity.LastEntryForever` | project2/np_single_proc.cpp:407-419 | np_single_proc, whose merge scan reaches entry 1000: after 1001 lines with suffix 1 every further one joins entry 1000, for ever, and none has an input although one is due |
| `RingCapacity.TurnLosesOne` | project2/np_simple.cpp:102-177 | np_simple, whose merge scan stops at 999: of lines with suffix 1 one in every 1001 has no input, for ever, and all others read the pipe of the line before |
| `RingRuns.ZeroReadsStale` | project2/np_simple.cpp:99-115 | suffix 0 makes a command read the ends left over in the entry at `pos`, although nothing is due |
| `RingRuns.BuiltinSuffixMergesStale` | project2/np_simple.cpp:109-132 | after a builtin with suffix N the next line with the same target merges into a descriptor that is no pipe |
| `NpSimple.Shell.constructor` | project2/np_simple.cpp:22-25 | the zero-initialised arrays are the initial table |
| `NpSimple.Shell.MergeScan` | project2/np_simple.cpp:102-108 | the loop finds what FindPending specifies |
| `NpSimple.Shell.AgeScan` | project2/np_simple.cpp:155-162 | the loop takes one off each of the entries 0..999 and returns the ends of the last entry that stood at 1 |
| `NpSimple.Shell.Reserve` | project2/np_simple.cpp:109-112 | the countdown is written at `pos` and nothing else changes |
| `NpSimple.Shell.Commit` | project2/np_simple.cpp:172-177 | the ends are stored at `pos`, which advances and wraps to 0 after 1000 |
| `NpSimple.Shell.PlanOutput` | project2/np_simple.cpp:99-115 | a suffix joins the pending entry or reserves the one at `pos` |
| `NpSimple.Shell.DoExec` | project2/np_simple.cpp:99-178 | what a whole line does to the three arrays is one step of the table; the ends its first stage takes and the descriptor its suffix leads to |
| `ShiftingList.Padded` | project1/npshell.cpp:144-144 | appending empty slots up to N changes no index |
| `ShiftingList.StagesChain` | project1/npshell.cpp:141-176 | within a line every stage reads the pipe the stage before it writes, whatever the list held |
| `ShiftingList.OnePosition` | project1/npshell.cpp:46-53 | k pops and k-1 inserts move every pending pipe forward by exactly one position, for every k, when nothing waits right behind the front |
| `ShiftingList.NothingResurfaces` | project1/npshell.cpp:168-176 | a pipe that is not behind the front of the list never comes back into it |
| `ShiftingList.ShiftKeepsRep` | project1/npshell.cpp:141-151 | one pop, and filling index N-1, keep index i equal to what is due i commands ahead |
| `ShiftingList.TwoPositionsLose` | project1/npshell.cpp:170-176 | an ordinary pipe symbol that meets an occupied slot behind the front consumes it: the pipe due at the next line is lost |
| `ShiftingList.RefinesIff` | project1/npshell.cpp:141-176 | one line of the list does what the schedule asks if and only if it has one stage, does not run, or finds slot 1 empty |
| `PipeOwnership.GetPipeOwned` | project1/npshell.cpp:271-283 | getPipe moves the front object into recycle; every object stays in exactly one place |
| `PipeOwnership.CleanOwned` | project1/npshell.cpp:68-75 | cleanPipes frees from the front of recycle: every object stays in exactly one place, the order of popping is kept, at most ten remain |
| `PipeOwnership.CleanKeepsLast` | project1/npshell.cpp:68-75 | cleanPipes keeps exactly the last ten popped pipes, and all if there are no more |
| `PipeOwnership.PoppedSurvives` | project1/npshell.cpp:141-176 | the pipe a stage pops, which its child reads, outlives the cleaning after the stage, even if pipe() failed in between |
| `PipeOwnership.StagePops` | project1/npshell.cpp:141-176 | what each kind of stage leaves at every index of the list |
| `PipeOwnership.StageOwned` | project1/npshell.cpp:141-176 | one stage, of any kind and even when pipe() fails first, keeps every object in exactly one place and only appends to the popping order |
| `PipeOwnership.OwnershipOverRuns` | project1/npshell.cpp:46-56 | over every run every object made is in exactly one of the list, recycle and the freed ones, once; it is freed at most once; and objects are freed oldest first |
| `NpShell.Shell.CleanPipes` | project1/npshell.cpp:68-75 | the erasing loop frees exactly the excess over ten, from the front |
| `NpShell.Shell.GetPipe` | project1/npshell.cpp:271-283 | the front slot is returned and popped, and an object goes to recycle |
| `NpShell.Shell.MakeNewPipe` | project1/npshell.cpp:260-269 | the retry loop cleans and then makes the next object |
| `NpShell.Shell.ExecuteCMD` | project1/npshell.cpp:140-176 | one stage changes the two vectors as specified and connects the child to the popped pipe and to the linked, placed or waiting one |
| `NpShell.Shell.RunStage` | project1/npshell.cpp:46-53 | one turn of the rest-of-line loop: a stage and a cleaning |
| `NpShell.Shell.RunAllStages` | project1/npshell.cpp:46-53 | the loop runs all stages of a line, each with its own failures of pipe(): the children and the list are those of RunStages, and ownership is kept |
| `NpShell.Shell.RunCommandLine` | project1/npshell.cpp:42-56 | a whole line, ending plainly, with a suffix or with a redirection: the children and the list of RunLine, every object in one place, at most ten popped objects left |
| `Refinement.ListRunRefinesIff` | project1/npshell.cpp:42-56 | over every run of one client the list agrees with the schedule if and only if no ordinary pipe symbol meets an occupied slot behind the front |
| `Refinement.ConsumedExample` | project1/npshell.cpp:168-176 | from the start, the lines with suffix 2, then a two-stage line: the third line should read the first one's pipe and gets no input |
| `Refinement.TableRefinesList` | project2/np_simple.cpp:99-178 | data refinement over every run of one client, of any length, with numbers up to 1000 on running lines, in which no ordinary pipe symbol meets an occupied slot: but for commands for which somebody got entry 1000, list index i is occupied by p if and only if exactly one entry stands at i+1, and it holds p; a line takes the same input in both if and only if nobody who asked for it got entry 1000, and writes the same pipe in both if and only if nobody asking for its target did or it is the first to ask and takes one |
| `Pipeline.StageLoop` | project2/np_single_proc.cpp:544-580 | the loop makes one child per stage |
| `Pipeline.StageWired` | project2/np_single_proc.cpp:599-641 | one pass of the loop: the dup2 table gives the child the intended three descriptors and the parent closes exactly what it should |
| `Pipeline.LoopWired` | project2/np_single_proc.cpp:544-641 | wiring for every number of stages: stage i+1 reads the pipe stage i writes, the first stage reads the matured or user pipe, the last writes the new pipe, the pending pipe, the user pipe or the socket; and the descriptors the parent holds at each fork and at the end |
| `Pipeline.LoopSafe` | project2/np_single_proc.cpp:550-578 | all children of a line inherit the read end they use and no write end of that pipe, and write only to open pipes, if and only if that holds for the input and the pending output the line starts with |
| `Registry.Tokens` | project2/np_single_proc.cpp:192-198 | no operand of split_space is empty or contains a blank |
| `Registry.FirstToken` | project2/np_single_proc.cpp:192-198 | the first operand is the whole word up to the first blank, and splitting goes on after it |
| `Registry.TokensOfWords` | project2/np_single_proc.cpp:192-198 | split_space gives back exactly the words of a line, however many blanks separate them |
| `Registry.Reg.Find` | project2/np_single_proc.cpp:435-437 | the lookup returns the first of the first `size` slots that holds the descriptor |
| `Registry.Reg.FirstFree` | project2/np_single_proc.cpp:114-121 | a login takes the lowest free slot |
| `Registry.FindLive` | project2/np_single_proc.cpp:435-437 | a live descriptor is found, and at the only slot that holds it |
| `Registry.LiveIdIff` | project2/np_single_proc.cpp:438-438 | an id passes the check of a user pipe if and only if it is at most 30 and the id of some logged-in client |
| `Registry.LoginInv` | project2/np_single_proc.cpp:114-122 | a login gets the lowest free id, changes no other slot, and keeps the registry and nickname invariants |
| `Registry.LogoutInv` | project2/np_single_proc.cpp:127-134 | a logout frees exactly the leaver's slot; everybody else keeps id and name; the invariants hold |
| `Registry.RenameInv` | project2/np_single_proc.cpp:342-360 | a rename takes effect if and only if no other logged-in user has the name, where free slots do not count; no user can choose "(no name)"; two live users share a name only if it is "(no name)" |
| `ChatServer.LineStarts` | project2/np_single_proc.cpp:544-563 | whatever ran before, a line starts the stage loop from descriptors older than itself |
| `ChatServer.ChildrenWired` | project2/np_single_proc.cpp:544-641 | the children of any line, and what the server holds afterwards, in closed form |
| `ChatServer.ChildrenSafeIff` | project2/np_single_proc.cpp:544-580 | whatever ran before, every child of a line inherits the read end it uses and no write end of that pipe if and only if the input is open with its write end closed and the pending output is open |
| `ChatServer.ChildrenSafe` | project2/np_single_proc.cpp:544-580 | in a good state every child of every line is safe |
| `ChatServer.PhantomBreaks` | project2/np_single_proc.cpp:414-418 | a line that makes a dead entry live without running breaks the descriptor invariant |
| `ChatServer.ExecKeepsSound` | project2/np_single_proc.cpp:389-582 | every line, clean or not, keeps: flags join logged-in ids and store distinct read ends of earlier lines, and every table entry and open end is older than the line |
| `ChatServer.SharedPipeBreaks` | project2/np_single_proc.cpp:567-574 | a pipe given both to a user and to a numbered suffix breaks the descriptor invariant: the server keeps its write end, or files a closed read end |
| `ChatServer.ExecKeepsGoodIff` | project2/np_single_proc.cpp:389-582 | a line keeps all descriptor invariants if and only if it is clean: it makes no dead entry live without running, and gives no pipe both to a user and to a suffix |
| `ServerRuns.StepKeepsAlways` | project2/np_single_proc.cpp:96-137 | every login, logout, rename and command line keeps the registry, nickname and flag invariants |
| `ServerRuns.RunAlways` | project2/np_single_proc.cpp:96-137 | in every reachable state: live descriptors are distinct, slots from `size` on are empty, two live users share a name only if it is "(no name)", a set flag joins two logged-in ids and stores an earlier read end that no other flag stores |
| `ServerRuns.RunChildrenSafeIff` | project2/np_single_proc.cpp:544-580 | end-of-file safety of any line of any run, as an equivalence with a condition on the input and output the line starts with |
| `ServerRuns.RunGoodIff` | project2/np_single_proc.cpp:389-582 | over runs of any length: the descriptor invariants hold in every state up to the n-th if and only if every event before it is clean |
| `ServerRuns.RunChildrenSafe` | project2/np_single_proc.cpp:544-580 | after a clean start of a run every child of the next line, of whatever kind, is safe |
| `ServerRuns.LoginStartsEmpty` | project2/np_single_proc.cpp:114-122 | in every run a new user gets the lowest free id of sixty, and that id starts with no user pipe in either direction |
| `ServerRuns.IdStable` | project2/np_single_proc.cpp:112-137 | over any stretch of any run without its own logout a live user keeps the same id |
| `ServerRuns.AlwaysEnabled` | project2/np_single_proc.cpp:96-137 | what can always happen: a login while a slot is free, a logout, a rename, and any line, but no user pipe for an id beyond 30 |
| `ServerRuns.RunRenameIff` | project2/np_single_proc.cpp:342-360 | over every run a rename gives the user the name if and only if no other logged-in user has it, and otherwise changes nothing; nobody else's name changes |
| `ServerRuns.FreedName` | project2/np_single_proc.cpp:342-360 | over every run: once the only user of a name has left, another user can take it |
| `ServerRuns.NameStable` | project2/np_single_proc.cpp:112-137 | over any stretch of any run in which a user neither leaves nor renames itself its name stays |
| `ServerRuns.RunChildrenWired` | project2/np_single_proc.cpp:599-641 | over every run, for every stage of every line: the pipe it reads, and where its output and errors go: the next stage's pipe, the user pipe, the new pipe, the entry that the suffix joins, or the socket of the line's own client |
| `ServerRuns.FirstChildInput` | project2/np_single_proc.cpp:550-564 | over every run the first child reads the matured entry, else the pipe of the `<` user, else nothing |
| `UserPipes.TakenIsReadIff` | project2/np_single_proc.cpp:550-564 | in any reachable state a pipe taken by `<` is read by a child if and only if the line runs and no other pipe matures on it |
| `UserPipes.TakenIsReadClean` | project2/np_single_proc.cpp:550-564 | while all lines are clean: it is the first child's input if and only if the line runs and nothing matures |
| `UserPipes.StepMailIff` | project2/np_single_proc.cpp:427-503 | the matrix holds exactly the letters posted and not yet read; any event in any reachable state keeps that if and only if it is no losing line: `<` granted without running, `<` granted while another pipe matures, one-stage `<me >me` |
| `UserPipes.RunMailIff` | project2/np_single_proc.cpp:427-503 | over every run, clean or not: the matrix equals the unread letters in every state up to the n-th if and only if no event before it loses one |
| `UserPipes.RunsIff` | project2/np_single_proc.cpp:427-503 | over every run that has lost no letter: a line runs if and only if it is no builtin, its `<` names a logged-in client whose letter waits, and its `>` one for whom none waits |
| `UserPipes.LineKeepsMail` | project2/np_single_proc.cpp:739-779 | a line that loses no letter reads what it takes and posts what it sends |
| `UserPipes.LineLosesMail` | project2/np_single_proc.cpp:445-463 | each losing line leaves a letter that is unread and no longer in the matrix |
| `UserPipes.TakenOnce` | project2/np_single_proc.cpp:445-463 | over every run no user pipe is taken by two lines |
| `UserPipes.FlagOrigin` | project2/np_single_proc.cpp:739-779 | in every run a set flag stores the pipe of an earlier running line of the one user that ended in `>` to the other |
| `UserPipes.PosterWrites` | project2/np_single_proc.cpp:599-641 | the last child of a line with `>k` writes the pipe that it posts |
| `UserPipes.UserPipeDelivers` | project2/np_single_proc.cpp:427-503 | over every run: the first child of a line with `<a` that is granted, runs, and has no numbered pipe due reads the pipe which the last child of a line of user a wrote for this user |
| `Delivery.TableOfRun` | project2/np_single_proc.cpp:404-574 | the server's table is the table of its command lines: logins, logouts and renames never move it |
| `Delivery.NumberedApart` | project2/np_single_proc.cpp:550-574 | in every run a waiting user pipe that some table entry also holds was given to both by one line |
| `Delivery.ServerDelivers` | project2/np_single_proc.cpp:404-580 | exact delivery on the whole server, in every run: while nobody has taken the entry since, the first child of line j reads the pipe which the last child of line i writes if and only if j is the N-th later running command on the same descriptor, whatever everybody else did |
| `Delivery.ServerDeliveredIff` | project2/np_single_proc.cpp:404-580 | in every run the command that line k asked for reads its pipe if and only if the entry is not entry 1000 and nobody has taken it since (when only running lines take it) |
| `Delivery.ServerRoomDelivers` | project2/np_single_proc.cpp:404-580 | and it does if at most a thousand lines with a suffix, of all clients together, come in between |
| `Delivery.PostedReadIff` | project2/np_single_proc.cpp:427-564 | in every run a pipe posted to a user, and to no suffix, is read by a child of a line if and only if the line takes it, runs, and has no numbered pipe due |
| `Delivery.SessionInheritsIff` | project2/np_single_proc.cpp:127-134 | per session, in every run: a command reads a numbered pipe made before the login if and only if some entry still holds a pipe of that time and either stood at the count of this command at the login and was left alone, or was last taken for this command by a later line that did not run |
| `Delivery.SessionReadsOwn` | project2/np_single_proc.cpp:404-574 | per session, in every run: otherwise the pipe it reads was written in the session, by the last line to fill an entry that was last taken for exactly this command |
| `ServerExamples.SharedPipeExample` | project2/np_single_proc.cpp:567-574 | `cat >2` with suffix 1, then `cat <1` by user 2: the reader inherits the write end of its own input |
| `ServerExamples.InheritedExample` | project2/np_single_proc.cpp:127-134 | a run in which a new session reads what an earlier session on its descriptor wrote |
| `ServerExamples.LostPipeExamples` | project2/np_single_proc.cpp:460-491 | a reachable state in which `cat <1 >9`, `who <1` and `cat <1` on a maturing line each lose the pipe they take |
| `ServerExamples.SelfPipeExample` | project2/np_single_proc.cpp:756-777 | after `cat >1` the line `cat <1 >1` of user 1 leaves its new pipe waiting for nobody |
| `ServerExamples.FreedNameExample` | project2/np_single_proc.cpp:342-360 | a run in which user 2 takes a name and leaves, and user 1 then takes it although it still stands in the free slot |
| `NpSingleProc.Process.constructor` | project2/np_single_proc.cpp:45-48 | nobody is logged in, the table and the matrix are empty |
| `NpSingleProc.Process.Login` | project2/np_single_proc.cpp:114-122 | the loop is the login step |
| `NpSingleProc.Process.FindUser` | project2/np_single_proc.cpp:435-437 | the loop finds the only slot of a live descriptor |
| `NpSingleProc.Process.Logout` | project2/np_single_proc.cpp:127-134 | the loop and broadcast_logout together are the logout step |
| `NpSingleProc.Process.BroadcastLogout` | project2/np_single_proc.cpp:327-332 | exactly the flags to and from the leaver are cleared |
| `NpSingleProc.Process.ExecuteName` | project2/np_single_proc.cpp:342-360 | the loop and the assignment are the rename step |
| `NpSingleProc.Process.MergeScan` | project2/np_single_proc.cpp:407-413 | the loop finds what FindPending specifies |
| `NpSingleProc.Process.AgeScan` | project2/np_single_proc.cpp:551-561 | the loop ages the client's entries 0..999 and returns the matured ends |
| `NpSingleProc.Process.PlanOutput` | project2/np_single_proc.cpp:404-420 | output and reservation before the stage loop |
| `NpSingleProc.Process.Commit` | project2/np_single_proc.cpp:569-574 | the ends are stored at `pos`, which advances and wraps to 0 after 1000 |
| `NpSingleProc.Process.CheckUserPipes` | project2/np_single_proc.cpp:427-503 | both checks, and the early marking of the incoming pipe as taken |
| `NpSingleProc.Process.MarkUserPipe` | project2/np_single_proc.cpp:739-779 | the bookkeeping after the fork, including the self-pipe that is dropped again |
| `NpSingleProc.Process.RunStages` | project2/np_single_proc.cpp:544-580 | the loop makes the children of StageLoop and leaves the parent its descriptors |
| `NpSingleProc.Process.PlanStages` | project2/np_single_proc.cpp:550-563 | the first pass up to the fork: aging, choice of input, closing the matured write end |
| `NpSingleProc.Process.DoExec` | project2/np_single_proc.cpp:389-582 | a whole command line is one step of the server, with its children |
| `Mailbox.FirstEmpty` | project2/np_multi_proc.cpp:609-610 | the slot loop finds the first empty slot, or none |
| `Mailbox.PutConserves` | project2/np_multi_proc.cpp:606-618 | a send keeps conservation, and drops the message if and only if all ten slots are full |
| `Mailbox.DrainConserves` | project2/np_multi_proc.cpp:656-667 | a look at any slot keeps conservation |
| `Mailbox.DeliveredOnce` | project2/np_multi_proc.cpp:656-667 | every message offered is exactly once delivered, waiting or dropped, and nothing else is |
| `Mailbox.DrainKeepsOrder` | project2/np_multi_proc.cpp:656-667 | the handler's look at its next slot neither breaks nor mends the sending order |
| `Mailbox.PutKeepsOrderIff` | project2/np_multi_proc.cpp:609-614 | a send keeps delivery in sending order if and only if the slot it takes will be read after every full one |
| `Mailbox.PutKeepsDisorder` | project2/np_multi_proc.cpp:609-614 | a send cannot mend a broken order |
| `Mailbox.PrefixSend` | project2/np_multi_proc.cpp:609-614 | while the handler is not inside the row and the full slots form a prefix, a send extends the prefix and keeps the order |
| `Mailbox.ReorderingExample` | project2/np_multi_proc.cpp:606-667 | a slot-by-slot drain can deliver message 2 before message 1 |
| `Signals.Targets` | project2/np_multi_proc.cpp:607-608 | the loop of broadcast meets every logged-in user, once, in id order |
| `Signals.StepBox` | project2/np_multi_proc.cpp:606-667 | a step offers at most one message to, or looks at one slot of, each mailbox |
| `Signals.StepKeepsInv` | project2/np_multi_proc.cpp:606-667 | no lost wake-up: every step of every interleaving keeps, for each full slot, a pending signal, a sender still to signal, or a handler that has yet to reach the slot; and conservation |
| `Signals.QuiescentIsEmpty` | project2/np_multi_proc.cpp:606-667 | when nothing is left to do every mailbox is empty, and every message was delivered once or dropped |
| `Signals.StepsRunOut` | project2/np_multi_proc.cpp:656-667 | every step except the start of a command strictly decreases the work left |
| `Signals.SomeoneMoves` | project2/np_multi_proc.cpp:606-667 | no deadlock: while something is left, some process can move |
| `Signals.RunInv` | project2/np_multi_proc.cpp:606-667 | the invariants hold in every reachable state |
| `Signals.RunEnds` | project2/np_multi_proc.cpp:606-667 | once no new command starts a run is bounded by the work left, and a run that cannot be continued has emptied every mailbox |
| `Signals.RunOrdered` | project2/np_multi_proc.cpp:606-667 | over runs without a deposit in mid-row, every row stays a stretch of messages in order |
| `Commands.StepRest` | project2/np_multi_proc.cpp:606-618 | the receivers a command has yet to serve lose the first with each deposit of its sender and change by nothing else |
| `Commands.BroadcastReachesAll` | project2/np_multi_proc.cpp:606-618 | in every run, between its start and its end a broadcast offers every logged-in user, the sender included, exactly one message, whatever happens meanwhile |
| `Commands.TellReachesOne` | project2/np_multi_proc.cpp:413-430 | and a tell offers exactly one to its receiver and none to anybody else |
| `Commands.CanStart` | project2/np_multi_proc.cpp:606-618 | in a quiescent system every user can broadcast and tell everybody; while a handler runs its process does nothing else |
| `DeliveryOrder.StepOrderIff` | project2/np_multi_proc.cpp:606-667 | after any step the messages of s for r are in order if and only if they were before and one just stored is last in turn |
| `DeliveryOrder.RunOrderIff` | project2/np_multi_proc.cpp:606-667 | the same over every run |
| `DeliveryOrder.DeliveredInOrderIff` | project2/np_multi_proc.cpp:606-667 | over every run that has come to rest: r got the messages of s in sending order if and only if each was stored where the handler would read it after all that were waiting |
| `DeliveryOrder.ReorderingRun` | project2/np_multi_proc.cpp:606-667 | a run of the whole system in which message 2 is delivered while message 1 waits |
| `NpMultiProc.Shared.constructor` | project2/np_multi_proc.cpp:35-43 | everybody idle, every slot empty |
| `NpMultiProc.Shared.StartBroadcast` | project2/np_multi_proc.cpp:606-608 | the start of broadcast is its step |
| `NpMultiProc.Shared.StartTell` | project2/np_multi_proc.cpp:413-423 | the start of tell is its step |
| `NpMultiProc.Shared.Store` | project2/np_multi_proc.cpp:609-614 | the loop over ten slots fills the first empty one, or drops the message |
| `NpMultiProc.Shared.DepositMessage` | project2/np_multi_proc.cpp:609-612 | storing for the next receiver is the deposit step |
| `NpMultiProc.Shared.SendSignal` | project2/np_multi_proc.cpp:612-613 | kill is the signal step, also when the sender is its own receiver |
| `NpMultiProc.Shared.FinishCommand` | project2/np_multi_proc.cpp:606-618 | the end of broadcast or tell is its step |
| `NpMultiProc.Shared.CatchSignal` | project2/np_multi_proc.cpp:656-657 | entering the handler is the catch step |
| `NpMultiProc.Shared.ReturnFromHandler` | project2/np_multi_proc.cpp:678-679 | leaving it is the return step |
| `NpMultiProc.Shared.VisitSlot` | project2/np_multi_proc.cpp:661-664 | the body of the two loops at (i, j) is the visit of cell 10i+j |
| `NpMultiProc.Shared.SigHandler` | project2/np_multi_proc.cpp:656-667 | the two loops, uninterrupted, take the state to the closed form Visited |
| `NpMultiProc.VisitedNext` | project2/np_multi_proc.cpp:659-665 | the closed form is what the interleaved steps do, one visit after the other |
| `NpMultiProc.HandlerDelivers` | project2/np_multi_proc.cpp:656-667 | an uninterrupted handler empties every mailbox of its user and appends each sender's messages in slot order |
| `Relay.ReadStep` | project4/socks_server.cpp:44-83 | a completed read hands exactly the new bytes to the send |
| `Relay.ErrorStep` | project4/socks_server.cpp:44-110 | a failed operation stops its direction with what was sent still a prefix of what was read |
| `Relay.BridgeWriteIff` | project4/socks_server.cpp:85-110 | a completed send of socks_bridge keeps the stream in order if and only if it took every byte |
| `Relay.BindWriteIff` | project4/socks_server.cpp:220-257 | a short send of socks_bind, retried from the start of the buffer, keeps the stream in order if and only if the rest of the chunk repeats its beginning |
| `Relay.SetUpStepInv` | project4/socks_server.cpp:112-156 | every completion before the relay keeps the set-up in its place in the protocol |
| `Relay.StepKeepsInv` | project4/socks_server.cpp:44-156 | every completion with full sends keeps the invariant, in any interleaving of both directions |
| `Relay.RelayCorrect` | project4/socks_server.cpp:44-156 | in every run with full sends, in both directions: what was sent is a prefix of what was read, at most one chunk behind, one operation per buffer, and nothing is read or relayed before the last reply |
| `Relay.BindProtocol` | project4/socks_server.cpp:259-315 | BIND (SOCKS 4 memo, section 2), in every run with sends of any size: both replies are the same packet, which carries the bound port as byte2*256+byte3 and is otherwise the one given; the second follows the accept, relaying follows the second; one operation per buffer; bytes read exceed bytes sent by exactly the length of the outstanding send |
| `Relay.RunCounted` | project4/socks_server.cpp:166-315 | in every run with sends of any size, of either class: the order of the set-up, one operation per buffer, and no more bytes sent than read |
| `Relay.GoesOn` | project4/socks_server.cpp:44-110 | a read leads to a send of exactly what was read; a send leads back to reading, or in socks_bind to a send of what a short one left |
| `Relay.SetUpGoesOn` | project4/socks_server.cpp:112-156 | every successful completion of the set-up has its one successor, and the last reply starts reading both ways |
| `Relay.NeverStalls` | project4/socks_server.cpp:44-315 | in every run without errors one operation of the set-up is under way or, after it, one of each direction |
| `Relay.RetriesEnd` | project4/socks_server.cpp:220-257 | in every run, from a send of n bytes and without an error in its direction, at most n completions of the direction lead back to reading, with exactly n more bytes sent: the pieces taken each time from the front of the buffer |
| `Relay.RetriesIntactIff` | project4/socks_server.cpp:220-257 | a sequence of retries delivers every chunk intact if and only if the first send is full |
| `SocksSession.Socks.constructor` | project4/socks_server.cpp:169-181 | both buffers are empty, the first operation is started, and bind has put its port into the reply |
| `SocksSession.Socks.DoRead` | project4/socks_server.cpp:183-218 | one read is started, on the buffer of that side |
| `SocksSession.Socks.DoWrite` | project4/socks_server.cpp:85-110 | one send of the given length is started, towards that side |
| `SocksSession.Socks.OnSetUp` | project4/socks_server.cpp:132-156 | resolve, connect and accept completions are set-up steps |
| `SocksSession.Socks.OnReply` | project4/socks_server.cpp:276-301 | the reply's completion starts the accept or both directions |
| `SocksSession.Socks.OnRead` | project4/socks_server.cpp:44-83 | a read completion is a stream step: fill the buffer, send that many bytes |
| `SocksSession.Socks.OnSent` | project4/socks_server.cpp:220-257 | a send completion is a stream step of either class; the mixed-up constants make no difference |
| `Socks4.Dec` | project4/socks_server.cpp:405-407 | to_string writes digits only, without a leading zero |
| `Socks4.StoiOfDec` | project4/socks_server.cpp:405-407 | stoi reads back what to_string wrote, whatever follows it that is no digit, and throws beyond INT_MAX |
| `Socks4.Slicer` | project4/console.cpp:45-51 | the text up to the first delimiter is cut off, and the rest replaces the argument ("" when there is no delimiter) |
| `Socks4.CutJoined` | project4/console.cpp:45-51 | cutting at the first delimiter undoes joining with it |
| `Socks4.PartOfDotted` | project4/socks_server.cpp:395-407 | the k-th slice of a dotted address is its k-th octet in decimal |
| `Socks4.OctetsOfDotted` | project4/console.cpp:131-133 | slicing a dotted address and reading the parts gives the four octets back |
| `Socks4.OctetsOfNumbers` | project4/console.cpp:131-133 | parts that are no octets are cut to a byte, and with one beyond INT_MAX there is no request |
| `Socks4.NextOctet` | project4/console.cpp:132-133 | one turn of the loop reads the next part, cut to a byte, or fails as stoi does |
| `Socks4.DoRequest` | project4/console.cpp:122-136 | the array holds the encoded request, or no request is made |
| `Socks4.NextNul` | project4/socks_server.cpp:410-414 | the text loops stop at the first NUL |
| `Socks4.Socks4Parser` | project4/socks_server.cpp:403-414 | the parser is the decoder: command and port in decimal, dotted address, and the two texts up to their NULs |
| `Socks4.RoundTrip` | project4/console.cpp:122-136 | round trip (SOCKS 4 memo, section 1): for every port below 65536 and every address the eight bytes are 4, 1, the port and the octets, and the server reads back from them, followed by NULs, command 1, the decimal port and the same dotted address |
| `Socks4.DecodeTexts` | project4/socks_server.cpp:403-419 | for any eight header bytes and any texts without NULs the user id and the domain name are read back character by character, each in its own field, and the domain, if there is one, is the host that is resolved |
| `Socks4.NotDotted` | project4/console.cpp:131-133 | an address whose first part has no digit makes no request |
| `Socks4.ReplyNamesPort` | project4/socks_server.cpp:355-380 | the reply names the requested port, begins with 0, 90 if the request is granted and with 4, 91 if not, and ends in zeros |
| `Socks4.MatchIP` | project4/socks_server.cpp:431-443 | the loop matches a dotted address if and only if the rule has three dots, each of its first three parts is a star or the octet in decimal, and something follows |
| `Socks4.MatchesIff` | project4/socks_server.cpp:431-443 | the same of its specification, for every rule |
| `Socks4.MatchesText` | project4/socks_server.cpp:431-443 | a rule a.b.c.d matches a dotted address if and only if a, b and c each are a star or the octet in decimal; d is not compared |
| `Socks4.StarsMatchAll` | project4/socks_server.cpp:436-436 | four stars match every address |
| `Socks4.FourthPartIgnored` | project4/socks_server.cpp:436-442 | a rule for one address matches all 256 that share its first three parts |
| `Socks4.MatchIntendedIff` | project4/socks_server.cpp:431-443 | for four-part rules the code decides as intended, each part a star or equal, if and only if the fourth part fits or one of the first three does not |
| `Socks4.PermitsIff` | project4/socks_server.cpp:449-455 | a line made of a word, a letter, a pattern and perhaps more words permits a request for a dotted address if and only if the letter fits the command (c with 1, b with 2) and the pattern has the form a.b.c.d with a, b and c stars or equal |
| `Socks4.Firewall` | project4/socks_server.cpp:445-457 | a request is granted if and only if some line of the file permits it; only CONNECT and BIND ever are; for a file of written rules, if and only if one of the rules grants it; a rule of four stars grants every address |

## Left out

- The environment maps (`load_env`, `do_printenv`, `setenv`, `printenv`), `who`, `yell`, welcome messages and all printed texts: plumbing, or easy string work.
- Sockets, `select`, `fork`/`exec`, `waitpid`, DNS and files: completions and accepted descriptors are inputs, `fork` is a recorded child.
- Lexing with `strtok`/`sscanf` and the fixed-size buffers: lines arrive parsed (stages, suffix, `!`, user-pipe ids).
- A suffix below 1: `Schedule.Cmd.Valid` asks for N >= 1; suffix 0 is shown by `RingRuns.ZeroReadsStale`, negative numbers are not modelled.
- Integer wrap-around of countdowns after 2^31 lines.
- `<k` on any but the first stage, `>k` on any but the last, and more than one of each on a line.
- The children's own files (`> f`) in project2; in npshell redirection and a bad symbol are stages that only pop, and what follows a bad symbol counts as another line.
- The stage wiring of `np_simple` and `np_multi_proc`: it sends a first stage to the socket, or an early stage into a pending pipe, where a pipe is meant; only their countdown table is modelled.
- The numbers of descriptors: `cleanPipes` closes a write end that `getPipe` already closed; the model reasons about pipe objects.
- Delivery.ServerDelivers: for lines without `>k` (with `>k` the last child writes the user pipe instead), and while nobody takes the entry; `RingHistory.ReadsIff` says what is read in all other cases.
- RingRuns.RunRefinesIff: the guard is met for at most a thousand new entries in the life of the process (`RingSchedule.AgreeingIff`); beyond that `RingHistory` and `RingSchedule.ReadsAsScheduledIff` apply.
- Refinement.TableRefinesList: for one client, numbers up to 1000 and suffixes on running lines, which together exclude that a waiting entry is overwritten; for other runs without that see `RingSchedule.ReadsAsScheduledIff`.
- RingRuns.OverwrittenIsDead: for one client; with several clients, who age their entries at different speeds, `RingHistory.RoomDelivers` applies.
- ServerRuns.RunChildrenSafe: for runs whose earlier lines are clean; for all other runs `ServerRuns.RunChildrenSafeIff` gives the condition on the line itself.
- NpSingleProc.Process.Logout: for ids up to 30, since a leaver beyond would clear flags outside the matrix; for the same reason a client with such an id runs no line that gets as far as looking there. Logins are modelled up to the sixty slots.
- NpSimple.Shell.DoExec: not the children of the stages; only what a line does to the countdown table, and the ends and the descriptor taken from it.
- The reuse of descriptor numbers by the kernel: a stale table entry keeps naming the pipe it was filled with.
- NpShell.Shell.MakeNewPipe: pipe() fails finitely often.
- NpMultiProc.Shared.DepositMessage: filling or clearing one slot is atomic, and the set of logged-in users is fixed (no `add_client`, no `rm_user`); a row of ten slots is one array cell.
- The FIFO user pipes of `np_multi_proc`, SIGUSR2 and the pacing sleeps.
- Signals.RunOrdered: for deposits outside the receiver's visit to that row; `DeliveryOrder.RunOrderIff` covers every run.
- Relay.RelayCorrect: for full sends; the effect of one short send is stated exactly by `Relay.BridgeWriteIff` and `Relay.BindWriteIff`, and what holds for all sends by `Relay.RunCounted`. A reply of eight bytes is sent whole. Closing the sockets after an error is not modelled: later completions may be anything a socket can do. A failed send counts as no bytes.
- The two relay classes are one class with a `kind`, since they differ only in their set-up and in the callback of a send.
- Socks4.StoiOfDec: `stoi`'s leading blanks and signs, and IPv6 addresses, are not modelled.
- Socks4.RoundTrip: the client never sends the NULs the server reads up to; that they follow is an assumption on the server's buffer. Name resolution after parsing is not modelled.
- project3, the CGI console's HTML, and the sample commands: plumbing.
