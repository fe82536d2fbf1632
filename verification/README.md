# HWRun OS: verified models of the stateful cores

This project models six stateful components of HWRun OS in Dafny and proves what
they keep over whole runs, across failures, crashes and restarts.

- **Audit store** (`AuditFormat`, `AuditLines`, `AuditStore`, `AuditRuns`,
  `AuditRetention`, `AuditQuery`, `AuditEffects`): an append-only event log in up to
  16 segment files. Printer and parser of a line; rotation as a series of single
  renames, each of which may be the last one before a failure or a crash; sequence
  numbers that are reseeded from disk; queries over what is retained. Runs carry the
  history of every event ever written, and the invariant says which stretch of it
  each segment holds.
- **Bus** (`Metaproto`, `PluginBus`, `BusRuns`, `BusBoot`, `BusServes`): the route
  table, the life of plugins, and which implementation a protocol resolves to. What
  plugin code returns is a parameter, and so is the registration that runs out of
  memory.
- **Permissions** (`Glob`, `Policy`, `PolicyAccess`, `PolicyText`, `PolicyLines`,
  `PolicyPasses`, `PolicyRoundTrip`, `WriteThrough`, `PolicyThreads`): the wildcard
  matcher, roles and bindings and who may do what, the state file, and the two
  critical sections of every change under any interleaving of threads and crashes.
- **Storage** (`StorageTree`, `StorageText`, `StorageRoundTrip`, `StorageRegistry`,
  `StorageGuards`, `StorageRuns`, `StorageRestarts`): copying and clearing directory
  trees, each system call of which may fail, the registry of volumes and snapshots
  with its two-phase snapshot, and the state file.
- **Parameters** (`ParamTree`, `ParamFile`, `ParamRestarts`): the tree over dotted
  keys, its file, and exactly what comes back from the file.
- **Paths and console** (`FspPath`, `ConsoleBuffer`): the lexical path functions
  and the growable line buffer of a session.

`CText` holds what the text formats share: C strings, `fgets`, trimming, decimal
numbers with the saturation and wrap-around of `strtoull` and `strtoll`. One
`char` stands for one byte, but in the comment lines that head two of the files:
their non-ASCII characters stand for their bytes.

Code that works step by step is a class or a method with loops; each method is
proved equal to a specification function of its inputs or of the old state, and
the theorems are about those functions and about runs of them. For every operation
there are theorems that tell its effect and its codes from the request alone.

## What turned out not to hold as promised

The code is modelled as it is. Where a promise fails, a lemma says exactly when
it holds.

- A plugin whose `requires` list is empty is refused by the dependency check and
  can never start (`BusRuns.NoRequirementsNeverStarts`).
- A start whose very first registration runs out of memory is reported as a
  success and leaves the plugin running without routes
  (`PluginBus.StartExact`: the route table stays exact if and only if this does
  not happen to a start that nothing else stops; `BusRuns.RoutesExact`: over whole
  runs; `BusRuns.StartLosesRoutes`: one such run).
- After a crash between a rotation and the write that follows, a later process
  issues old sequence numbers again if the rotation was made with `max_files` 1 or
  the later process starts with it, and only then
  (`AuditRetention.RotationCrashKeepsNumbersIff`, `AuditRetention.NumberIssuedTwice`).
- A negative `max_bytes` is not refused: it becomes a very large limit
  (`AuditStore.NegativeSize`).
- Blanks at the edges of role descriptions and resources are lost on a restart
  (`PolicyRoundTrip.RoundTripIff`, `PolicyRoundTrip.EdgeBlankLost`).
- Blanks at the end of names, paths and descriptions of volumes and snapshots are
  lost on a restart, and two of them can end up with the same name
  (`StorageRestarts.RestartDistinctIff`, `StorageRestarts.TrailingBlankClashes`).
- Loading the storage registry pushes every record at the head of its list, so the
  first restart after a save turns both lists round
  (`StorageRoundTrip.RestartReversesIff`). A restart saves nothing: further ones
  find the same file and change nothing (`StorageRestarts.RestartsIdempotent`), and
  the order turns back when an operation has saved the turned lists and the next
  restart loads them (`StorageRestarts.CreationTurnsBack`). What a name or an id
  leads to survives restarts if and only if nothing ends in a blank and no key
  leads to two volumes (`StorageRestarts.LookupSurvivesIff`).
- A parameter that is set, saved and loaded reads the same if and only if its key
  is not empty, has no colon and no newline, no dot, blank, `#` or carriage return
  in front and no white space at its end, and fits the buffer, and its value has no
  newline and no blanks or quotes at its edges (`ParamRestarts.SetSurvivesIff`). The
  same condition on all that can be read decides whether a whole tree survives, over
  every run of assignments (`ParamRestarts.RunSurvivesRestartIff`). The setter
  accepts all others and they do not come back (`ParamRestarts.NewlineValueSetAndLost`,
  `ParamRestarts.ColonKeyLost`); a key with a dot in front comes back without it
  (`ParamRestarts.LeadingDotLost`, `ParamRestarts.DottedSetAndLost`).

## Model

| member | source | states |
|---|---|---|
| `AuditFormat.FmtEsc` | audit/src/audit_impl.c:75-108 | the buffer holds exactly the escapes of the longest run of characters whose escapes fit, and never overflows |
| `AuditFormat.FmtLine` | audit/src/audit_impl.c:111-125 | the printed line is the escaped fields between bars, and empty exactly when that does not fit |
| `AuditFormat.LineFits` | audit/src/audit_impl.c:75-125 | an event within its bounds is never truncated: every escaped field fits twice its bound and the whole line fits 4096 bytes |
| `AuditFormat.EscField` | audit/src/audit_impl.c:128-153 | the field up to the next bar, unescaped, or a refusal on a bad escape or an overlong field |
| `AuditFormat.ParseEvent` | audit/src/audit_impl.c:156-195 | parsing a buffer field by field gives what the declarative parser gives, all refusals included |
| `AuditFormat.ParseInvertsPrint` | audit/src/audit_impl.c:75-195 | for every event within its bounds, parsing its printed line gives back the event |
| `AuditFormat.EventsInPrinted` | audit/src/audit_impl.c:292-306 | a text written event by event is read back as exactly these events, in order |
| `AuditLines.ParseIff` | audit/src/audit_impl.c:128-195 | a line is read as an event if and only if it is laid out in seven fields that fit, with the four escapes only and numbers in range, and these are the event's |
| `AuditLines.EolsIgnored` | audit/src/audit_impl.c:156-165 | line ends behind a line do not matter, an empty line is no event |
| `AuditStore.Store.SeedSeq` | audit/src/audit_impl.c:224-248 | next_seq becomes one more than the largest seq of the first segment that has any, or 1 |
| `AuditStore.LastSeq` | audit/src/audit_impl.c:231-241 | the largest seq among the lines of a segment that can be parsed |
| `AuditStore.Store.RotateLocked` | audit/src/audit_impl.c:252-275 | the directory after as many renames as succeeded, with the error of the first one that failed |
| `AuditStore.Store.Append` | audit/src/audit_impl.c:336-394 | new directory, next_seq, return code and issued seq for every request and every place of failure |
| `AuditStore.Store.GetStatus` | audit/src/audit_impl.c:447-472 | the directory, and the sizes and counts of the retained segments; only next_seq may change |
| `AuditStore.Store.SetMaxFiles` | audit/src/audit_impl.c:501-509 | a text is accepted exactly if it is one whole number between 1 and 16, and a refused one changes nothing |
| `AuditStore.Store.SetMaxBytes` | audit/src/audit_impl.c:475-499 | a size with its unit is accepted exactly if it is positive and fits 64 bits, and a refused one changes nothing |
| `AuditStore.SizePrinted` | audit/src/audit_impl.c:475-499 | a limit printed as a plain number is read back as that number |
| `AuditStore.SizeWithUnit` | audit/src/audit_impl.c:475-499 | a number with k, m or g of either case, and a B or not, is 2^10, 2^20 or 2^30 times that number; any other unit and what does not fit 64 bits is refused |
| `AuditStore.NegativeSize` | audit/src/audit_impl.c:475-499 | a negative size is accepted and wraps around modulo 2^64 |
| `AuditStore.RangePrinted` | audit/src/audit_impl.c:501-509 | a number of segments printed in decimal is accepted as that number |
| `AuditRuns.RotateOrdered` | audit/src/audit_impl.c:252-275 | after any number of the rename steps of a rotation the segments still hold adjacent stretches of the history, newest first |
| `AuditRuns.SeedNewest` | audit/src/audit_impl.c:224-248 | reseeding from such a directory gives the number after the newest event ever written |
| `AuditRuns.StepInv` | audit/src/audit_impl.c:336-394 | every append, failing anywhere or not, every restart and every reconfiguration keeps the segments ordered stretches of the history |
| `AuditRuns.SeqsNeverReused` | audit/src/audit_impl.c:224-394 | over every run with max_files >= 2: the k-th event has seq k, all segments from the highest to the base are strictly increasing, and the next number, also after a reseed, is the one after the newest event |
| `AuditRuns.NewestAlwaysVisible` | audit/src/audit_impl.c:252-394 | over every such run the newest event can be read back, also right after a failed or crashed rotation |
| `AuditRetention.RotateShifts` | audit/src/audit_impl.c:252-275 | a complete rotation of a directory without gaps moves every segment up by one, drops the oldest and leaves the base empty |
| `AuditRetention.VisibleIsSuffix` | audit/src/audit_impl.c:252-387 | over every run without failures the visible events are exactly the end of the history, with consecutive seqs up to next_seq - 1 |
| `AuditRetention.SegmentsStaySmall` | audit/src/audit_impl.c:367-387 | under one max_bytes, whatever fails, every segment is within it or holds exactly one line |
| `AuditRetention.RotationCrashKeepsNumbersIff` | audit/src/audit_impl.c:252-275 | after a crash following a complete rotation, numbering goes on after the newest event if and only if the rotation and the later process both have max_files of at least 2 |
| `AuditRetention.NumberIssuedTwice` | audit/src/audit_impl.c:224-275 | a run in which two events carry the number 1: one process writes, rotates and dies, the next writes, and max_files is 1 for one of them |
| `AuditQuery.Push` | audit/src/audit_impl.c:294-305 | appending to the doubling array keeps its elements and adds one |
| `AuditQuery.CollectSegment` | audit/src/audit_impl.c:286-309 | the matching events of a segment are appended in file order |
| `AuditQuery.CollectAll` | audit/src/audit_impl.c:280-311 | the matching events of all retained segments, oldest first |
| `AuditQuery.ReverseInPlace` | audit/src/audit_impl.c:313-319 | swapping from both ends gives the reversed sequence |
| `AuditQuery.Collect` | audit/src/audit_impl.c:280-327 | the result array is: filter ascending, reverse if DESC, then the first `limit` |
| `AuditQuery.Export` | audit/src/audit_impl.c:410-445 | the exported file is the printed lines of the answer; when opening, writing or closing fails, no file is left and the code and the count of lines written are these |
| `AuditQuery.ParsedInBounds` | audit/src/audit_impl.c:128-195 | whatever bytes a segment holds, a line that parses gives an event within its bounds, so every answer can be printed |
| `AuditQuery.AnswerIsExact` | audit/src/audit_impl.c:198-206 | over every run an unlimited answer holds exactly the visible events within the times, of the subject, action and result asked for, strictly ordered by seq |
| `AuditQuery.TailIsNewest` | audit/src/audit_impl.c:313-325 | order DESC with a limit N gives the newest N matching events, newest first |
| `AuditQuery.LimitKeepsFirst` | audit/src/audit_impl.c:313-325 | a limit keeps the first so many of what is returned without one, in either order |
| `AuditQuery.ExportReproducesLog` | audit/src/audit_impl.c:410-445 | over every run an export without conditions is byte for byte the segments from the oldest to the base |
| `AuditEffects.AppendRecordsRequest` | audit/src/audit_impl.c:336-394 | what a successful append writes is the request, every text in its place, the time given or else the clock, and the next number |
| `AuditEffects.AppendSucceedsIff` | audit/src/audit_impl.c:336-394 | an append succeeds if and only if subject and action are given and none of the calls it makes fails; those of a rotation are made only when the line does not fit |
| `AuditEffects.AppendFails` | audit/src/audit_impl.c:336-394 | the code of a failed append, and that it uses up no number |
| `AuditEffects.AppendInPlace` | audit/src/audit_impl.c:367-387 | an append whose line fits, or finds the base empty, adds the line to the base and touches no other file |
| `AuditEffects.AppendRotates` | audit/src/audit_impl.c:252-387 | one whose line does not fit first moves every file one place up, also where some are missing, and leaves the line alone in the base |
| `AuditEffects.HistoryIsAsked` | audit/src/audit_impl.c:336-394 | over every run the newest event of the history is what the last successful append asked for |
| `AuditEffects.ActionsAre` | audit/src/audit_impl.c:224-248 | what restarts, reconfigurations and the status do to a run: no file changes, and nothing is added to the history |
| `AuditEffects.AppendIsFound` | audit/src/audit_impl.c:198-394 | over every run with max_files >= 2, a query that fits the request of an append just made returns its event, and returns it first when asked for the newest |
| `AuditEffects.SeedIs` | audit/src/audit_impl.c:224-248 | reseeding takes one more than the largest number of the first segment that is not empty, whatever it holds |
| `AuditEffects.StatusCounts` | audit/src/audit_impl.c:447-472 | the status counts the bytes an export without conditions would write, and the files there are |
| `AuditEffects.LineFields` | audit/src/audit_impl.c:111-125 | a line is the seven fields in their order between bars |
| `AuditEffects.EscExample` | audit/src/audit_impl.c:75-108 | the escapes and the decimal numbers, character by character |
| `Metaproto.CompatPreorder` | bus/src/metaproto.c:37-72 | version compatibility is reflexive and transitive |
| `Metaproto.CompatNumbers` | bus/src/metaproto.c:37-72 | for versions written with two or three numbers: the same major, and the rest no smaller than asked for |
| `Metaproto.RegisterKeys` | bus/src/metaproto.c:107-156 | registering adds exactly the key (protocol, plugin) and keeps keys unique |
| `Metaproto.UnregisterKeys` | bus/src/metaproto.c:158-187 | unregistering removes exactly that key and keeps keys unique |
| `Metaproto.RegisterRoutes` | bus/src/metaproto.c:107-156 | after a registration the table holds the new route, every field of it, and all routes with other keys as they were |
| `Metaproto.UnregisterRoutes` | bus/src/metaproto.c:158-187 | after an unregistration the table holds all routes but the one with that key |
| `Metaproto.Registry.RegisterRoute` | bus/src/metaproto.c:107-156 | a known key gets the new implementation, and the version if one is given, in place; a new one goes to the head; an allocation failure changes nothing |
| `Metaproto.Registry.UnregisterRoute` | bus/src/metaproto.c:158-187 | the first route of the protocol, of the plugin if one is given, is taken out; or the table is unchanged with ENOENT |
| `Metaproto.Registry.Resolve` | bus/src/metaproto.c:189-206 | the first route of the protocol whose version serves the request |
| `Metaproto.Registry.CheckDeps` | bus/src/metaproto.c:289-311 | accepts exactly a non-empty list of protocols that all have a route; else names the first one that has none |
| `PluginBus.Bus.RegisterAll` | bus/src/loader.c:102-113 | the table after registering in order, and the count or the negated count that was reached |
| `PluginBus.Bus.UnregisterFirst` | bus/src/loader.c:115-118 | the table without the first n keys of the plugin |
| `PluginBus.Bus.ActivatePlugin` | bus/src/loader.c:144-183 | what init, start and registration leave in the table, for every combination of results |
| `PluginBus.Bus.Start` | bus/src/loader.c:120-183 | the new state of table and plugin for every check that refuses and every callback result |
| `PluginBus.Bus.Stop` | bus/src/loader.c:185-194 | the routes of the plugin go and it is stopped; no other plugin changes |
| `PluginBus.Bus.Unload` | bus/src/loader.c:196-205 | a started plugin is stopped first; it ends up unloaded |
| `PluginBus.Bus.Load` | bus/src/bus.c:314-319 | the plugin with the id is started, or ENOENT |
| `PluginBus.Bus.BootChain` | bus/src/bus.c:339-367 | one pass of loads in the boot order |
| `PluginBus.StartRoutes` | bus/src/loader.c:120-183 | a start adds all keys of the plugin or, failing, none, whatever was registered in between |
| `PluginBus.StartExact` | bus/src/loader.c:102-183 | the table stays exactly built-ins plus started plugins, if and only if the first registration does not run out of memory in a start that no check and no callback stops |
| `BusRuns.RoutesExact` | bus/src/loader.c:102-205 | after every run with any results and memory running out anywhere, keys are unique and are exactly the built-ins and what started plugins provide, but for plugins whose last start lost its first registration; the table is exact if and only if there are none |
| `BusRuns.StartLosesRoutes` | bus/src/loader.c:102-113 | a run in which a plugin is running and what it provides has no route |
| `BusRuns.InitExact` | bus/src/bus.c:76-117 | after initialisation the table holds exactly the built-in protocols |
| `BusRuns.StartedWithoutConflict` | bus/src/loader.c:129-142 | in any state, memory running out or not, when a plugin has started, no protocol it conflicts with has another provider and all it requires is registered |
| `BusRuns.NoRequirementsNeverStarts` | bus/src/metaproto.c:289-292 | over every run no plugin with an empty requires list is running |
| `BusServes.StartServes` | bus/src/loader.c:102-183 | the code of a start for every way it can go; when it succeeds each protocol the plugin provides has a route with the current version and what the plugin offers for that very protocol, and all routes of others are as they were, in their order; when it fails all are |
| `BusServes.StopServes` | bus/src/loader.c:185-194 | a stop takes the routes of the plugin for what it provides, and no others |
| `BusServes.UnloadServes` | bus/src/loader.c:196-205 | an unload does the same to a plugin that runs or is loaded, and touches no route otherwise |
| `BusServes.LoadCode` | bus/src/bus.c:314-319 | an unknown id is an error, a plugin that runs is left alone, the first with the id is started |
| `BusServes.DiscoverEffect` | bus/src/bus.c:225-286 | a scan that finds a new id puts the plugin at the head; a known one changes nothing |
| `BusServes.ServesExact` | bus/src/loader.c:102-205 | over every run the table holds exactly the built-in routes and, for every running plugin that has not lost its routes, one for each protocol with what its code offered at its last start |
| `BusServes.ResolvesToOffer` | bus/src/metaproto.c:189-206 | in every reachable state a protocol that one running plugin alone provides resolves to what that plugin offers for it |
| `BusBoot.BootSound` | bus/src/bus.c:339-367 | in any order and with any results, the pass starts only plugins supported by started ones, and stays inside every set closed under support |
| `BusBoot.StartedDepsRegistered` | bus/src/bus.c:339-367 | after a boot everything a running plugin requires is registered |
| `BusBoot.BootIsLeastFixpoint` | bus/src/bus.c:322-367 | if starts succeed, nothing conflicts and providers come before users, the single pass starts exactly the least fixpoint of support |
| `Glob.MatchIffInLanguage` | permission/src/permission_impl.c:120-131 | the recursive matcher accepts exactly the declarative wildcard language |
| `Glob.ConcatMatch` | permission/src/permission_impl.c:120-131 | a concatenated pattern matches exactly the strings that split into matches of its parts |
| `Glob.LiteralMatch` | permission/src/permission_impl.c:120-131 | a pattern without wildcards matches itself and nothing else |
| `Glob.SubtreeMatch` | permission/src/permission_impl.c:120-131 | a literal followed by a star matches exactly the strings with that prefix |
| `Policy.Store.AddRole` | permission/src/permission_impl.c:193-199 | new roles and code: refused names, texts and duplicates change nothing, otherwise the role goes to the end |
| `Policy.Store.RemoveRole` | permission/src/permission_impl.c:201-221 | the role goes with all its bindings, everything else keeps its order |
| `Policy.Store.Unbind` | permission/src/permission_impl.c:208-218 | unlinking in a loop leaves exactly the bindings of other roles, in order |
| `Policy.Store.AddPerm` | permission/src/permission_impl.c:223-238 | the entry goes to the end of the role's list unless it is there or 64 are |
| `Policy.Store.RemovePerm` | permission/src/permission_impl.c:240-255 | exactly that entry goes, the others keep their order |
| `Policy.Store.AddBinding` | permission/src/permission_impl.c:257-264 | the binding is added once, for an existing role |
| `Policy.Store.RemoveBinding` | permission/src/permission_impl.c:266-284 | exactly that binding goes |
| `Policy.Store.Check` | permission/src/permission_impl.c:563-581 | returns 0 exactly when some role bound to the subject has an entry that covers action and resource |
| `Policy.ApplyWellFormed` | permission/src/permission_impl.c:193-284 | every operation keeps roles, entries and bindings unique, at most 64 entries a role, and no binding dangling |
| `Policy.SucceedsIffChanges` | permission/src/permission_impl.c:193-284 | an operation succeeds if and only if it changes the policy |
| `Policy.AccessMonotone` | permission/src/permission_impl.c:223-264 | granting, adding an entry and adding a role take nobody's access away |
| `Policy.ReAddedRoleGrantsNothing` | permission/src/permission_impl.c:201-221 | removing a role, adding it again and filling it with any entries restores nobody's access |
| `Policy.Undo` | permission/src/permission_impl.c:193-284 | each adding operation is undone exactly, order included, by its removing one |
| `PolicyAccess.AccessIff` | permission/src/permission_impl.c:563-581 | a subject may do exactly what some entry of some role it is bound to grants, in terms of the wildcard language |
| `PolicyAccess.BindingsAfter` | permission/src/permission_impl.c:193-284 | the bindings after each operation: revoking takes out the one named, removing a role all of that role, granting adds one |
| `PolicyAccess.EntriesAfter` | permission/src/permission_impl.c:193-284 | the entries of each role after each operation |
| `PolicyAccess.RolesAfter` | permission/src/permission_impl.c:193-284 | the roles and their descriptions after each operation |
| `PolicyAccess.OrderKept` | permission/src/permission_impl.c:193-284 | removing takes one thing out and keeps the order of the rest; adding puts one at the end |
| `PolicyAccess.AccessAfter` | permission/src/permission_impl.c:193-284 | for every operation and every subject, action and resource: who may do what afterwards |
| `PolicyAccess.RevokeTouchesOne` | permission/src/permission_impl.c:266-284 | a revocation changes nobody else's access |
| `PolicyAccess.TokensAre` | permission/src/permission_impl.c:100-107 | a name is accepted if and only if it is not empty, fits its buffer and has no blank, line end or comment sign |
| `PolicyAccess.TextsAre` | permission/src/permission_impl.c:110-117 | a text is accepted if and only if it fits its buffer and is one line |
| `PolicyAccess.CodeOf` | permission/src/permission_impl.c:193-284 | the code of every operation, what it is refused for in the order of the checks |
| `PolicyText.SaveState` | permission/src/permission_impl.c:305-342 | the written text is header, roles each followed by its entries, then bindings |
| `PolicyText.KeepLines` | permission/src/permission_impl.c:390-424 | the lines kept are the trimmed ones that are neither empty nor comments |
| `PolicyText.LoadState` | permission/src/permission_impl.c:390-444 | the policy in memory is the result of the two passes over the kept lines; a file that cannot be opened changes nothing and gives the error, but 0 for a missing one where that is expected |
| `PolicyText.LoadWellFormed` | permission/src/permission_impl.c:345-444 | loading any bytes at all leaves unique roles, at most 64 unique entries a role, unique bindings and none dangling |
| `PolicyText.LinesAre` | permission/src/permission_impl.c:305-342 | the lines written, word by word |
| `PolicyText.UnknownIgnored` | permission/src/permission_impl.c:345-388 | a line with another first word changes nothing |
| `PolicyText.NoiseIgnored` | permission/src/permission_impl.c:399-424 | comments and empty lines may stand anywhere |
| `PolicyLines.TokenIs` | permission/src/permission_impl.c:75-97 | the next word of a line, behind any blanks up to the next one, or none, or one too long |
| `PolicyLines.DirectiveIs` | permission/src/permission_impl.c:345-349 | a line with such a first word, behind blanks or not, is that directive with the rest of the line |
| `PolicyLines.RoleDirective` | permission/src/permission_impl.c:350-364 | a role line adds the role if it is valid and new, and is passed over otherwise |
| `PolicyLines.PermDirective` | permission/src/permission_impl.c:366-376 | a perm line does what adding the entry does, and is passed over if that is refused |
| `PolicyLines.GrantDirective` | permission/src/permission_impl.c:378-386 | a grant line binds the subject once to a role there is |
| `PolicyLines.BareIgnored` | permission/src/permission_impl.c:345-388 | a directive without words changes nothing |
| `PolicyLines.HalfPermIgnored` | permission/src/permission_impl.c:366-376 | nor does a perm line with one word |
| `PolicyLines.HalfGrantIgnored` | permission/src/permission_impl.c:378-386 | nor a grant line with one word |
| `PolicyLines.RolesFirst` | permission/src/permission_impl.c:427-441 | wherever they stand, role lines are done first, then perm and grant lines, each kind in order |
| `PolicyPasses.FirstPass` | permission/src/permission_impl.c:430-436 | the first pass adds all roles, still without entries, in order |
| `PolicyPasses.SecondPass` | permission/src/permission_impl.c:437-440 | the second pass gives every role its entries and adds the bindings, in order |
| `PolicyRoundTrip.LoadSaved` | permission/src/permission_impl.c:305-444 | loading what was saved gives the policy with descriptions and resources trimmed and entries that became equal merged |
| `PolicyRoundTrip.RoundTripIff` | permission/src/permission_impl.c:305-444 | the policy comes back identical, orders included, if and only if no description or resource has blanks at its edges |
| `PolicyRoundTrip.EdgeBlankLost` | permission/src/permission_impl.c:354-372 | a role whose description ends in a blank is accepted and comes back without it |
| `PolicyRoundTrip.SecondRestartIdentical` | permission/src/permission_impl.c:305-444 | what a restart leaves survives every further save and load unchanged |
| `WriteThrough.NextInv` | permission/src/permission_impl.c:305-342 | every step of every thread, every failure and every crash keeps: one saver at a time, its temporary file a prefix of the text of memory, and the state file the text of something memory held |
| `WriteThrough.OperationSaves` | permission/src/permission_impl.c:447-468 | an operation that nobody disturbs leaves the file the text of memory and is acknowledged; if its save fails only memory changes; if it is refused nothing does |
| `WriteThrough.ReloadReads` | permission/src/permission_impl.c:390-444 | a reload puts into memory what the file holds |
| `WriteThrough.FileNeverGoesBack` | permission/src/permission_impl.c:447-493 | no interleaving makes the file encode something older than before |
| `PolicyThreads.PolicySound` | permission/src/permission_impl.c:305-444 | the policy's operations, saving and loading meet what the protocol assumes of them |
| `PolicyThreads.MemoryAlwaysWellFormed` | permission/src/permission_impl.c:193-545 | under every interleaving, with reloads and crashes, memory never holds a dangling or duplicate binding, a duplicate role or a duplicate entry |
| `PolicyThreads.CrashFindsHeldPolicy` | permission/src/permission_impl.c:305-342 | under every interleaving, a crash at any step brings back one complete policy that memory held, no older than any change whose operation returned after a successful save |
| `PolicyThreads.QuietFileIsCurrent` | permission/src/permission_impl.c:447-545 | when all threads have returned and no save failed, a restart brings back the current policy, identically if and only if its free texts have no blanks at their edges |
| `PolicyThreads.FileMovesForward` | permission/src/permission_impl.c:447-545 | from any reachable point on, the file and the acknowledged changes only move forward |
| `StorageTree.CopyTree` | storage/src/storage_impl.c:208-274 | in any order of directory entries a copy succeeds if and only if no call it makes fails, and is then the source without special files at any depth; one that fails has made part of that |
| `StorageTree.CopyFile` | storage/src/storage_impl.c:208-240 | a file is copied if and only if no call fails; a part that was written is removed unless that fails too |
| `StorageTree.CopyLink` | storage/src/storage_impl.c:265-272 | a link is made if and only if no call fails |
| `StorageTree.CopyDir` | storage/src/storage_impl.c:247-263 | a directory is copied entry by entry until a call fails |
| `StorageTree.DirClear` | storage/src/storage_impl.c:184-205 | a clearing succeeds if and only if no call fails, and then the directory is empty and keeps its mode; a failed one has added nothing |
| `StorageTree.RmRf` | storage/src/storage_impl.c:168-181 | a removal succeeds if and only if no call fails, and then leaves nothing; one that fails leaves part of the tree |
| `StorageTree.TakeSnapshot` | storage/src/storage_impl.c:823-829 | if and only if no call fails there is a snapshot, the stripped volume; when copying fails nothing remains of it, or part of it if removing it fails as well |
| `StorageTree.Restore` | storage/src/storage_impl.c:905-910 | if and only if no call fails the volume, whatever it held, is the stripped snapshot; otherwise it is part of what it held or part of the snapshot |
| `StorageTree.SnapshotChangeRestore` | storage/src/storage_impl.c:786-912 | snapshot, any change, restore: without failing calls both succeed and the volume is as it was without special files, and identical if and only if it had none and no overlong link |
| `StorageTree.StripIff` | storage/src/storage_impl.c:243-274 | a tree survives copying unchanged exactly when it has no special file and no overlong link |
| `StorageTree.StripTwice` | storage/src/storage_impl.c:243-274 | copying a copy changes nothing |
| `StorageTree.StripAt` | storage/src/storage_impl.c:243-274 | a copy has at every path what the source has there, but for special files |
| `StorageRegistry.Registry.Write` | storage/src/storage_impl.c:376-417 | the text is header, blocks of all volumes, blocks of all snapshots |
| `StorageRegistry.Registry.LoadState` | storage/src/storage_impl.c:420-533 | the parser with its current record and its completeness flag leaves the lists of the declarative reader |
| `StorageRegistry.Registry.CreateVolume` | storage/src/storage_impl.c:538-606 | new lists, file and code for every refusal and every answer of the file system, with the list rolled back when saving fails |
| `StorageRegistry.Registry.DeleteVolume` | storage/src/storage_impl.c:608-655 | the volume found by name or id goes, unless it is read-only, the root, not a directory, or cannot be removed |
| `StorageRegistry.Registry.UnregisterVolume` | storage/src/storage_impl.c:657-680 | the record goes and the error of saving is returned |
| `StorageRegistry.Registry.SnapshotBegin` | storage/src/storage_impl.c:786-821 | the first critical section decides on the volume, the name and the path of the snapshot |
| `StorageRegistry.Registry.SnapshotCommit` | storage/src/storage_impl.c:823-868 | the second critical section adds the record only if the volume is still there, the name still free and saving succeeds |
| `StorageRegistry.Registry.SnapshotDelete` | storage/src/storage_impl.c:914-943 | the record goes, with the first error of saving or removing |
| `StorageRegistry.Registry.SnapshotRestore` | storage/src/storage_impl.c:871-903 | the critical section of a restore decides what is copied where, and refuses read-only volumes |
| `StorageRegistry.FindVolume` | storage/src/storage_impl.c:314-319 | the first volume with the name or id, none before it |
| `StorageRegistry.Sanitize` | storage/src/storage_impl.c:300-309 | a description has no line ends, fits its buffer and holds only characters it was given |
| `StorageGuards.DeleteCode` | storage/src/storage_impl.c:608-655 | the code of a deletion: key, read-only, root, kind of file, removal, save, in this order |
| `StorageGuards.DeleteSucceedsIff` | storage/src/storage_impl.c:608-655 | a deletion succeeds if and only if the key leads to a volume that is not read-only and not the root, what is there is no other file, and removal and save succeed |
| `StorageGuards.DeleteEffect` | storage/src/storage_impl.c:636-655 | the one record the key leads to goes, or nothing changes |
| `StorageGuards.ReadonlyRefused` | storage/src/storage_impl.c:623-626 | deleting a read-only volume changes nothing, in memory or in the file, and is refused with EPERM |
| `StorageGuards.ReadonlyStays` | storage/src/storage_impl.c:538-989 | over every run with restarts and failing saves, without blanks at ends, a read-only volume stays in memory and in the file until it is unregistered |
| `StorageGuards.CreatedHeld` | storage/src/storage_impl.c:538-606 | a volume just created is in memory and in the file |
| `StorageGuards.UnregisterEffect` | storage/src/storage_impl.c:657-680 | the one record the key leads to goes, read-only or not, or nothing changes; and the code |
| `StorageGuards.SanitizeIs` | storage/src/storage_impl.c:300-309 | a description is kept without its line ends, as far as it fits |
| `StorageGuards.LabelCode` | storage/src/storage_impl.c:280-288 | the code of a name for every reason it is refused |
| `StorageGuards.PathCode` | storage/src/storage_impl.c:291-297 | the code of a path for every reason it is refused |
| `StorageGuards.CreateCode` | storage/src/storage_impl.c:538-606 | the code of a creation for every reason it is refused, in order |
| `StorageGuards.CreateEffect` | storage/src/storage_impl.c:577-606 | the new record at the head is the request field by field, and nothing else changes |
| `StorageGuards.BeginCode` | storage/src/storage_impl.c:786-821 | the code of the first section, and the snapshot it announces |
| `StorageGuards.CommitCode` | storage/src/storage_impl.c:823-868 | the code of the second section, and the record it adds field by field |
| `StorageGuards.SnapshotTaken` | storage/src/storage_impl.c:786-868 | a snapshot over its two critical sections: what the thread holds in between, and the record, the lists and the file afterwards |
| `StorageGuards.DropCode` | storage/src/storage_impl.c:914-943 | the code of dropping a snapshot, and the one record that goes |
| `StorageGuards.RestoreCode` | storage/src/storage_impl.c:871-903 | the code of a restore and its two directories: the target volume or else the snapshot's own, never a read-only one |
| `StorageRoundTrip.LoadPersisted` | storage/src/storage_impl.c:376-533 | loading what was saved gives both lists reversed, trailing blanks cut off, records with blank names lost |
| `StorageRoundTrip.RestartReversesIff` | storage/src/storage_impl.c:376-533 | loading what was saved turns the order round and changes nothing else, if and only if no field ends in a blank |
| `StorageRoundTrip.SavedAndLoadedTwice` | storage/src/storage_impl.c:376-533 | saved, loaded, saved and loaded: the order is restored, and all is as it was if and only if no field ends in a blank |
| `StorageText.VolumeBlock` | storage/src/storage_impl.c:376-417 | the lines written for a volume |
| `StorageText.SnapshotBlock` | storage/src/storage_impl.c:376-417 | the lines written for a snapshot |
| `StorageText.FieldIff` | storage/src/storage_impl.c:376-533 | a key is known when reading if and only if it is one that is written |
| `StorageText.NoiseIgnored` | storage/src/storage_impl.c:420-533 | comments, empty lines and unknown keys leave every record as it is |
| `StorageText.EdgesIgnored` | storage/src/storage_impl.c:420-533 | blanks and line ends around a line do not matter |
| `StorageRuns.NextKeeps` | storage/src/storage_impl.c:538-943 | every step of every interleaving keeps registry, file and pending snapshots well formed with different ids; and distinct, unless it is a restart of something that ends in a blank |
| `StorageRuns.RunsStayDistinct` | storage/src/storage_impl.c:538-868 | under every interleaving names, ids and paths of volumes stay different, no name is another's id, and a volume's snapshots keep different names |
| `StorageRuns.RestartsStayDistinct` | storage/src/storage_impl.c:420-868 | the same with restarts in between, when no requested name, path or description ends in a blank |
| `StorageRuns.SucceedsIffSaved` | storage/src/storage_impl.c:589-600 | a creation or a snapshot succeeds if and only if it changes the lists, and then the file holds their text; if saving fails neither changes |
| `StorageRuns.CreateThenFind` | storage/src/storage_impl.c:314-319 | after a creation its name and id lead to the new volume and every other key leads where it led |
| `StorageRuns.LookupIff` | storage/src/storage_impl.c:314-319 | in a distinct registry a key leads to a volume exactly when the volume has that name or id, whatever the order |
| `StorageRestarts.RestartsIdempotent` | storage/src/storage_impl.c:965-989 | any number of restarts in a row leaves what the first one leaves |
| `StorageRestarts.RunInStep` | storage/src/storage_impl.c:376-417 | as long as no removal fails to be saved, the file holds the text of what memory holds |
| `StorageRestarts.CreationTurnsBack` | storage/src/storage_impl.c:420-606 | after a restart, a creation that succeeds and another restart, the older volumes and snapshots are back in their order, the new volume behind them |
| `StorageRestarts.RemovalTurnsBack` | storage/src/storage_impl.c:420-680 | the same for deleting or unregistering a volume: the others are back in their order |
| `StorageRestarts.SnapshotTurnsBack` | storage/src/storage_impl.c:786-868 | the same for a snapshot taken after the restart |
| `StorageRestarts.DropTurnsBack` | storage/src/storage_impl.c:914-943 | the same for dropping a snapshot |
| `StorageRestarts.LookupSurvivesIff` | storage/src/storage_impl.c:314-533 | in every reachable world whose file is in step, any number of restarts leaves what every name and id leads to as it was, if and only if no volume has a field that ends in a blank and no key leads to two volumes |
| `StorageRestarts.LookupSurvives` | storage/src/storage_impl.c:314-533 | in a run without failing saves and without trailing blanks, a name or id leads to the same record after any number of restarts |
| `StorageRestarts.RestartDistinctIff` | storage/src/storage_impl.c:420-533 | a restart keeps volumes and snapshots distinct exactly when they stay so with trailing blanks cut off |
| `StorageRestarts.TrailingBlankClashes` | storage/src/storage_impl.c:105-115 | two volumes whose names differ by a trailing blank are both created, and the next restart gives them one name |
| `ParamTree.FindNode` | bus/src/hwrun.c:158-168 | walking down segment by segment finds the parameter at the end of the key's path |
| `ParamTree.SetIn` | bus/src/hwrun.c:176-201 | the tree after creating the missing parents and setting the value at the end of the key's path |
| `ParamTree.Params.SetValue` | bus/src/param.c:98-118 | the watchers get what the key read before, and the tree changes by that one assignment |
| `ParamTree.PutThenValue` | bus/src/hwrun.c:158-201 | setting a path changes what is read at that path and at no other |
| `ParamTree.SetThenGet` | bus/src/hwrun.c:158-201 | for all keys: a key reads what was set for it, and all keys with another path read what they read |
| `ParamTree.PathInjective` | bus/src/hwrun.c:123-136 | keys with segments that fit their buffers share a path only if they are equal |
| `ParamTree.TreeIsFlatMap` | bus/src/hwrun.c:123-201 | over every run of assignments the tree reads as the flat map from whole keys to values |
| `ParamTree.SiblingsStayDistinct` | bus/src/hwrun.c:138-201 | over every run siblings have different keys at every level |
| `ParamFile.SaveTree` | bus/src/param.c:229-243 | the lines are those of every parameter with a value, parents first |
| `ParamFile.SaveFile` | bus/src/param.c:216-226 | the file is the text of these lines |
| `ParamFile.SaveExample` | bus/src/param.c:229-243 | the order of the lines, and a line character by character |
| `ParamFile.LoadFile` | bus/src/param.c:175-214 | the tree changes by the assignments that the lines ask for, in order |
| `ParamFile.LineRoundTripIff` | bus/src/param.c:181-211 | a line without newlines inside brings back its key and value if and only if the key has no colon and safe edges and the value has safe edges |
| `ParamFile.FileRoundTripIff` | bus/src/param.c:175-214 | a file of the one line `key: value` is read back as exactly that assignment if and only if the key has no colon and no newline and safe edges and the value has no newline and safe edges |
| `ParamFile.BlanksInFront` | bus/src/param.c:181-185 | blanks in front of a line do not matter |
| `ParamFile.NothingAsked` | bus/src/param.c:184-191 | empty lines, comments and lines without a separator ask for nothing |
| `ParamFile.EqualsParsed` | bus/src/param.c:187-207 | without a colon the first equals sign separates key and value |
| `ParamFile.QuotesParsed` | bus/src/param.c:199-206 | quotes around a value are dropped |
| `ParamRestarts.SetSurvivesIff` | bus/src/param.c:98-243 | set, saved, loaded: for every key and value, cut to their buffers, the key reads the same if and only if key and value can be carried, leading dots and empty keys included |
| `ParamRestarts.SaveLoadPreservesIff` | bus/src/param.c:175-243 | for every tree of C strings whose siblings differ: saving it and loading it into a fresh one preserves what every key reads if and only if every parameter with a value can be carried, however the lines of others may interfere |
| `ParamRestarts.RunSurvivesRestartIff` | bus/src/param.c:63-243 | after any run of assignments saving and loading preserves what every key reads, under the same condition and no other |
| `ParamRestarts.RunSurvivesRestart` | bus/src/param.c:63-243 | a run of assignments that can each be carried survives |
| `ParamRestarts.EntrySound` | bus/src/param.c:229-243 | every saved line is the value of a path of the tree, whatever the keys |
| `ParamRestarts.EntryComplete` | bus/src/param.c:229-243 | every value of the tree has its line |
| `ParamRestarts.SavedKey` | bus/src/param.c:229-243 | the key in the file is the joined path without the dots in front, cut to 511 bytes |
| `ParamRestarts.NewlineValueLost` | bus/src/param.c:98-243 | a parameter whose value has a newline inside never reads the same after saving and loading |
| `ParamRestarts.NewlineValueSetAndLost` | bus/src/param.c:98-243 | such a value can be set and read, and is lost by saving and loading |
| `ParamRestarts.ColonKeyLost` | bus/src/param.c:98-243 | a key with a colon can be set and read, and is lost by saving and loading |
| `ParamRestarts.LeadingDotLost` | bus/src/param.c:98-243 | a value set for a key behind a dot reads back, and after saving and loading belongs to the key without the dot, for which nobody set it |
| `ParamRestarts.DottedSetAndLost` | bus/src/param.c:98-243 | so it happens to the key ".b" |
| `FspPath.Resolve` | fsp/src/fsp_path.c:38-71 | the array stack ends up with the components left by ".." and ".", or too many |
| `FspPath.Push` | fsp/src/fsp_path.c:75-81 | a text is copied exactly if a byte is left for the NUL |
| `FspPath.Assemble` | fsp/src/fsp_path.c:73-88 | the output is a slash before every component, "/" for none, or does not fit |
| `FspPath.NormalizeInto` | fsp/src/fsp_path.c:17-89 | the buffer holds the normal form as a C string, or the error is returned |
| `FspPath.JoinInto` | fsp/src/fsp_path.c:92-109 | the buffer holds the normal form of directory, one slash and name |
| `FspPath.ParentInto` | fsp/src/fsp_path.c:112-140 | the buffer holds the normal form up to its last slash, cut to the buffer |
| `FspPath.NormalizedIsPlain` | fsp/src/fsp_path.c:17-89 | a normal form is absolute and has no empty, "." or ".." component |
| `FspPath.NormalizeTwice` | fsp/src/fsp_path.c:17-89 | a normal form is a fixed point, whatever the working directory is then |
| `FspPath.JoinNormalized` | fsp/src/fsp_path.c:92-109 | joining to a directory is joining to its normal form, with the one exception of a directory too long for the buffer |
| `FspPath.ParentOfJoin` | fsp/src/fsp_path.c:112-140 | the parent of a directory joined with a plain name is the normal form of the directory |
| `FspPath.NormalizeStep` | fsp/src/fsp_path.c:17-89 | one component after any absolute directory: nothing and "." stay, ".." goes up one level, anything else is appended, with every error; together with the root this determines all normal forms |
| `FspPath.NormalizeStart` | fsp/src/fsp_path.c:17-37 | the root, and relative paths, which start at the working directory |
| `FspPath.JoinIs` | fsp/src/fsp_path.c:92-109 | joining is normalising the two with one slash between them |
| `FspPath.ParentIsUp` | fsp/src/fsp_path.c:112-140 | the parent is one level up from the normal form, for every path |
| `ConsoleBuffer.Session.Reserve` | console/src/console_impl.c:64-72 | the capacity is doubled until it exceeds the need, and the content is kept |
| `ConsoleBuffer.Session.Append` | console/src/console_impl.c:63-79 | the bytes follow what is there, an allocated buffer stays larger than its content, and the counter grows modulo 2^64 |
| `ConsoleBuffer.Session.ReadLine` | console/src/console_impl.c:143-168 | the first complete line is handed out and removed, or nothing changes with EAGAIN or ENOBUFS |
| `ConsoleBuffer.Session.Banner` | console/src/console_impl.c:170-201 | the content becomes the escaped text and a newline, the counter starts again |
| `ConsoleBuffer.Session.Clear` | console/src/console_impl.c:203-211 | the content goes, the counter stays |
| `ConsoleBuffer.Session.LineCount` | console/src/console_impl.c:81-86 | the number of newlines in the content |
| `ConsoleBuffer.NothingLost` | console/src/console_impl.c:133-168 | over every run of writes and reads, what was there and what was written is what was returned, line by line, and then what is still buffered |
| `ConsoleBuffer.ReadTakesOneLine` | console/src/console_impl.c:143-168 | a read lowers the reported count by one, and finds nothing exactly when the count is zero |
| `ConsoleBuffer.ReportedLinesReadable` | console/src/console_impl.c:81-86 | exactly as many lines as reported can be read |
| `ConsoleBuffer.BannerIsOneLine` | console/src/console_impl.c:170-201 | a banner always leaves exactly one line, the escaped text |
| `ConsoleBuffer.BannerStarts` | console/src/console_impl.c:170-201 | a banner replaces what was there and the counter starts again with it |
| `ConsoleBuffer.WrittenCounts` | console/src/console_impl.c:77-77 | the counter of a run is the bytes written, modulo 2^64 |
| `ConsoleBuffer.EscapeParts` | console/src/console_impl.c:183-191 | escaping turns each line end into a backslash and an n and keeps the rest |
| `ConsoleBuffer.ReadCode` | console/src/console_impl.c:143-168 | the code of a read and what it does; a line that does not fit stays |
| `ConsoleBuffer.WriteAndClear` | console/src/console_impl.c:133-211 | a write puts its bytes behind the others, a clear takes all and leaves the counter |
| `ConsoleBuffer.ClosedRefuses` | console/src/console_impl.c:133-211 | a session that is not open refuses everything and changes nothing |
| `CText.UnsignedRoundTrip` | audit/src/audit_impl.c:111-195 | a number below 2^64 printed in decimal is read back by strtoull |
| `CText.SignedRoundTrip` | audit/src/audit_impl.c:111-195 | a signed 64-bit number printed in decimal is read back by strtoll |
| `CText.NumberRead` | audit/src/audit_impl.c:156-195 | strtoull and strtoll read, behind white space and one sign, as many digits as there are |
| `CText.Saturates` | audit/src/audit_impl.c:156-195 | what they give for numbers that do not fit |
| `CText.TrimIs` | permission/src/permission_impl.c:65-73 | trimming takes blanks off both ends and line ends off the back, and nothing else |

## Left out

- File system: reads and writes are atomic steps, and a step fails as a whole; short or failed `fwrite`, buffering and `fsync` are not modelled, except that a permission save may be cut off after any byte of the temporary file.
- Clock, random ids, environment variables, the working directory and the answers of `lstat`, `mkdir` and `nftw` are parameters.
- Memory: allocation succeeds everywhere but in the registration of a plugin's protocols, where any allocation may fail.
- Linked lists are sequences that the methods reassign; the parameter tree is a value that the methods rebuild, so pointers into it are not modelled.
- Characters stand for bytes; texts and names are C strings, so they hold no NUL where a C caller could not pass one.
- Audit runs keep `max_files` at 2 or more; what happens at 1 is stated for a crash after a complete rotation only.
- Audit `configure`: another directory is modelled only as going away and coming back, which resets the numbering.
- Bus: loading shared objects, scanning directories, runtime injection, the log, subscriptions and notification, and what follows a boot (the warning about plugins outside the boot order and the routing of configuration changes).
- PluginBus.Bus.BootChain: the scan before the pass is a step of its own in runs (`Discover`), and the routing of configuration changes after it is not modelled.
- Bus runs give each plugin an id of its own that differs from "bus".
- StorageTree.Restore: the guards before it are `SnapshotRestore`; that the registry may change between the two is not modelled.
- Permission `set_state_file`, and saving to or loading from a path other than the state file.
- PolicyThreads.QuietFileIsCurrent: with several state files it says nothing, because the model has one.
- Storage snapshots: the copy is one step with respect to the registry; changes to a volume while it is being copied are not modelled, and neither is the fate of a snapshot's directory under concurrent creations of the same name.
- Storage paths are disjoint: a volume holds neither another volume nor the snapshot area.
- StorageTree.CopyTree: a copy goes to a place where nothing is, or into an empty directory, as its two callers arrange; paths longer than 1023 bytes are not modelled.
- Storage statistics (`volume_df`) and the listing functions.
- ParamTree.Params.SetValue: not the type and the description of a parameter, nor the notification of watchers and the revision hook that follow.
- Parameter types, descriptions, watch patterns and the revision hook.
- Console output callbacks, the list of sessions and their names.
- Version comparison, the remaining protocol wrappers (crypto, compress, git, hap, np, pmp, terminal) and the kernel module.
