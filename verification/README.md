# Slash-command routing of cheesyutils.js

This project models the command-dispatch core of cheesyutils.js, a helper library for
discord.js bots, and proves properties of it in Dafny. The core has three parts:

- a `CommandListener` maps command names to `SlashCommand`s;
- a `SlashCommand` holds a table of `SubcommandGroup`s and a table of direct
  `Subcommand`s, and a group holds its own table of subcommands;
- every node extends `CommandBase`: a fixed name, a `beforeInvoke` precondition hook
  and an `invoke` action. `CommandBase.parse` runs `invoke` only when `beforeInvoke`
  did not reply, but every slash node overrides `parse` (see Findings).

An incoming interaction is routed by its command name, optional group name and
optional subcommand name. The listener also exports the registration schema of every
command. The argument guards of `src/checks.ts` are modelled as well.

Modelling choices:

- A JavaScript `Map<string, V>` is an insertion-ordered association list (`Tables`).
  - `Set` overwrites in place or appends.
  - `Get` answers `None` for `undefined`.
  - `PutAll` is the `for … of … map.set(…)` loop.
  - `LastWith` is an independent reference for "the later registration wins".
- The interaction is the record `Commands.Ctx`. It holds only what routing reads:
  whether it is a chat-input command, the command name, the optional group and
  subcommand names, and the `replied` flag.
- User code is not part of the model.
  - A `beforeInvoke` override is `Custom(id)`.
  - Its effect on the reply flag is the parameter `replies: (string, Ctx) -> bool`.
  - The inherited hook is `Default`, which leaves the flag as it is.
- A `parse` call yields an `Outcome`:
  - either the trace of hook calls it made, with their paths from the listener, and
    the reply flag as `beforeInvoke` leaves it (see Left out);
  - or `Failed(MissingRequiredSubcommand)`, the error discord.js throws from
    `getSubcommand(true)`.
- The slash nodes' routing takes a `Variant`.
  - `AsWritten` is the code: a matched slash node calls `beforeInvoke` and stops.
  - `Corrected` runs the documented lifecycle instead (see Findings).
  - Every routing property is proved for both variants, unless it names one.
- Where the library's doc comment (src/commands/index.ts:33-35) and its code differ,
  the model follows the code: a bare command, a direct subcommand and a grouped
  subcommand never reach `invoke` as written.
- A group reads its subcommand with `getSubcommand(true)`
  (src/commands/slash/SubcommandGroup.ts:40), so a registered group named without a
  subcommand makes `parse` throw.

Files: `options.dfy`, `tables.dfy`, `commands.dfy` (`src/commands/index.ts`),
`subcommand.dfy`, `subcommand_group.dfy`, `slash_command.dfy`,
`command_listener.dfy`, `checks.dfy`, and `scenarios.dfy` (concrete registrations).

## Model

| member | source | states |
|---|---|---|
| Tables.Get | src/commands/CommandListener.ts:36 | `Map.get` finds a value exactly when the key is present; the value is stored under that key, and in a map with unique keys it is the value of that key's entry |
| Tables.Set | src/commands/CommandListener.ts:12 | `Map.set` keeps the key order when overwriting and appends a new key; entries under other keys are unchanged; every entry is the new pair or the old one; keys stay unique |
| Tables.GetSet | src/commands/CommandListener.ts:12 | after `set(k, v)`, `get(k)` is `v` and every other key reads as before |
| Tables.LastWith | src/commands/CommandListener.ts:11-13 | reference reading of "the later registration wins": present exactly for registered keys, and the witness entry is the last one with that key |
| Tables.PutAll | src/commands/CommandListener.ts:11-13 | after the registration loop, a key is present iff it was already present or was registered; each lookup gives the last registered value, or the old value when the key was not registered; old keys stay; keys stay unique |
| Tables.PutAllKeyed | src/commands/slash/SubcommandGroup.ts:24-29 | a table filed by `getName()` stays filed by `getName()` when more children are added that way |
| Tables.PutAllValues | src/commands/slash/SlashCommand.ts:42-47 | adding values that all satisfy a property to a table whose values satisfy it keeps the property |
| Tables.FirstIndex | src/commands/CommandListener.ts:23 | the position returned holds the key, and no earlier position does |
| Tables.PutAllOrder | src/commands/CommandListener.ts:11-13 | the map's keys are distinct and registered, and they iterate in the order of each key's first registration |
| Tables.PutAllCount | src/commands/CommandListener.ts:11-13 | the map has exactly one entry per distinct registered key |
| Commands.NewCommandBase | src/commands/index.ts:16-26 | `getName()` returns the name given to the constructor |
| Commands.RunBeforeInvoke | src/commands/index.ts:40 | the inherited `beforeInvoke` does nothing, so the reply flag is unchanged |
| Commands.Lifecycle | src/commands/index.ts:48-53 | `beforeInvoke` runs exactly once; `invoke` runs once if the context is still unreplied and never otherwise; `invoke` always follows `beforeInvoke`; both concern this command |
| Commands.ParseCommand | src/commands/index.ts:46-55 | a name mismatch is a no-op; on a match the trace starts with `beforeInvoke`, which runs once; `invoke` runs iff the name matches and the hook did not reply |
| Commands.DefaultHookReachesInvoke | src/commands/index.ts:40-53 | with the inherited hook, an unreplied matching context runs `beforeInvoke` and then `invoke` |
| Commands.Finish | src/commands/slash/SlashCommand.ts:70-71 | a matched slash node starts with `beforeInvoke` and keeps the hook's reply flag; as written it never runs `invoke`; corrected, it runs `invoke` iff the context is unreplied, at most once and after `beforeInvoke` |
| Commands.DefaultHookFinish | src/commands/slash/SlashCommand.ts:70-71 | with the inherited hook and no reply, as written the trace is `beforeInvoke` alone; corrected it is `beforeInvoke` then `invoke` |
| Subcommands.NewSubcommand | src/commands/slash/Subcommand.ts:11-17 | the name is both the subcommand's name and its builder's name, and the builder has the description |
| Subcommands.KeyedIsKeyed | src/commands/slash/SubcommandGroup.ts:27 | the entries an add loop writes are filed under each child's own name |
| Subcommands.ParseSubcommand | src/commands/slash/Subcommand.ts:31-35 | the leaf acts iff the context's subcommand equals its name; it never fails; the trace concerns only this leaf; as written it runs at most `beforeInvoke`; corrected, `invoke` runs iff it matched and the hook did not reply |
| Subcommands.LeafReadsOnlySubcommand | src/commands/slash/Subcommand.ts:32 | as written, the leaf's trace does not depend on the command name, the group name or the reply flag |
| SubcommandGroups.NewSubcommandGroup | src/commands/slash/SubcommandGroup.ts:12-18 | name and builder data come from the constructor; the subcommand table starts empty and well-formed |
| SubcommandGroups.AddSubcommands | src/commands/slash/SubcommandGroup.ts:24-29 | each added name now finds the last subcommand added under it; other names find what they found before; names are kept; the table stays a map |
| SubcommandGroups.AddSubcommandsValid | src/commands/slash/SubcommandGroup.ts:24-29 | adding subcommands keeps a group's table unique and filed by name |
| SubcommandGroups.ParseGroup | src/commands/slash/SubcommandGroup.ts:39-42 | the group throws iff the subcommand is absent; it acts iff the subcommand is registered; it reaches only the path group/subcommand; as written it runs at most `beforeInvoke` |
| SubcommandGroups.DelegateAlwaysMatches | src/commands/slash/SubcommandGroup.ts:39-42 | the subcommand found by lookup always accepts the context, so the group's result is that subcommand's finish |
| SubcommandGroups.GroupIgnoresGroupName | src/commands/slash/SubcommandGroup.ts:39-42 | neither the context's group name nor the group's own hook changes whether the group throws, whether it acts, or which hook it calls first |
| SlashCommands.NewSlashCommand | src/commands/slash/SlashCommand.ts:14-20 | name and builder data come from the constructor; both child tables start empty; the command is well-formed |
| SlashCommands.AddSubcommandGroups | src/commands/slash/SlashCommand.ts:42-47 | last write wins per group name; other group names and the direct-subcommand table are untouched |
| SlashCommands.AddSubcommandGroupsValid | src/commands/slash/SlashCommand.ts:42-47 | adding well-formed groups keeps the command well-formed |
| SlashCommands.AddSubcommands | src/commands/slash/SlashCommand.ts:53-58 | last write wins per subcommand name; other names and the group table are untouched |
| SlashCommands.AddSubcommandsValid | src/commands/slash/SlashCommand.ts:53-58 | adding subcommands keeps the command well-formed |
| SlashCommands.ParseSlash | src/commands/slash/SlashCommand.ts:65-78 | a command whose name does not match, or a non-chat-input interaction, is a no-op; it throws iff a registered group is named without a subcommand; one parse reaches one node; as written at most one `beforeInvoke` and no `invoke` |
| SlashCommands.BareCommandRunsOwnHook | src/commands/slash/SlashCommand.ts:70-71 | with no group and no subcommand, the command itself finishes; as written the trace is its `beforeInvoke` alone |
| SlashCommands.DirectSubcommandRoute | src/commands/slash/SlashCommand.ts:72-73 | with no group, only the direct subcommand filed under the given name is reached; a miss is a no-op |
| SlashCommands.GroupRoute | src/commands/slash/SlashCommand.ts:74-75 | with a group, only the group table is consulted, whatever the subcommand; a miss is a no-op |
| SlashCommands.GroupShadowsDirectSubcommands | src/commands/slash/SlashCommand.ts:72-75 | when a group is named, replacing the direct subcommands changes nothing |
| SlashCommands.SlashTargets | src/commands/slash/SlashCommand.ts:65-78 | the node reached is the command itself, a registered direct subcommand, or a registered subcommand of a registered group, with the matching path |
| CommandListeners.NewCommandListener | src/commands/CommandListener.ts:10-14 | each name finds the last command given under it; names are unique |
| CommandListeners.NewCommandListenerValid | src/commands/CommandListener.ts:10-14 | a listener built from well-formed commands files each one under its own name |
| CommandListeners.GetCommandsOnePerName | src/commands/CommandListener.ts:20-28 | the export has one schema per distinct command name |
| CommandListeners.GetCommandsOrder | src/commands/CommandListener.ts:20-28 | the export is ordered by each name's first registration, and each schema is that of the last command registered under the name |
| CommandListeners.Process | src/commands/CommandListener.ts:34-38 | non-chat-input and unknown names are no-ops; one interaction reaches one node, whose path starts with the command name; as written at most one `beforeInvoke` and no `invoke` |
| CommandListeners.ProcessFollowsRoute | src/commands/CommandListener.ts:34-38 | an interaction that names a registered node finishes exactly that node at exactly that path |
| CommandListeners.ProcessSilentOffRoute | src/commands/CommandListener.ts:34-38 | an interaction that names no registered node calls no hook; it throws iff it names a registered group without a subcommand |
| Checks.IsPositive | src/checks.ts:1-5 | passes iff the number is non-negative, and otherwise reports it |
| Checks.IsInteger | src/checks.ts:7-11 | passes iff the number is a whole number, and otherwise reports it |
| Checks.IsNonZero | src/checks.ts:13-17 | passes iff the number is not zero |
| Checks.IsPositiveAcceptsZero | src/checks.ts:1-5 | `isPositive` accepts zero, which `isNonZero` rejects |
| Checks.MaxLengthGuardAdmitsPositiveIntegers | src/embed.ts:23-27 | the three guards of `splitStringByLength` together admit exactly the integers from 1 up; a non-integer is reported as such first, and a negative integer as negative |
| Scenarios.LookupPing | src/commands/CommandListener.ts:10-14 | a listener registering `ping` finds it under `ping` |
| Scenarios.BotValid | src/commands/CommandListener.ts:10-14 | that listener is well-formed |
| Scenarios.BareCommandNeverInvoked | src/commands/slash/SlashCommand.ts:65-71 | `/ping` with the inherited hook: as written only `beforeInvoke` runs; corrected, `beforeInvoke` then `invoke` |
| Scenarios.UnknownCommandScenario | src/commands/CommandListener.ts:36 | an unregistered command name is a silent no-op |
| Scenarios.ShortCircuitScenario | src/commands/index.ts:48-53 | corrected, a hook that replies stops the command before `invoke` |
| Scenarios.DuplicateKeepsLater | src/commands/CommandListener.ts:10-14 | of two commands registered under one name, the later one is found |
| Scenarios.DuplicateSingleEntry | src/commands/CommandListener.ts:10-14 | that listener holds a single entry, the later command |
| Scenarios.DuplicateExportsLater | src/commands/CommandListener.ts:20-28 | its export is the later command's schema alone |

## Left out

- The discord.js builders are reduced to a name and a description (`Schema`).
  - The child fragments `addSubcommand`/`addSubcommandGroup` add to a builder are not modelled.
  - So `toJSON()` is the command's own name and description only.
- Children are immutable values. A child changed after being added to its parent is
  not seen by the parent, whereas JavaScript shares it by reference.
- `Outcome.replied` is the reply flag as `beforeInvoke` leaves it, the flag the guard
  at src/commands/index.ts:51 reads. What `invoke` does to the flag afterwards is user
  code and is not modelled, so a trace ending in `Invoke` still reports the earlier flag.
- Commands.GetName has no contract of its own: it returns the constructor's name, as
  `Commands.NewCommandBase` and every routing lemma that names a node's path state.
- SlashCommands.ToJson has no contract of its own: it returns the command's builder data,
  whose content `SlashCommands.NewSlashCommand` states and whose export
  `CommandListeners.GetCommandsOrder` states.
- `async`/`await` is not modelled. Hooks run to completion in call order, and errors
  thrown by user hooks are not modelled.
- `invoke` bodies, reply contents and error-message text are not modelled.
- `ctx.isChatInputCommand()` is a field of the context. The listener and the command
  test it twice; both read the same field.
- `Checks`: numbers are exact reals, so IEEE-754 `NaN` and infinities are not
  modelled. The guards return a result instead of throwing.
- `Checks.CheckMaxLength` has no row. It only sequences the guards, and its
  property is stated by `Checks.MaxLengthGuardAdmitsPositiveIntegers`.
- `CommandListeners.GetCommands` has no contract of its own. Its properties are the
  lemmas `GetCommandsOnePerName` and `GetCommandsOrder`.
- The rest of `src/embed.ts` and all of `src/config.ts` are not part of this model.
  The `SlashCommandBase` alias of `src/commands/slash/index.ts` is folded into
  `CommandBase`.
- `getData()` is the `data` field of each node.

## Findings

| source | as written | input that shows it | evidently intended | confidence | as-written member | corrected member |
|---|---|---|---|---|---|---|
| src/commands/slash/SlashCommand.ts:70-71 | The `parse` overrides of `SlashCommand` and `Subcommand` (Subcommand.ts:31-35) call `beforeInvoke` and return. They never call `invoke`, so no slash handler ever runs. | A listener with `ping` registered with the inherited hook, given an unreplied chat-input `/ping` with no group or subcommand: the trace is `[BeforeInvoke(["ping"])]`. | After `beforeInvoke`, `invoke` runs unless the context was replied to, as index.ts:34-35 documents and the base `parse` does at index.ts:48-53. | not executed; high, since no path of the slash classes calls `invoke` | Scenarios.BareCommandNeverInvoked | Commands.Finish |
