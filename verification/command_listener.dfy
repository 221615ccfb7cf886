/** src/commands/CommandListener.ts: the top-level table of slash commands, the schema
    export and the entry point for incoming interactions. */
module CommandListeners {
  import opened Options
  import opened Tables
  import opened Commands
  import opened Subcommands
  import opened SubcommandGroups
  import opened SlashCommands

  datatype CommandListener = CommandListener(commandMap: Table<SlashCommand>)

  /** The entries `this.commandMap.set(command.getName(), command)` writes. */
  function RootKeyed(commands: seq<SlashCommand>): Table<SlashCommand>
  {
    seq(|commands|, i requires 0 <= i < |commands| => (CommandName(commands[i]), commands[i]))
  }

  /** The command names in argument order, duplicates included. */
  function Names(commands: seq<SlashCommand>): seq<string>
  {
    seq(|commands|, i requires 0 <= i < |commands| => CommandName(commands[i]))
  }

  predicate Valid(l: CommandListener)
  {
    UniqueKeys(l.commandMap) && KeyedBy(l.commandMap, CommandName) && AllValues(l.commandMap, SlashCommands.Valid)
  }

  /** The constructor: one entry per distinct name, holding the LAST command given under
      that name. */
  function NewCommandListener(commands: seq<SlashCommand>): (l: CommandListener)
    ensures forall k :: Get(l.commandMap, k) == LastWith(RootKeyed(commands), k)
    ensures UniqueKeys(l.commandMap)
  {
    assert Keys(RootKeyed(commands)) == Names(commands);
    CommandListener(PutAll([], RootKeyed(commands)))
  }

  /** A listener built from well-formed commands files each under its own name. */
  lemma NewCommandListenerValid(commands: seq<SlashCommand>)
    requires forall i :: 0 <= i < |commands| ==> SlashCommands.Valid(commands[i])
    ensures Valid(NewCommandListener(commands))
  {
    assert KeyedBy(RootKeyed(commands), CommandName);
    assert AllValues(RootKeyed(commands), SlashCommands.Valid);
    PutAllKeyed([], RootKeyed(commands), CommandName);
    PutAllValues([], RootKeyed(commands), SlashCommands.Valid);
  }

  /** `getCommands()`: the `toJSON()` of every command, in map order. */
  function GetCommands(l: CommandListener): seq<Schema>
  {
    seq(|l.commandMap|, i requires 0 <= i < |l.commandMap| => ToJson(l.commandMap[i].1))
  }

  lemma NamesAsSet(commands: seq<SlashCommand>)
    ensures (set k | k in Keys(RootKeyed(commands))) == (set c | c in commands :: CommandName(c))
  {
    assert Keys(RootKeyed(commands)) == Names(commands);
    forall k | k in Names(commands)
      ensures k in (set c | c in commands :: CommandName(c))
    {
      var i :| 0 <= i < |commands| && Names(commands)[i] == k;
      assert commands[i] in commands;
    }
    forall c | c in commands
      ensures CommandName(c) in Names(commands)
    {
      var i :| 0 <= i < |commands| && commands[i] == c;
      assert Names(commands)[i] == CommandName(c);
    }
  }

  /** The export holds one schema per distinct command name. */
  lemma GetCommandsOnePerName(commands: seq<SlashCommand>)
    ensures |GetCommands(NewCommandListener(commands))| == |set c | c in commands :: CommandName(c)|
  {
    PutAllCount(RootKeyed(commands));
    NamesAsSet(commands);
  }

  /** The export is ordered by where each name was FIRST registered, and each schema is
      that of the LAST command registered under its name. */
  lemma GetCommandsOrder(commands: seq<SlashCommand>)
    requires forall i :: 0 <= i < |commands| ==> SlashCommands.Valid(commands[i])
    ensures var out := GetCommands(NewCommandListener(commands));
            && FirstOccurrenceOrder(seq(|out|, i requires 0 <= i < |out| => out[i].name), Names(commands))
            && forall i :: 0 <= i < |out| ==>
                 var last := LastWith(RootKeyed(commands), out[i].name);
                 last.Some? && out[i] == ToJson(last.value)
  {
    var l := NewCommandListener(commands);
    var out := GetCommands(l);
    NewCommandListenerValid(commands);
    PutAllOrder(RootKeyed(commands));
    assert Keys(RootKeyed(commands)) == Names(commands);
    assert seq(|out|, i requires 0 <= i < |out| => out[i].name) == Keys(l.commandMap);
    forall i | 0 <= i < |out|
      ensures var last := LastWith(RootKeyed(commands), out[i].name);
              last.Some? && out[i] == ToJson(last.value)
    {
      assert Get(l.commandMap, out[i].name) == Some(l.commandMap[i].1);
    }
  }

  /** `process`: non-chat-input interactions are ignored; otherwise the command filed
      under `ctx.commandName`, if any, parses the context.  An unknown name is a silent
      no-op. */
  function Process(l: CommandListener, ctx: Ctx, replies: Replies, v: Variant): (r: Outcome)
    ensures !ctx.isChatInput ==> r == NoOp(ctx)
    ensures ctx.commandName !in Keys(l.commandMap) ==> r == NoOp(ctx)
    ensures r.Done? && r.events == [] ==> r.replied == ctx.replied
    ensures r.Done? ==> OneTarget(r.events)
    ensures r.Done? && r.events != [] ==> |r.events[0].path| > 0 && r.events[0].path[0] == ctx.commandName
    ensures v == AsWritten && r.Done? ==> |r.events| <= 1 && forall e :: e in r.events ==> !e.Invoke?
  {
    if ctx.isChatInput then
      match Get(l.commandMap, ctx.commandName)
      case None => NoOp(ctx)
      case Some(c) => ParseSlash(c, [], ctx, replies, v)
    else NoOp(ctx)
  }

  /** The routing rule as a relation: the context `ctx` names the node `target`,
      filed at `path` below the listener. */
  predicate Routes(l: CommandListener, ctx: Ctx, path: seq<string>, target: CommandBase)
  {
    && ctx.isChatInput
    && Get(l.commandMap, ctx.commandName).Some?
    && var root := Get(l.commandMap, ctx.commandName).value;
       match (ctx.group, ctx.sub)
       case (None, None) => path == [ctx.commandName] && target == root.base
       case (None, Some(s)) =>
         && Get(root.subcommands, s).Some?
         && path == [ctx.commandName, s] && target == Get(root.subcommands, s).value.base
       case (Some(g), Some(s)) =>
         && Get(root.groups, g).Some?
         && Get(Get(root.groups, g).value.subcommands, s).Some?
         && path == [ctx.commandName, g, s]
         && target == Get(Get(root.groups, g).value.subcommands, s).value.base
       case (Some(_), None) => false
  }

  /** A context that names a registered node reaches exactly that node. */
  lemma ProcessFollowsRoute(l: CommandListener, ctx: Ctx, path: seq<string>, target: CommandBase,
                            replies: Replies, v: Variant)
    requires Valid(l) && Routes(l, ctx, path, target)
    ensures Process(l, ctx, replies, v) == Finish(v, target, path, ctx, replies)
  {
    var root := Get(l.commandMap, ctx.commandName).value;
    GetKeyed(l.commandMap, CommandName, ctx.commandName);
    assert SlashCommands.Valid(root);
    assert Process(l, ctx, replies, v) == ParseSlash(root, [], ctx, replies, v);
    match (ctx.group, ctx.sub)
    case (None, None) =>
      BareCommandRunsOwnHook(root, [], ctx, replies, v);
      assert [] + [ctx.commandName] == path;
    case (None, Some(s)) =>
      DirectSubcommandRoute(root, [], ctx, replies, v);
      assert [] + [ctx.commandName, s] == path;
    case (Some(g), Some(s)) =>
      GroupRoute(root, [], ctx, replies, v);
      var group := Get(root.groups, g).value;
      GetKeyed(root.groups, GroupName, g);
      assert SubcommandGroups.Valid(group);
      assert [] + [CommandName(root)] == [ctx.commandName];
      assert ParseSlash(root, [], ctx, replies, v) == ParseGroup(group, [ctx.commandName], ctx, replies, v);
      DelegateAlwaysMatches(group, [ctx.commandName], ctx, replies, v);
      assert [ctx.commandName] + [GroupName(group), s] == path;
      assert target == Get(group.subcommands, s).value.base;
  }

  /** A context that names no registered node produces no event: it is a silent no-op,
      except that a registered group read without a subcommand propagates discord.js's
      missing-option error. */
  lemma ProcessSilentOffRoute(l: CommandListener, ctx: Ctx, replies: Replies, v: Variant)
    requires Valid(l)
    requires forall path, target :: !Routes(l, ctx, path, target)
    ensures var r := Process(l, ctx, replies, v);
            r == NoOp(ctx) || r == Failed(MissingRequiredSubcommand)
    ensures Process(l, ctx, replies, v).Failed? <==>
              && ctx.isChatInput && ctx.group.Some? && ctx.sub.None?
              && Get(l.commandMap, ctx.commandName).Some?
              && ctx.group.value in Keys(Get(l.commandMap, ctx.commandName).value.groups)
  {
    if ctx.isChatInput && Get(l.commandMap, ctx.commandName).Some? {
      var root := Get(l.commandMap, ctx.commandName).value;
      GetKeyed(l.commandMap, CommandName, ctx.commandName);
      assert SlashCommands.Valid(root);
      match (ctx.group, ctx.sub)
      case (None, None) =>
        assert Routes(l, ctx, [ctx.commandName], root.base);
      case (None, Some(s)) =>
        DirectSubcommandRoute(root, [], ctx, replies, v);
        if Get(root.subcommands, s).Some? {
          assert Routes(l, ctx, [ctx.commandName, s], Get(root.subcommands, s).value.base);
        }
      case (Some(g), Some(s)) =>
        GroupRoute(root, [], ctx, replies, v);
        if Get(root.groups, g).Some? {
          var group := Get(root.groups, g).value;
          if Get(group.subcommands, s).Some? {
            assert Routes(l, ctx, [ctx.commandName, g, s], Get(group.subcommands, s).value.base);
          }
        }
      case (Some(g), None) =>
        GroupRoute(root, [], ctx, replies, v);
    }
  }
}
