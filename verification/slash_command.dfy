/** src/commands/slash/SlashCommand.ts: a top-level slash command with a table of
    subcommand groups and a separate table of direct subcommands. */
module SlashCommands {
  import opened Options
  import opened Tables
  import opened Commands
  import opened Subcommands
  import opened SubcommandGroups

  datatype SlashCommand = SlashCommand(base: CommandBase, data: Schema,
                                       groups: Table<SubcommandGroup>,
                                       subcommands: Table<Subcommand>)

  function CommandName(c: SlashCommand): string
  {
    GetName(c.base)
  }

  /** A command as its constructor and add methods leave it: its builder carries its
      name, both tables are maps keyed by each child's own name, and so is every group's. */
  predicate Valid(c: SlashCommand)
  {
    && c.data.name == CommandName(c)
    && UniqueKeys(c.groups) && KeyedBy(c.groups, GroupName)
    && AllValues(c.groups, SubcommandGroups.Valid)
    && UniqueKeys(c.subcommands) && KeyedBy(c.subcommands, Name)
  }

  function NewSlashCommand(name: string, description: string, before: Hook): (c: SlashCommand)
    ensures CommandName(c) == name && c.data == Schema(name, description)
    ensures c.base.before == before
    ensures c.groups == [] && c.subcommands == [] && Valid(c)
  {
    SlashCommand(NewCommandBase(name, before), Schema(name, description), [], [])
  }

  /** `toJSON()`: the registration data of this command. */
  function ToJson(c: SlashCommand): Schema
  {
    c.data
  }

  /** The entries `this.subcommandGroups.set(group.getName(), group)` writes. */
  function GroupKeyed(groups: seq<SubcommandGroup>): Table<SubcommandGroup>
  {
    seq(|groups|, i requires 0 <= i < |groups| => (GroupName(groups[i]), groups[i]))
  }

  /** `addSubcommandGroups`: last write wins per group name, other group names and the
      direct-subcommand table are untouched. */
  function AddSubcommandGroups(c: SlashCommand, groups: seq<SubcommandGroup>): (r: SlashCommand)
    ensures r.base == c.base && r.data == c.data && r.subcommands == c.subcommands
    ensures forall k :: Get(r.groups, k) ==
              if LastWith(GroupKeyed(groups), k).Some? then LastWith(GroupKeyed(groups), k) else Get(c.groups, k)
    ensures Keys(c.groups) <= Keys(r.groups)
    ensures UniqueKeys(c.groups) ==> UniqueKeys(r.groups)
  {
    c.(groups := PutAll(c.groups, GroupKeyed(groups)))
  }

  /** Adding well-formed groups keeps a command well-formed. */
  lemma AddSubcommandGroupsValid(c: SlashCommand, groups: seq<SubcommandGroup>)
    requires Valid(c) && forall i :: 0 <= i < |groups| ==> SubcommandGroups.Valid(groups[i])
    ensures Valid(AddSubcommandGroups(c, groups))
  {
    assert KeyedBy(GroupKeyed(groups), GroupName);
    assert AllValues(GroupKeyed(groups), SubcommandGroups.Valid);
    PutAllKeyed(c.groups, GroupKeyed(groups), GroupName);
    PutAllValues(c.groups, GroupKeyed(groups), SubcommandGroups.Valid);
  }

  /** `addSubcommands`: last write wins per subcommand name, other names and the group
      table are untouched. */
  function AddSubcommands(c: SlashCommand, subs: seq<Subcommand>): (r: SlashCommand)
    ensures r.base == c.base && r.data == c.data && r.groups == c.groups
    ensures forall k :: Get(r.subcommands, k) ==
              if LastWith(Keyed(subs), k).Some? then LastWith(Keyed(subs), k) else Get(c.subcommands, k)
    ensures Keys(c.subcommands) <= Keys(r.subcommands)
    ensures UniqueKeys(c.subcommands) ==> UniqueKeys(r.subcommands)
  {
    c.(subcommands := PutAll(c.subcommands, Keyed(subs)))
  }

  /** Adding subcommands keeps a command well-formed. */
  lemma AddSubcommandsValid(c: SlashCommand, subs: seq<Subcommand>)
    requires Valid(c)
    ensures Valid(AddSubcommands(c, subs))
  {
    KeyedIsKeyed(subs);
    PutAllKeyed(c.subcommands, Keyed(subs), Name);
  }

  /** `SlashCommand.parse`: a no-op unless the interaction is a chat-input command with
      this name; then the group, if present, decides alone; otherwise a subcommand, if
      present, is looked up among the direct subcommands; otherwise the command's own
      `beforeInvoke` runs.  A name that is not registered is a silent no-op. */
  function ParseSlash(c: SlashCommand, at: seq<string>, ctx: Ctx, replies: Replies, v: Variant): (r: Outcome)
    ensures !(ctx.isChatInput && ctx.commandName == CommandName(c)) ==> r == NoOp(ctx)
    ensures r.Failed? <==> ctx.isChatInput && ctx.commandName == CommandName(c)
                           && ctx.group.Some? && ctx.group.value in Keys(c.groups) && ctx.sub.None?
    ensures r.Done? && r.events == [] ==> r.replied == ctx.replied
    ensures r.Done? ==> OneTarget(r.events)
    ensures v == AsWritten && r.Done? ==> |r.events| <= 1 && forall e :: e in r.events ==> !e.Invoke?
  {
    if ctx.isChatInput && ctx.commandName == c.base.name then
      var path := at + [c.base.name];
      match (ctx.group, ctx.sub)
      case (None, None) => Finish(v, c.base, path, ctx, replies)
      case (None, Some(s)) =>
        (match Get(c.subcommands, s)
         case None => NoOp(ctx)
         case Some(leaf) =>
           assert Valid(c) ==> Name(leaf) == s by {
             if Valid(c) { GetKeyed(c.subcommands, Name, s); }
           }
           ParseSubcommand(leaf, path, ctx, replies, v))
      case (Some(g), _) =>
        match Get(c.groups, g)
        case None => NoOp(ctx)
        case Some(group) =>
          assert Valid(c) ==> GroupName(group) == g && SubcommandGroups.Valid(group) by {
            if Valid(c) { GetKeyed(c.groups, GroupName, g); }
          }
          ParseGroup(group, path, ctx, replies, v)
    else NoOp(ctx)
  }

  /** With neither a group nor a subcommand, the command's own `beforeInvoke` runs once
      and no child is reached; as written, `invoke` is never called on this path. */
  lemma BareCommandRunsOwnHook(c: SlashCommand, at: seq<string>, ctx: Ctx, replies: Replies, v: Variant)
    requires ctx.isChatInput && ctx.commandName == CommandName(c) && ctx.group.None? && ctx.sub.None?
    ensures ParseSlash(c, at, ctx, replies, v) == Finish(v, c.base, at + [CommandName(c)], ctx, replies)
    ensures ParseSlash(c, at, ctx, replies, AsWritten) == Done([BeforeInvoke(at + [CommandName(c)])], RunBeforeInvoke(c.base, ctx, replies))
  {
  }

  /** With no group and subcommand `s`, only the direct subcommand filed under `s` is
      parsed, and it accepts; a miss is a no-op. */
  lemma DirectSubcommandRoute(c: SlashCommand, at: seq<string>, ctx: Ctx, replies: Replies, v: Variant)
    requires Valid(c)
    requires ctx.isChatInput && ctx.commandName == CommandName(c) && ctx.group.None? && ctx.sub.Some?
    ensures var s := ctx.sub.value;
            ParseSlash(c, at, ctx, replies, v) ==
              match Get(c.subcommands, s)
              case None => NoOp(ctx)
              case Some(leaf) => Finish(v, leaf.base, at + [CommandName(c), s], ctx, replies)
  {
    var s := ctx.sub.value;
    var path := at + [CommandName(c)];
    GetKeyed(c.subcommands, Name, s);
    match Get(c.subcommands, s)
    case None =>
    case Some(leaf) =>
      assert ParseSlash(c, at, ctx, replies, v) == ParseSubcommand(leaf, path, ctx, replies, v);
      assert path + [s] == at + [CommandName(c), s];
  }

  /** With a group present, only the group table is consulted, whatever the subcommand;
      a miss is a no-op. */
  lemma GroupRoute(c: SlashCommand, at: seq<string>, ctx: Ctx, replies: Replies, v: Variant)
    requires ctx.isChatInput && ctx.commandName == CommandName(c) && ctx.group.Some?
    ensures ParseSlash(c, at, ctx, replies, v) ==
              match Get(c.groups, ctx.group.value)
              case None => NoOp(ctx)
              case Some(group) => ParseGroup(group, at + [CommandName(c)], ctx, replies, v)
  {
  }

  /** When the context names a group, the direct subcommands are never reached: replacing
      them changes nothing. */
  lemma GroupShadowsDirectSubcommands(c: SlashCommand, subs: Table<Subcommand>, at: seq<string>,
                                      ctx: Ctx, replies: Replies, v: Variant)
    requires ctx.group.Some?
    ensures ParseSlash(c.(subcommands := subs), at, ctx, replies, v) == ParseSlash(c, at, ctx, replies, v)
  {
  }

  /** The node a command's `parse` reaches is one of the three its routing rule allows. */
  lemma SlashTargets(c: SlashCommand, at: seq<string>, ctx: Ctx, replies: Replies, v: Variant)
    requires Valid(c)
    ensures var r := ParseSlash(c, at, ctx, replies, v);
            r.Done? && r.events != [] ==>
              var p := r.events[0].path; var n := CommandName(c);
              || (p == at + [n] && ctx.group.None? && ctx.sub.None?)
              || (ctx.group.None? && ctx.sub.Some? && ctx.sub.value in Keys(c.subcommands)
                  && p == at + [n, ctx.sub.value])
              || (ctx.group.Some? && ctx.group.value in Keys(c.groups) && ctx.sub.Some?
                  && ctx.sub.value in Keys(Get(c.groups, ctx.group.value).value.subcommands)
                  && p == at + [n, ctx.group.value, ctx.sub.value])
  {
    if ctx.isChatInput && ctx.commandName == CommandName(c) {
      if ctx.group.Some? {
        GroupRoute(c, at, ctx, replies, v);
        var g := ctx.group.value;
        if Get(c.groups, g).Some? {
          var group := Get(c.groups, g).value;
          GetKeyed(c.groups, GroupName, g);
          assert SubcommandGroups.Valid(group);
          assert ParseSlash(c, at, ctx, replies, v) == ParseGroup(group, at + [CommandName(c)], ctx, replies, v);
        }
      } else if ctx.sub.Some? {
        DirectSubcommandRoute(c, at, ctx, replies, v);
      }
    }
  }
}
