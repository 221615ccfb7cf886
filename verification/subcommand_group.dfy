/** src/commands/slash/SubcommandGroup.ts: a named table of subcommands. */
module SubcommandGroups {
  import opened Options
  import opened Tables
  import opened Commands
  import opened Subcommands

  datatype SubcommandGroup = SubcommandGroup(base: CommandBase, data: Schema, subcommands: Table<Subcommand>)

  function GroupName(g: SubcommandGroup): string
  {
    GetName(g.base)
  }

  /** A group as its methods leave it: a `Map`, keyed by each subcommand's own name. */
  predicate Valid(g: SubcommandGroup)
  {
    UniqueKeys(g.subcommands) && KeyedBy(g.subcommands, Name)
  }

  function NewSubcommandGroup(name: string, description: string, before: Hook): (g: SubcommandGroup)
    ensures GroupName(g) == name && g.data == Schema(name, description)
    ensures g.subcommands == [] && Valid(g)
  {
    SubcommandGroup(NewCommandBase(name, before), Schema(name, description), [])
  }

  /** `addSubcommands`: each added name now finds the LAST subcommand added under it,
      every other name finds what it found before, and the table stays a valid map. */
  function AddSubcommands(g: SubcommandGroup, subs: seq<Subcommand>): (r: SubcommandGroup)
    ensures r.base == g.base && r.data == g.data
    ensures forall k :: Get(r.subcommands, k) ==
              if LastWith(Keyed(subs), k).Some? then LastWith(Keyed(subs), k) else Get(g.subcommands, k)
    ensures Keys(g.subcommands) <= Keys(r.subcommands)
    ensures UniqueKeys(g.subcommands) ==> UniqueKeys(r.subcommands)
  {
    g.(subcommands := PutAll(g.subcommands, Keyed(subs)))
  }

  /** Adding subcommands keeps a group well-formed. */
  lemma AddSubcommandsValid(g: SubcommandGroup, subs: seq<Subcommand>)
    requires Valid(g)
    ensures Valid(AddSubcommands(g, subs))
  {
    KeyedIsKeyed(subs);
    PutAllKeyed(g.subcommands, Keyed(subs), Name);
  }

  /** `SubcommandGroup.parse`: reads the subcommand as REQUIRED (discord.js throws when it
      is absent), and hands the context to the subcommand filed under that name, if any.
      The group's own name and the context's group name are never compared. */
  function ParseGroup(g: SubcommandGroup, at: seq<string>, ctx: Ctx, replies: Replies, v: Variant): (r: Outcome)
    ensures r.Failed? <==> ctx.sub.None?
    ensures r.Done? && r.events == [] ==> r.replied == ctx.replied
    ensures r.Done? ==> OneTarget(r.events)
    ensures Valid(g) ==> (r.Done? && r.events != [] <==> ctx.sub.Some? && ctx.sub.value in Keys(g.subcommands))
    ensures Valid(g) && r.Done? ==>
              forall e :: e in r.events ==> e.path == at + [GroupName(g), ctx.sub.value]
    ensures v == AsWritten && r.Done? ==> |r.events| <= 1 && forall e :: e in r.events ==> !e.Invoke?
  {
    match ctx.sub
    case None => Failed(MissingRequiredSubcommand)
    case Some(name) =>
      match Get(g.subcommands, name)
      case None => NoOp(ctx)
      case Some(s) =>
        assert Valid(g) ==> Name(s) == name by {
          if Valid(g) { GetKeyed(g.subcommands, Name, name); }
        }
        ParseSubcommand(s, at + [g.base.name], ctx, replies, v)
  }

  /** The subcommand a group delegates to always accepts the context: tables are keyed by
      `getName()`, so its own name check repeats the lookup and succeeds. */
  lemma DelegateAlwaysMatches(g: SubcommandGroup, at: seq<string>, ctx: Ctx, replies: Replies, v: Variant)
    requires Valid(g) && ctx.sub.Some? && Get(g.subcommands, ctx.sub.value).Some?
    ensures ParseGroup(g, at, ctx, replies, v)
         == Finish(v, Get(g.subcommands, ctx.sub.value).value.base, at + [GroupName(g), ctx.sub.value], ctx, replies)
  {
    GetKeyed(g.subcommands, Name, ctx.sub.value);
  }

  /** Neither the context's group name nor the group's own hook changes what a group does. */
  lemma GroupIgnoresGroupName(g: SubcommandGroup, at: seq<string>, ctx: Ctx, replies: Replies, v: Variant,
                              group: Option<string>, before: Hook)
    ensures var r := ParseGroup(g, at, ctx, replies, v);
            var r' := ParseGroup(g.(base := g.base.(before := before)), at, ctx.(group := group), replies, v);
            && r.Failed? == r'.Failed?
            && (r.Done? ==> (r.events == [] <==> r'.events == []))
            && (r.Done? && r.events != [] ==> r.events[0] == r'.events[0])
  {
  }
}
