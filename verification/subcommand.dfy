/** src/commands/slash/Subcommand.ts: the leaf of the routing tree. */
module Subcommands {
  import opened Options
  import opened Commands
  import opened Tables

  datatype Subcommand = Subcommand(base: CommandBase, data: Schema)

  function Name(s: Subcommand): string
  {
    GetName(s.base)
  }

  /** The constructor: the name is fixed here, and it is both the builder's name and the
      key every parent table files the subcommand under. */
  function NewSubcommand(name: string, description: string, before: Hook): (s: Subcommand)
    ensures Name(s) == name && s.data == Schema(name, description)
    ensures s.base.before == before
  {
    Subcommand(NewCommandBase(name, before), Schema(name, description))
  }

  /** The entries `parent.subcommands.set(s.getName(), s)` writes, in argument order. */
  function Keyed(subs: seq<Subcommand>): Table<Subcommand>
  {
    seq(|subs|, i requires 0 <= i < |subs| => (Name(subs[i]), subs[i]))
  }

  lemma KeyedIsKeyed(subs: seq<Subcommand>)
    ensures KeyedBy(Keyed(subs), Name)
  {
  }

  /** `Subcommand.parse`: matches `ctx.options.getSubcommand(false)` (absent reads as
      `null`, which equals no name) against its own name, and then finishes. */
  function ParseSubcommand(s: Subcommand, at: seq<string>, ctx: Ctx, replies: Replies, v: Variant): (r: Outcome)
    ensures r.Done?
    ensures r.events != [] <==> ctx.sub == Some(Name(s))
    ensures r.events == [] ==> r.replied == ctx.replied
    ensures r.events != [] ==> r.events[0] == BeforeInvoke(at + [Name(s)])
    ensures forall e :: e in r.events ==> e.path == at + [Name(s)]
    ensures v == AsWritten ==> |r.events| <= 1 && forall e :: e in r.events ==> !e.Invoke?
    ensures v == Corrected ==> (Invoke(at + [Name(s)]) in r.events <==>
              ctx.sub == Some(Name(s)) && !RunBeforeInvoke(s.base, ctx, replies))
  {
    if ctx.sub == Some(s.base.name) then Finish(v, s.base, at + [s.base.name], ctx, replies)
    else NoOp(ctx)
  }

  /** Which hooks the leaf calls depends only on the subcommand name: the command name,
      the group name and (as written) the reply flag are never consulted. */
  lemma LeafReadsOnlySubcommand(s: Subcommand, at: seq<string>, ctx: Ctx, replies: Replies,
                                name: string, group: Option<string>, replied: bool)
    ensures ParseSubcommand(s, at, ctx.(commandName := name, group := group), replies, AsWritten).events
         == ParseSubcommand(s, at, ctx, replies, AsWritten).events
    ensures ParseSubcommand(s, at, ctx.(replied := replied), replies, AsWritten).events
         == ParseSubcommand(s, at, ctx, replies, AsWritten).events
  {
  }
}
