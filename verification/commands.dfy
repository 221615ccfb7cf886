/** The shared command contract of src/commands/index.ts (`CommandBase`): a fixed name,
    a `beforeInvoke` precondition hook and the generic `parse` lifecycle, together with
    the interaction envelope and the trace of hook calls every `parse` produces. */
module Commands {
  import opened Options

  /** The parts of a discord.js `ChatInputCommandInteraction` that routing reads:
      whether it is a chat-input command, the command name, the optional subcommand
      group and subcommand names, and whether it has been replied to. */
  datatype Ctx = Ctx(isChatInput: bool, commandName: string, group: Option<string>,
                     sub: Option<string>, replied: bool)

  /** The registration data a constructor gives the discord.js builder. */
  datatype Schema = Schema(name: string, description: string)

  /** A `beforeInvoke` implementation: the inherited no-op, or a user override. */
  datatype Hook = Default | Custom(id: string)

  /** What user code does to the reply state: `replies(id, ctx)` tells whether `ctx` is
      replied once the override `id` has returned.  User code is not part of the model,
      so this stays a parameter. */
  type Replies = (string, Ctx) -> bool

  /** One call of a user hook, naming the command by its path from the listener. */
  datatype Event = BeforeInvoke(path: seq<string>) | Invoke(path: seq<string>)

  /** discord.js throws when a required option is missing. */
  datatype ParseError = MissingRequiredSubcommand

  /** What one `parse` call does: the hooks it called, in order, and the reply flag as
      `beforeInvoke` leaves it, which is the flag the guard before `invoke` reads; or the
      error it propagates.  What `invoke` itself does to the flag is user code and is not
      recorded.  Routing never changes any other field. */
  datatype Outcome = Done(events: seq<Event>, replied: bool) | Failed(error: ParseError)

  /** How a matched slash node finishes.  `AsWritten` is the source: the overrides call
      `beforeInvoke` and stop.  `Corrected` runs the documented lifecycle instead. */
  datatype Variant = AsWritten | Corrected

  datatype CommandBase = CommandBase(name: string, before: Hook)

  function NewCommandBase(name: string, before: Hook): (c: CommandBase)
    ensures GetName(c) == name
    ensures c.before == before
  {
    CommandBase(name, before)
  }

  function GetName(c: CommandBase): string
  {
    c.name
  }

  /** `await this.beforeInvoke(ctx)`, observed through the reply flag it leaves. */
  function RunBeforeInvoke(c: CommandBase, ctx: Ctx, replies: Replies): (replied: bool)
    ensures c.before == Default ==> replied == ctx.replied
  {
    match c.before
    case Default => ctx.replied
    case Custom(id) => replies(id, ctx)
  }

  /** The routing result that does nothing at all. */
  function NoOp(ctx: Ctx): Outcome
  {
    Done([], ctx.replied)
  }

  /** The number of times `e` occurs in a trace. */
  function Count(events: seq<Event>, e: Event): nat
  {
    multiset(events)[e]
  }

  /** Every `invoke` in the trace comes after a `beforeInvoke` of the same command. */
  predicate BeforeThenInvoke(events: seq<Event>)
  {
    forall i :: 0 <= i < |events| && events[i].Invoke? ==>
      exists j :: 0 <= j < i && events[j] == BeforeInvoke(events[i].path)
  }

  /** Every event of a trace concerns the same command: one `parse` reaches one node. */
  predicate OneTarget(events: seq<Event>)
  {
    forall i, j :: 0 <= i < |events| && 0 <= j < |events| ==> events[i].path == events[j].path
  }

  /** Lines 48-53 of the base `parse`: run `beforeInvoke`, then `invoke` unless the
      context has been replied to.  `r.replied` is the flag that guard reads. */
  function Lifecycle(c: CommandBase, path: seq<string>, ctx: Ctx, replies: Replies): (r: Outcome)
    ensures r.Done? && r.replied == RunBeforeInvoke(c, ctx, replies)
    ensures forall e :: e in r.events ==> e.path == path
    ensures Count(r.events, BeforeInvoke(path)) == 1
    ensures Count(r.events, Invoke(path)) == if r.replied then 0 else 1
    ensures BeforeThenInvoke(r.events)
  {
    var replied := RunBeforeInvoke(c, ctx, replies);
    var r := Done([BeforeInvoke(path)] + (if replied then [] else [Invoke(path)]), replied);
    assert !replied ==> r.events[1] == Invoke(path) && r.events[0] == BeforeInvoke(path);
    r
  }

  /** `CommandBase.parse`: a no-op unless the command name matches, and the lifecycle
      otherwise.  `at` is the path of the parent, empty for a top-level command. */
  function ParseCommand(c: CommandBase, at: seq<string>, ctx: Ctx, replies: Replies): (r: Outcome)
    ensures r.Done?
    ensures ctx.commandName != GetName(c) ==> r == NoOp(ctx)
    ensures ctx.commandName == GetName(c) ==>
              |r.events| > 0 && r.events[0] == BeforeInvoke(at + [GetName(c)])
              && Count(r.events, BeforeInvoke(at + [GetName(c)])) == 1
    ensures Count(r.events, Invoke(at + [GetName(c)])) <= 1
    ensures forall e :: e in r.events ==> e.path == at + [GetName(c)]
    ensures BeforeThenInvoke(r.events)
    ensures Invoke(at + [GetName(c)]) in r.events <==>
              ctx.commandName == GetName(c) && !RunBeforeInvoke(c, ctx, replies)
  {
    if ctx.commandName == c.name then Lifecycle(c, at + [c.name], ctx, replies) else NoOp(ctx)
  }

  /** With the inherited no-op `beforeInvoke`, a matching context that has not been
      replied to reaches `invoke` exactly once, right after `beforeInvoke`. */
  lemma DefaultHookReachesInvoke(c: CommandBase, at: seq<string>, ctx: Ctx, replies: Replies)
    requires c.before == Default && ctx.commandName == GetName(c) && !ctx.replied
    ensures ParseCommand(c, at, ctx, replies).events == [BeforeInvoke(at + [GetName(c)]), Invoke(at + [GetName(c)])]
  {
  }

  /** The slash overrides' ending once a node has matched: `beforeInvoke` alone as
      written, the full lifecycle when corrected. */
  function Finish(v: Variant, c: CommandBase, path: seq<string>, ctx: Ctx, replies: Replies): (r: Outcome)
    ensures r.Done? && r.replied == RunBeforeInvoke(c, ctx, replies)
    ensures |r.events| > 0 && r.events[0] == BeforeInvoke(path)
    ensures forall e :: e in r.events ==> e.path == path
    ensures v == AsWritten ==> forall e :: e in r.events ==> !e.Invoke?
    ensures v == Corrected ==> (Invoke(path) in r.events <==> !r.replied)
    ensures Count(r.events, Invoke(path)) <= 1 && BeforeThenInvoke(r.events)
  {
    match v
    case AsWritten => Done([BeforeInvoke(path)], RunBeforeInvoke(c, ctx, replies))
    case Corrected => Lifecycle(c, path, ctx, replies)
  }

  /** A matched node with the inherited hook, on a context not yet replied to: as written
      the trace stops after `beforeInvoke`; corrected, `invoke` follows. */
  lemma DefaultHookFinish(c: CommandBase, path: seq<string>, ctx: Ctx, replies: Replies)
    requires c.before == Default && !ctx.replied
    ensures Finish(AsWritten, c, path, ctx, replies) == Done([BeforeInvoke(path)], false)
    ensures Finish(Corrected, c, path, ctx, replies) == Done([BeforeInvoke(path), Invoke(path)], false)
  {
  }
}
