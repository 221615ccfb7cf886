/** Concrete registrations and interactions, each stated for the code as written and,
    where they differ, for the corrected lifecycle. */
module Scenarios {
  import opened Options
  import opened Tables
  import opened Commands
  import opened Subcommands
  import opened SubcommandGroups
  import opened SlashCommands
  import opened CommandListeners

  function Ping(): SlashCommand
  {
    NewSlashCommand("ping", "Replies with pong", Default)
  }

  function Bot(): CommandListener
  {
    NewCommandListener([Ping()])
  }

  function Chat(name: string, group: Option<string>, sub: Option<string>): Ctx
  {
    Ctx(true, name, group, sub, false)
  }

  lemma LookupPing()
    ensures Get(Bot().commandMap, "ping") == Some(Ping())
  {
    assert LastWith(RootKeyed([Ping()]), "ping") == Some(Ping());
  }

  lemma BotValid()
    ensures CommandListeners.Valid(Bot())
  {
    NewCommandListenerValid([Ping()]);
  }

  /** A bare command with the inherited no-op hook and no reply yet: as written only
      `beforeInvoke` runs and `invoke` never does; the corrected lifecycle runs both. */
  lemma BareCommandNeverInvoked(replies: Replies)
    ensures Process(Bot(), Chat("ping", None, None), replies, AsWritten) == Done([BeforeInvoke(["ping"])], false)
    ensures Process(Bot(), Chat("ping", None, None), replies, Corrected)
         == Done([BeforeInvoke(["ping"]), Invoke(["ping"])], false)
  {
    var ctx := Chat("ping", None, None);
    LookupPing();
    BotValid();
    assert Routes(Bot(), ctx, ["ping"], Ping().base);
    ProcessFollowsRoute(Bot(), ctx, ["ping"], Ping().base, replies, AsWritten);
    ProcessFollowsRoute(Bot(), ctx, ["ping"], Ping().base, replies, Corrected);
    DefaultHookFinish(Ping().base, ["ping"], ctx, replies);
  }

  /** An unknown command name is a silent no-op. */
  lemma UnknownCommandScenario(replies: Replies, v: Variant)
    ensures Process(Bot(), Chat("foo", None, None), replies, v) == Done([], false)
  {
    assert LastWith(RootKeyed([Ping()]), "foo") == None;
  }

  /** A hook that replies stops the corrected lifecycle before `invoke`. */
  lemma ShortCircuitScenario(c: SlashCommand, id: string, replies: Replies)
    requires c.base.before == Custom(id)
    requires replies(id, Chat(CommandName(c), None, None))
    ensures Process(NewCommandListener([c]), Chat(CommandName(c), None, None), replies, Corrected)
         == Done([BeforeInvoke([CommandName(c)])], true)
  {
    var l := NewCommandListener([c]);
    var ctx := Chat(CommandName(c), None, None);
    assert LastWith(RootKeyed([c]), CommandName(c)) == Some(c);
    var path := [CommandName(c)];
    assert [] + [CommandName(c)] == path;
    assert Process(l, ctx, replies, Corrected) == ParseSlash(c, [], ctx, replies, Corrected);
    BareCommandRunsOwnHook(c, [], ctx, replies, Corrected);
    assert ParseSlash(c, [], ctx, replies, Corrected) == Lifecycle(c.base, path, ctx, replies);
    assert RunBeforeInvoke(c.base, ctx, replies);
    assert Lifecycle(c.base, path, ctx, replies) == Done([BeforeInvoke(path)], true);
  }

  /** Registering two commands under one name keeps only the later one... */
  lemma DuplicateKeepsLater(first: SlashCommand, second: SlashCommand)
    requires CommandName(first) == CommandName(second)
    ensures Get(NewCommandListener([first, second]).commandMap, CommandName(first)) == Some(second)
  {
    assert LastWith(RootKeyed([first, second]), CommandName(first)) == Some(second);
  }

  /** ...so the table holds a single entry, the later command under the shared name... */
  lemma DuplicateSingleEntry(first: SlashCommand, second: SlashCommand)
    requires CommandName(first) == CommandName(second)
    ensures NewCommandListener([first, second]).commandMap == [(CommandName(first), second)]
  {
    var n := CommandName(first);
    var es := RootKeyed([first, second]);
    assert Keys(es) == [n, n];
    DuplicateKeepsLater(first, second);
    SingleKeyTable(NewCommandListener([first, second]).commandMap, n, second);
  }

  /** ...and the export shows only that one. */
  lemma DuplicateExportsLater(first: SlashCommand, second: SlashCommand)
    requires CommandName(first) == CommandName(second)
    ensures GetCommands(NewCommandListener([first, second])) == [ToJson(second)]
  {
    DuplicateSingleEntry(first, second);
  }
}
