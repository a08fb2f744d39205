/**
 * The message handler of source/handlers/message_handler.py: which messages are
 * moderated, dispatched as commands or answered; how the chat context is built from a
 * channel's history; and how a streamed answer drives the editor of source/core/stream.py.
 * Discord objects are reduced to the fields the handler reads; sending, replying,
 * deleting and task creation become returned values.
 */
module MessageHandler {
  import opened Wrappers
  import opened Text
  import opened ValidChannels
  import EmojiOnlyChannel
  import ChatMemory
  import opened Stream

  /** The author of a Discord message. */
  datatype Author = Author(id: nat, bot: bool, displayName: string)

  /** A Discord message as the handler sees it; history entries may lack content. */
  datatype DiscordMessage = DiscordMessage(content: Option<string>, author: Author, place: Place, mentions: seq<nat>)

  /** The settings the handler reads, after `Settings.__init__` has derived them. */
  datatype HandlerSettings = HandlerSettings(
    emojiOnlyChannels: seq<string>,
    chatChannels: seq<string>,
    mentionRequired: bool,
    maxContextMessages: nat,
    basePrompt: string)

  // ---------------------------------------------------------------------------
  // Stable Diffusion client set-up
  // ---------------------------------------------------------------------------

  datatype SdClient = SdClient(url: string, checkpoint: string, steps: nat)

  /** Python truthiness of an optional string. */
  predicate Truthy(s: Option<string>)
  {
    s.Some? && s.value != ""
  }

  /** `_initialize_stable_diffusion`: no client when disabled, a `ValueError` when a setting is missing. */
  function InitializeStableDiffusion(useStableDiffusion: bool, sdUrl: Option<string>, sdCheckpoint: Option<string>)
    : (r: Result<Option<SdClient>, string>)
    ensures !useStableDiffusion ==> r == Success(None)
    ensures useStableDiffusion ==> (r.Failure? <==> !Truthy(sdUrl) || !Truthy(sdCheckpoint))
    ensures r.Success? && r.value.Some? ==>
      useStableDiffusion && r.value.value == SdClient(sdUrl.value, sdCheckpoint.value, 15)
  {
    if !useStableDiffusion then Success(None)
    else if !Truthy(sdUrl) || !Truthy(sdCheckpoint) then
      Failure("Stable Diffusion is enabled but SD_URL or SD_CHECKPOINT is not set.")
    else Success(Some(SdClient(sdUrl.value, sdCheckpoint.value, 15)))
  }

  // ---------------------------------------------------------------------------
  // Commands
  // ---------------------------------------------------------------------------

  /** The command table of `_initialize_commands`, in dictionary order. */
  const Commands: seq<string> := ["!change_status", "!generate-image", "!ping"]

  /** No message starts with two different commands: their second characters differ. */
  lemma CommandsExclusive(content: string, i: nat, j: nat)
    requires i < |Commands| && j < |Commands|
    requires StartsWith(content, Commands[i]) && StartsWith(content, Commands[j])
    ensures i == j
  {
    assert content[1] == content[..|Commands[i]|][1] == Commands[i][1];
    assert content[1] == content[..|Commands[j]|][1] == Commands[j][1];
  }

  /** `Commands[k]` is the first command of the table that prefixes `content`. */
  predicate FirstCommand(content: string, k: nat)
  {
    k < |Commands| && StartsWith(content, Commands[k])
    && forall j :: 0 <= j < k ==> !StartsWith(content, Commands[j])
  }

  /**
   * `_manage_commands`: the first command of the table that prefixes the content is
   * dispatched (its handler is started as a task) and `True` is returned; `None` stands
   * for `False`. Because at most one command can prefix any message, the dispatched
   * command is exactly the one the message starts with.
   */
  method ManageCommands(content: string) returns (dispatched: Option<string>)
    ensures dispatched.Some? ==> exists k: nat :: FirstCommand(content, k) && dispatched.value == Commands[k]
    ensures dispatched.None? <==> forall k :: 0 <= k < |Commands| ==> !StartsWith(content, Commands[k])
    ensures forall k :: 0 <= k < |Commands| && StartsWith(content, Commands[k]) ==> dispatched == Some(Commands[k])
  {
    var i := 0;
    while i < |Commands|
      invariant 0 <= i <= |Commands|
      invariant forall j :: 0 <= j < i ==> !StartsWith(content, Commands[j])
    {
      if StartsWith(content, Commands[i]) {
        forall k | 0 <= k < |Commands| && StartsWith(content, Commands[k])
          ensures Some(Commands[i]) == Some(Commands[k])
        {
          CommandsExclusive(content, i, k);
        }
        return Some(Commands[i]);
      }
      i := i + 1;
    }
    return None;
  }

  // ---------------------------------------------------------------------------
  // Whether to answer
  // ---------------------------------------------------------------------------

  /**
   * `_should_respond`: never without a bot user or for a bot author; when a mention is
   * required, only if the bot is among the mentioned users.
   */
  function ShouldRespond(botUser: Option<nat>, mentionRequired: bool, message: DiscordMessage): (r: bool)
    ensures botUser.None? || message.author.bot ==> !r
    ensures botUser.Some? && !message.author.bot && !mentionRequired ==> r
    ensures botUser.Some? && !message.author.bot && mentionRequired ==>
      (r <==> exists i :: 0 <= i < |message.mentions| && message.mentions[i] == botUser.value)
  {
    if botUser.None? then false
    else if message.author.bot then false
    else if mentionRequired then botUser.value in message.mentions
    else true
  }

  // ---------------------------------------------------------------------------
  // Chat context
  // ---------------------------------------------------------------------------

  /** The role of a history message: the bot's own messages are the assistant's. */
  function RoleOf(botUser: Option<nat>, m: DiscordMessage): string
  {
    if botUser.Some? && m.author.id == botUser.value then "assistant" else "user"
  }

  /** The chat entry of a history message that has content. */
  function EntryOf(botUser: Option<nat>, m: DiscordMessage): ChatMemory.Message
    requires m.content.Some?
  {
    ChatMemory.Message(RoleOf(botUser, m), m.author.displayName + " said: " + m.content.value)
  }

  /** The first loop's filter: history messages whose content is not `None`. */
  function WithContent(history: seq<DiscordMessage>): (kept: seq<DiscordMessage>)
    ensures |kept| <= |history|
    ensures forall i :: 0 <= i < |kept| ==> kept[i].content.Some?
  {
    if history == [] then []
    else
      var last := history[|history| - 1];
      WithContent(history[..|history| - 1]) + (if last.content.Some? then [last] else [])
  }

  lemma {:induction false} WithContentFrom(history: seq<DiscordMessage>)
    ensures forall m :: m in WithContent(history) ==> m in history
  {
    if history != [] {
      WithContentFrom(history[..|history| - 1]);
    }
  }

  /** `list(reversed(xs))`. */
  function Reversed<T>(xs: seq<T>): (r: seq<T>)
    ensures |r| == |xs|
    ensures forall i :: 0 <= i < |xs| ==> r[i] == xs[|xs| - 1 - i]
  {
    if xs == [] then []
    else [xs[|xs| - 1]] + Reversed(xs[..|xs| - 1])
  }

  /** The second loop: one entry per message whose content is non-empty, in order. */
  function Said(botUser: Option<nat>, msgs: seq<DiscordMessage>): (chat: seq<ChatMemory.Message>)
    ensures |chat| <= |msgs|
  {
    if msgs == [] then []
    else
      var last := msgs[|msgs| - 1];
      Said(botUser, msgs[..|msgs| - 1])
      + (if last.content.Some? && last.content.value != "" then [EntryOf(botUser, last)] else [])
  }

  /** The system message, present when the prompt is non-empty. */
  function SystemPart(prompt: string): seq<ChatMemory.Message>
  {
    if prompt != "" then [ChatMemory.Message("system", prompt)] else []
  }

  /**
   * The context built from `recent`, the newest-first messages the history returned:
   * the system prompt first when there is one, then at most one line per message.
   */
  function Context(prompt: string, botUser: Option<nat>, recent: seq<DiscordMessage>): (context: seq<ChatMemory.Message>)
    ensures |context| <= (if prompt != "" then 1 else 0) + |recent|
    ensures prompt != "" ==> |context| >= 1 && context[0] == ChatMemory.Message("system", prompt)
  {
    SystemPart(prompt) + Said(botUser, Reversed(WithContent(recent)))
  }

  /** `channel.history(limit=...)`: the newest `limit` messages of a newest-first history. */
  function Recent(history: seq<DiscordMessage>, limit: nat): (recent: seq<DiscordMessage>)
    ensures |recent| <= limit && |recent| <= |history| && recent == history[..|recent|]
    ensures |history| >= limit ==> |recent| == limit
  {
    if |history| <= limit then history else history[..limit]
  }

  /** `build_context_from_channel`: both of the source's loops over the fetched history. */
  method BuildContextFromChannel(prompt: string, botUser: Option<nat>, history: seq<DiscordMessage>, limit: nat)
    returns (chat: seq<ChatMemory.Message>)
    ensures chat == Context(prompt, botUser, Recent(history, limit))
  {
    var recent := Recent(history, limit);
    var msgs := KeepWithContent(recent);
    msgs := Reversed(msgs);
    chat := [];
    if prompt != "" {
      chat := chat + [ChatMemory.Message("system", prompt)];
    }
    chat := AppendSaid(chat, botUser, msgs);
  }

  /** The first loop of `build_context_from_channel`: skip messages whose content is `None`. */
  method KeepWithContent(recent: seq<DiscordMessage>) returns (msgs: seq<DiscordMessage>)
    ensures msgs == WithContent(recent)
  {
    msgs := [];
    var i := 0;
    while i < |recent|
      invariant 0 <= i <= |recent|
      invariant msgs == WithContent(recent[..i])
    {
      assert recent[..i + 1][..i] == recent[..i];
      if recent[i].content.Some? {
        msgs := msgs + [recent[i]];
      }
      i := i + 1;
    }
    assert recent[..i] == recent;
  }

  /** The second loop of `build_context_from_channel`: one line per message with non-empty content. */
  method AppendSaid(chat0: seq<ChatMemory.Message>, botUser: Option<nat>, msgs: seq<DiscordMessage>)
    returns (chat: seq<ChatMemory.Message>)
    ensures chat == chat0 + Said(botUser, msgs)
  {
    chat := chat0;
    var j := 0;
    while j < |msgs|
      invariant 0 <= j <= |msgs|
      invariant chat == chat0 + Said(botUser, msgs[..j])
    {
      assert msgs[..j + 1][..j] == msgs[..j];
      var m := msgs[j];
      var role := RoleOf(botUser, m);
      if m.content.Some? && m.content.value != "" {
        chat := chat + [ChatMemory.Message(role, m.author.displayName + " said: " + m.content.value)];
      }
      j := j + 1;
    }
    assert msgs[..j] == msgs;
  }

  /** The context holds at most the system message and one entry per fetched message. */
  lemma ContextLength(prompt: string, botUser: Option<nat>, history: seq<DiscordMessage>, limit: nat)
    ensures |Context(prompt, botUser, Recent(history, limit))| <= |SystemPart(prompt)| + limit
  {
  }

  /** Every entry of `Said` comes from a message with non-empty content, with its role and author. */
  lemma {:induction false} SaidEntries(botUser: Option<nat>, msgs: seq<DiscordMessage>)
    ensures forall e :: e in Said(botUser, msgs) ==>
      exists m :: m in msgs && m.content.Some? && m.content.value != "" && e == EntryOf(botUser, m)
  {
    if msgs != [] {
      SaidEntries(botUser, msgs[..|msgs| - 1]);
      forall e | e in Said(botUser, msgs)
        ensures exists m :: m in msgs && m.content.Some? && m.content.value != "" && e == EntryOf(botUser, m)
      {
        var last := msgs[|msgs| - 1];
        if e in Said(botUser, msgs[..|msgs| - 1]) {
          var m :| m in msgs[..|msgs| - 1] && m.content.Some? && m.content.value != "" && e == EntryOf(botUser, m);
          assert m in msgs;
        } else {
          assert e == EntryOf(botUser, last);
        }
      }
    }
  }

  /** `e` is the line of a message in `recent` whose content is non-empty. */
  ghost predicate LineOf(botUser: Option<nat>, recent: seq<DiscordMessage>, e: ChatMemory.Message)
  {
    exists m :: m in recent && m.content.Some? && m.content.value != "" && e == EntryOf(botUser, m)
  }

  /** A line reads `"<name> said: <content>"`, with role "assistant" exactly when the bot wrote it. */
  lemma EntryShape(botUser: Option<nat>, m: DiscordMessage)
    requires m.content.Some?
    ensures EntryOf(botUser, m).content == m.author.displayName + " said: " + m.content.value
    ensures EntryOf(botUser, m).role == "assistant" <==> botUser.Some? && m.author.id == botUser.value
    ensures EntryOf(botUser, m).role == "assistant" || EntryOf(botUser, m).role == "user"
  {
  }

  lemma ReversedElements<T>(xs: seq<T>)
    ensures forall x :: x in Reversed(xs) ==> x in xs
  {
    forall x | x in Reversed(xs) ensures x in xs {
      var i :| 0 <= i < |xs| && Reversed(xs)[i] == x;
      assert xs[|xs| - 1 - i] == x;
    }
  }

  /**
   * The context starts with a system message exactly when the prompt is non-empty, and
   * every other entry is the line of a fetched message whose content is non-empty.
   */
  lemma ContextShape(prompt: string, botUser: Option<nat>, recent: seq<DiscordMessage>)
    ensures var chat := Context(prompt, botUser, recent);
      (|chat| > 0 && chat[0].role == "system" <==> prompt != "")
      && (prompt != "" ==> chat[0] == ChatMemory.Message("system", prompt))
      && forall k :: |SystemPart(prompt)| <= k < |chat| ==> LineOf(botUser, recent, chat[k])
  {
    var said := Said(botUser, Reversed(WithContent(recent)));
    SaidLines(botUser, recent);
    var chat := Context(prompt, botUser, recent);
    assert forall k :: |SystemPart(prompt)| <= k < |chat| ==> chat[k] == said[k - |SystemPart(prompt)|];
    if prompt == "" && |said| > 0 {
      assert LineOf(botUser, recent, said[0]);
      var m :| m in recent && m.content.Some? && m.content.value != "" && said[0] == EntryOf(botUser, m);
      EntryShape(botUser, m);
    }
  }

  /** Every line after the system message comes from a fetched message. */
  lemma SaidLines(botUser: Option<nat>, recent: seq<DiscordMessage>)
    ensures forall k :: 0 <= k < |Said(botUser, Reversed(WithContent(recent)))| ==>
      LineOf(botUser, recent, Said(botUser, Reversed(WithContent(recent)))[k])
  {
    var rev := Reversed(WithContent(recent));
    var said := Said(botUser, rev);
    SaidEntries(botUser, rev);
    ReversedElements(WithContent(recent));
    WithContentFrom(recent);
    forall k | 0 <= k < |said|
      ensures LineOf(botUser, recent, said[k])
    {
      assert said[k] in said;
      var m :| m in rev && m.content.Some? && m.content.value != "" && said[k] == EntryOf(botUser, m);
      assert m in recent;
    }
  }

  /** When every fetched message has content, the context lists them all, oldest first. */
  lemma {:induction false} SaidAll(botUser: Option<nat>, msgs: seq<DiscordMessage>)
    requires forall i :: 0 <= i < |msgs| ==> msgs[i].content.Some? && msgs[i].content.value != ""
    ensures |Said(botUser, msgs)| == |msgs|
    ensures forall i :: 0 <= i < |msgs| ==> Said(botUser, msgs)[i] == EntryOf(botUser, msgs[i])
  {
    if msgs != [] {
      SaidAll(botUser, msgs[..|msgs| - 1]);
    }
  }

  lemma {:induction false} WithContentAll(history: seq<DiscordMessage>)
    requires forall i :: 0 <= i < |history| ==> history[i].content.Some?
    ensures WithContent(history) == history
  {
    if history != [] {
      WithContentAll(history[..|history| - 1]);
    }
  }

  lemma ContextOldestFirst(prompt: string, botUser: Option<nat>, recent: seq<DiscordMessage>)
    requires forall i :: 0 <= i < |recent| ==> recent[i].content.Some? && recent[i].content.value != ""
    ensures var chat := Context(prompt, botUser, recent);
      |chat| == |SystemPart(prompt)| + |recent|
      && forall i :: 0 <= i < |recent| ==> chat[|chat| - 1 - i] == EntryOf(botUser, recent[i])
  {
    WithContentAll(recent);
    SaidAll(botUser, Reversed(recent));
  }

  // ---------------------------------------------------------------------------
  // Handling a message
  // ---------------------------------------------------------------------------

  /** What `handle_message` does with a message. */
  datatype Action =
    | Moderate(delete: bool)
    | Ignore
    | RunCommand(command: string)
    | Answer(context: seq<ChatMemory.Message>)

  /**
   * `handle_message`: in order, an emoji-only channel is moderated; a message outside
   * the chat channels is ignored; a command is dispatched; a message the bot should not
   * answer is ignored; otherwise the context is built and the answer is streamed.
   */
  method HandleMessage(settings: HandlerSettings, botUser: Option<nat>, search: (string, string) -> bool,
                       message: DiscordMessage, content: string, history: seq<DiscordMessage>)
    returns (action: Action)
    requires message.content == Some(content)
    ensures action.Moderate? <==> ValidChannel(message.place, settings.emojiOnlyChannels, search)
    ensures ValidChannel(message.place, settings.emojiOnlyChannels, search) ==>
      action == Moderate(EmojiOnlyChannel.ShouldDelete(content))
    ensures (!ValidChannel(message.place, settings.emojiOnlyChannels, search)
      && !ValidChannel(message.place, settings.chatChannels, search)) ==> action == Ignore
    ensures action.RunCommand? <==>
      !ValidChannel(message.place, settings.emojiOnlyChannels, search)
      && ValidChannel(message.place, settings.chatChannels, search)
      && exists k :: 0 <= k < |Commands| && StartsWith(content, Commands[k])
    ensures action.RunCommand? ==> StartsWith(content, action.command) && action.command in Commands
    ensures action.Answer? <==>
      !ValidChannel(message.place, settings.emojiOnlyChannels, search)
      && ValidChannel(message.place, settings.chatChannels, search)
      && (forall k :: 0 <= k < |Commands| ==> !StartsWith(content, Commands[k]))
      && ShouldRespond(botUser, settings.mentionRequired, message)
    ensures action.Answer? ==>
      action.context == Context(settings.basePrompt, botUser, Recent(history, settings.maxContextMessages))
  {
    var emoji := IsValidChannel(message.place, settings.emojiOnlyChannels, search);
    if emoji {
      return Moderate(EmojiOnlyChannel.ShouldDelete(content));
    }
    var chatChannel := IsValidChannel(message.place, settings.chatChannels, search);
    if !chatChannel {
      return Ignore;
    }
    var command := ManageCommands(content);
    if command.Some? {
      return RunCommand(command.value);
    }
    if !ShouldRespond(botUser, settings.mentionRequired, message) {
      return Ignore;
    }
    var context := BuildContextFromChannel(settings.basePrompt, botUser, history, settings.maxContextMessages);
    return Answer(context);
  }

  // ---------------------------------------------------------------------------
  // Streaming the answer
  // ---------------------------------------------------------------------------

  const ErrorText := "An error occurred while processing your message, please contact support."

  /** Only edits of the reply. */
  predicate EditsOnly(effects: seq<Effect>)
  {
    forall j :: 0 <= j < |effects| ==> effects[j].Edit?
  }

  /** Appending edits to a reply followed by edits keeps that shape. */
  lemma EditsAppend(effects: seq<Effect>, step: seq<Effect>)
    requires |effects| >= 1 && EditsOnly(effects[1..]) && EditsOnly(step)
    ensures |effects + step| >= 1 && (effects + step)[0] == effects[0] && EditsOnly((effects + step)[1..])
  {
    assert (effects + step)[1..] == effects[1..] + step;
  }

  /**
   * One call of `on_stream_chunk` as `_run_stream` sees it: it raises exactly when the
   * placeholder reply cannot be made or, unforced, when `edit_every_n_chunks` is 0; it
   * otherwise produces the placeholder (first call only) and then edits, the last of
   * which shows the whole buffer when forced.
   */
  method Feed(editor: StreamEditor, chunk: string, force: bool, now: int, replyOk: bool)
    returns (step: seq<Effect>, raised: bool)
    requires editor.Valid()
    modifies editor, editor.throttle
    ensures editor.Valid()
    ensures editor.iteration == old(editor.iteration) + 1 && editor.buffer == old(editor.buffer) + chunk
    ensures editor.hasReply == (old(editor.hasReply) || replyOk)
    ensures raised <==> !editor.hasReply || (!force && editor.every == 0)
    ensures raised ==> step == if old(editor.hasReply) then [] else [Reply(Placeholder)]
    ensures old(editor.hasReply) ==> EditsOnly(step)
    ensures !old(editor.hasReply) ==> |step| >= 1 && step[0] == Reply(Placeholder) && EditsOnly(step[1..])
    ensures force && !raised ==> |step| >= 1 && step[|step| - 1] == Edit(SanitizeVisible(editor.buffer))
  {
    var outcome;
    step, outcome := editor.OnStreamChunk(chunk, force, now, replyOk);
    raised := outcome != Done;
  }

  /**
   * `_run_stream`: every chunk goes to a fresh editor unforced, then an empty forced
   * chunk; an exception (the placeholder reply failing, `edit_every_n_chunks == 0`, or
   * the provider raising) ends the stream with an apology sent to the channel. The
   * provider yields `chunks` and then finishes, or raises when `providerRaises` (with
   * no chunks, when `stream_chat` itself raises); `clock[i]` is the time of the i-th
   * chunk; `replyOk` says whether creating the placeholder reply succeeds.
   */
  method RunStream(editor: StreamEditor, chunks: seq<string>, clock: seq<int>, replyOk: bool, providerRaises: bool)
    returns (effects: seq<Effect>, failed: bool)
    requires editor.Valid() && editor.iteration == 0 && editor.buffer == "" && !editor.hasReply
    requires |clock| == |chunks|
    modifies editor, editor.throttle
    ensures editor.Valid()
    ensures failed <==> providerRaises || !replyOk || (editor.every == 0 && |chunks| > 0)
    ensures (!replyOk || (editor.every == 0 && |chunks| > 0)) && (|chunks| > 0 || !providerRaises) ==>
      effects == [Reply(Placeholder), Send(ErrorText)]
    ensures providerRaises && chunks == [] ==> effects == [Send(ErrorText)]
    ensures providerRaises && |chunks| > 0 && replyOk && editor.every != 0 ==>
      (editor.buffer == Concat(chunks) && |effects| >= 2 && effects[0] == Reply(Placeholder)
      && effects[|effects| - 1] == Send(ErrorText) && EditsOnly(effects[1..|effects| - 1]))
    ensures !failed ==> editor.buffer == Concat(chunks) && editor.iteration == |chunks| + 1
    ensures !failed ==> (|effects| >= 2 && effects[0] == Reply(Placeholder)
      && effects[|effects| - 1] == Edit(SanitizeVisible(Concat(chunks)))
      && EditsOnly(effects[1..]))
  {
    var raised;
    effects, raised := FeedChunks(editor, chunks, clock, replyOk);
    if raised {
      return effects + [Send(ErrorText)], true;
    }
    if providerRaises {
      if chunks != [] {
        assert (effects + [Send(ErrorText)])[1..|effects|] == effects[1..];
      }
      return effects + [Send(ErrorText)], true;
    }
    var step;
    step, raised := Feed(editor, "", true, 0, replyOk);
    if raised {
      return step + [Send(ErrorText)], true;
    }
    if chunks == [] {
      effects := step;
    } else {
      EditsAppend(effects, step);
      effects := effects + step;
    }
    failed := false;
  }

  /**
   * The loop of `_run_stream` over the chunks the provider yields, unforced, until one
   * raises; whether the provider itself raises afterwards is `RunStream`'s concern.
   */
  method FeedChunks(editor: StreamEditor, chunks: seq<string>, clock: seq<int>, replyOk: bool)
    returns (effects: seq<Effect>, raised: bool)
    requires editor.Valid() && editor.iteration == 0 && editor.buffer == "" && !editor.hasReply
    requires |clock| == |chunks|
    modifies editor, editor.throttle
    ensures editor.Valid()
    ensures raised <==> |chunks| > 0 && (!replyOk || editor.every == 0)
    ensures raised ==> effects == [Reply(Placeholder)]
    ensures !raised ==> (editor.buffer == Concat(chunks) && editor.iteration == |chunks|
      && editor.hasReply == (|chunks| > 0))
    ensures !raised && chunks == [] ==> effects == []
    ensures !raised && chunks != [] ==> |effects| >= 1 && effects[0] == Reply(Placeholder) && EditsOnly(effects[1..])
  {
    effects := [];
    var i := 0;
    while i < |chunks|
      invariant 0 <= i <= |chunks|
      invariant editor.Valid()
      invariant editor.buffer == Concat(chunks[..i]) && editor.iteration == i
      invariant editor.hasReply == (i > 0)
      invariant i > 0 ==> replyOk && editor.every != 0
      invariant i == 0 ==> effects == []
      invariant i > 0 ==> |effects| >= 1 && effects[0] == Reply(Placeholder) && EditsOnly(effects[1..])
    {
      var step, stepRaised := Feed(editor, chunks[i], false, clock[i], replyOk);
      if stepRaised {
        return step, true;
      }
      assert chunks[..i + 1][..i] == chunks[..i];
      if i == 0 {
        effects := step;
      } else {
        EditsAppend(effects, step);
        effects := effects + step;
      }
      i := i + 1;
    }
    assert chunks[..i] == chunks;
    raised := false;
  }
}
