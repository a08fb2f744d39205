# discord-bot-LLama, modelled in Dafny

This project models the core of a Discord chat bot that answers messages with a
large language model. The repository holds three generations of the bot, and
all three are modelled:

- **The `source/` bot** (the current one). Its message handler filters messages
  by channel patterns, moderates emoji-only channels and dispatches `!` commands.
  It builds a chat context from the channel history and streams the model's
  answer into a "Thinking..." reply. That reply is edited at most every
  `edit_every_n_chunks` chunks and no more often than a throttle allows. Its
  settings come from the environment. Its older LLM layer keeps a per-channel
  `{role, content}` memory, a multi-channel store pickled to one file, and a
  busy lock.
- **The `llms_models/` + `memory/` + `memory_models/` bot.** This generation has
  a string-history memory rendered as `"> "` lines into a prompt template, a
  retry-until-non-blank generation loop, and a clean-up pipeline.
- **The first bot, `classes/llama_model.py`.** It keeps its own conversation list.

Each modelled source file is one module:

- Classes whose fields the source updates in place are Dafny classes: the
  memories, the stores, the throttle, the lock, the stream editor, the Llama
  model and `Settings`.
- Pure helpers are functions, proved against specifications.
- Loops are methods with invariants: channel matching, command dispatch, context
  building, the generation retry loop, the stream loop and the `kwargs` loop.
- The shared modules are:
  - `Text`: Python's `split`, `join`, `replace`, `strip`, `lower` and `in`,
    with their round-trip lemmas.
  - `History`: the guarded history slice and the `"> "` rendering.
  - `Snapshot`: the pickle file, seen abstractly.
  - `Wrappers`: Option and Result.

Outside inputs are parameters:

- The LLM backend, the translator and `re.search` with a configured pattern are
  functions passed in.
- Time is an integer number of milliseconds passed in.
- The file system is a map from path to content.
- The Discord API calls are `Effect` values that the stream editor emits.

## Model

| member | source | states |
|---|---|---|
| ChatMemory.MemoryModel.constructor | source/memory_models/memory_model.py:11-15 | a new memory has the given size, an empty conversation and an empty last response |
| ChatMemory.MemoryModel.Restore | source/memory_models/multichannel_memory.py:49 | an unpickled memory carries exactly the pickled size, conversation and last response |
| ChatMemory.MemoryModel.HistorialConversation | source/memory_models/memory_model.py:17-27 | the window is a suffix of the conversation, in order; it holds min(length, size) messages for a positive size and the whole list for size 0 |
| ChatMemory.MemoryModel.SetLastResponse | source/memory_models/memory_model.py:29-33 | sets the last response; conversation and size are unchanged |
| ChatMemory.MemoryModel.GetLastResponse | source/memory_models/memory_model.py:35-39 | returns the stored last response |
| ChatMemory.MemoryModel.ClearConversation | source/memory_models/memory_model.py:41-45 | empties the conversation and keeps the last response |
| ChatMemory.MemoryModel.AppendConversation | source/memory_models/memory_model.py:47-56 | appends exactly one `{role, content}` message (role defaults to "user"); nothing is dropped |
| ChatMemory.MemoryModel.GetConversationLength | source/memory_models/memory_model.py:58-62 | the number of messages since the last clear, not capped by the memory size |
| TextMemory.MemoryModel.constructor | memory_models/memory_model.py:11-15 | a new memory has the given size and is empty |
| TextMemory.MemoryModel.HistorialConversation | memory_models/memory_model.py:17-28 | the newest min(length, size) entries rendered as `"> "` lines joined by newlines; the whole list for size 0; "" when empty |
| TextMemory.MemoryModel.SetLastResponse | memory_models/memory_model.py:30-34 | sets the last response; nothing else changes |
| TextMemory.MemoryModel.GetLastResponse | memory_models/memory_model.py:36-40 | returns the stored last response |
| TextMemory.MemoryModel.ClearConversation | memory_models/memory_model.py:42-46 | empties the conversation and keeps the last response |
| TextMemory.MemoryModel.AppendConversation | memory_models/memory_model.py:48-52 | appends one string |
| TextMemory.MemoryModel.GetConversationLength | memory_models/memory_model.py:54-58 | the number of stored entries |
| LegacyMemory.MemoryModel.constructor | memory/memory_model.py:2-6 | a new memory has the given size and is empty |
| LegacyMemory.MemoryModel.Restore | memory/multichannel_memory.py:35 | an unpickled memory carries exactly the pickled state |
| LegacyMemory.MemoryModel.HistorialConversation | memory/memory_model.py:8-16 | the newest min(length, size) entries rendered as `"> "` lines; the whole list for size 0; "" when empty |
| LegacyMemory.MemoryModel.SetLastResponse | memory/memory_model.py:18-19 | sets the last response; nothing else changes |
| LegacyMemory.MemoryModel.GetLastResponse | memory/memory_model.py:21-22 | returns the stored last response |
| LegacyMemory.MemoryModel.ClearConversation | memory/memory_model.py:24-25 | empties the conversation and keeps the last response |
| LegacyMemory.MemoryModel.AppendConversation | memory/memory_model.py:27-28 | appends one string |
| History.SliceStart | memory/memory_model.py:13 | Python's normalisation of a negative slice start stays within the list |
| History.Window | memory/memory_model.py:9-13 | `xs if len(xs) < size else xs[-size:]` is a suffix of xs; its length is min(len, size) for a positive size; it is all of xs for size 0; a negative size drops from the front |
| History.Quoted | memory/memory_model.py:15 | one `"> " + entry` per entry, same order |
| History.Render | memory/memory_model.py:15 | the rendered history is empty iff there is no entry; otherwise it opens with `"> "` and the first entry |
| History.RenderLines | memory/memory_model.py:15 | when no entry holds a newline, splitting the rendered history at newlines gives back the quoted entries |
| History.RenderEmpty | memory/memory_model.py:15 | an empty history renders as "" |
| Snapshot.Disk.constructor | source/memory_models/multichannel_memory.py:44 | the disk holds the given files |
| Snapshot.Hydrated | source/memory_models/multichannel_memory.py:21-22 | a store constructed on a path starts from the pickled mapping; it starts empty without a path, without a file, or with a file that does not unpickle |
| ChannelStore.Unpickle | source/memory_models/multichannel_memory.py:49 | one fresh memory object per pickled channel, with that channel's state; no two channels share one |
| ChannelStore.MultiChannelMemory.Contents | source/memory_models/multichannel_memory.py:17 | the mapping's value has exactly the store's channels |
| ChannelStore.MultiChannelMemory.constructor | source/memory_models/multichannel_memory.py:16-22 | the mapping starts as the snapshot when a path is given, otherwise empty |
| ChannelStore.MultiChannelMemory.PersistMemory | source/memory_models/multichannel_memory.py:24-34 | without a path no file changes; with one, the path holds the whole mapping and no other file changes |
| ChannelStore.MultiChannelMemory.LoadMemory | source/memory_models/multichannel_memory.py:36-55 | returns true exactly when the file unpickles; without a path or a file the mapping is kept; a corrupt file resets it to empty |
| ChannelStore.MultiChannelMemory.GetMemory | source/memory_models/multichannel_memory.py:57-63 | returns the existing object, shared with the store; otherwise inserts a fresh empty memory of the store's size; no other channel changes |
| ChannelStore.MultiChannelMemory.ClearChannelMemory | source/memory_models/multichannel_memory.py:65-70 | removes exactly that channel; an unknown channel is a no-op |
| ChannelStore.MultiChannelMemory.ClearAllMemory | source/memory_models/multichannel_memory.py:72-81 | empties the mapping and removes the snapshot file; a missing file is ignored |
| ChannelStore.PersistThenReload | source/memory_models/multichannel_memory.py:24-55 | persisting then constructing a store on the same path reproduces every channel's state |
| LegacyChannelStore.Unpickle | memory/multichannel_memory.py:35 | one fresh memory object per pickled channel, with that channel's state |
| LegacyChannelStore.MultiChannelMemory.Contents | memory/multichannel_memory.py:9 | the mapping's value has exactly the store's channels |
| LegacyChannelStore.MultiChannelMemory.constructor | memory/multichannel_memory.py:8-14 | the mapping starts as the snapshot when a path is given, otherwise empty |
| LegacyChannelStore.MultiChannelMemory.PersistMemory | memory/multichannel_memory.py:16-23 | without a path nothing is written; otherwise the path holds the whole mapping |
| LegacyChannelStore.MultiChannelMemory.LoadMemory | memory/multichannel_memory.py:25-41 | true exactly when the file unpickles; a missing path or file keeps the mapping; a corrupt file empties it |
| LegacyChannelStore.MultiChannelMemory.GetMemory | memory/multichannel_memory.py:43-46 | the existing object, or a fresh empty one inserted first; no other channel changes |
| LegacyChannelStore.MultiChannelMemory.ClearChannelMemory | memory/multichannel_memory.py:48-50 | removes exactly that channel |
| LegacyChannelStore.MultiChannelMemory.ClearAllMemory | memory/multichannel_memory.py:52-55 | empties the mapping and removes the file; a missing file makes the uncaught FileNotFoundError escape after the mapping is emptied |
| LegacyChannelStore.PersistThenLoad | memory/multichannel_memory.py:16-41 | persisting then loading succeeds and gives back the same mapping |
| RateLimit.Throttle.constructor | source/core/rate_limit.py:17-20 | the timestamp starts at 0 with the given interval |
| RateLimit.Throttle.Ready | source/core/rate_limit.py:22-32 | grants iff now − last ≥ interval; only a grant moves the timestamp, to now |
| RateLimit.FirstCall | source/core/rate_limit.py:19 | the first call is measured against 0 |
| RateLimit.LastAfterGrant | source/core/rate_limit.py:29-31 | right after a grant the timestamp is that call's time |
| RateLimit.LastStaysAtLeast | source/core/rate_limit.py:29-32 | with a non-decreasing clock the timestamp never falls below a granted time |
| RateLimit.GrantsSpaced | source/core/rate_limit.py:22-32 | with a non-decreasing clock any two grants are at least the interval apart |
| RateLimit.LastAtMost | source/core/rate_limit.py:28-30 | the timestamp never exceeds a bound on the times asked |
| RateLimit.ZeroIntervalAlwaysGrants | source/core/rate_limit.py:29 | with interval 0 and a non-negative non-decreasing clock, every call grants |
| BusyLock.WaitedUntil | source/utils/lock.py:22-26 | the waiter's final counter: unchanged once at the timeout, otherwise the first step at or past it |
| BusyLock.Lock.constructor | source/utils/lock.py:14-16 | the flag is the initial value and the counter is 0 |
| BusyLock.Lock.WaitLock | source/utils/lock.py:18-26 | never changes the flag; ends with the flag down or the counter at the timeout; the counter advances in whole steps only while the flag is up |
| BusyLock.Lock.Unlock | source/utils/lock.py:28-34 | flag down, counter reset |
| BusyLock.Lock.Lock | source/utils/lock.py:36-42 | flag up, counter reset |
| BusyLock.TimedOutLetsThrough | source/utils/lock.py:22-26 | after one timed-out wait the next waiter passes at once: the counter is never reset by waiting |
| Stream.SanitizeVisible | source/core/stream.py:35-39 | the visible text is the suffix after the last `</think>` and holds no `</think>`; it is "" while a `<think>` is open and unclosed; it is the whole output without tags |
| Stream.StreamEditor.constructor | source/core/stream.py:19-33 | counter 0, empty buffer, no reply, a fresh throttle with the given interval |
| Stream.StreamEditor.OnStreamChunk | source/core/stream.py:41-58 | counts and appends the chunk; creates the placeholder reply once; edits with the visible buffer when forced, or on a multiple of `every` that the throttle grants; asks the throttle only then; `every == 0` raises ZeroDivisionError |
| LlmModel.Init | source/llms_models/llm_model.py:31-66 | both prompt sources given is the ValueError; a prompt path is read; a literal prompt wins; with neither there is no prompt |
| LlmModel.GenerateBarePrompt | source/llms_models/llm_model.py:81-91 | exactly a system entry with the prompt, then a user entry with the input |
| LlmModel.Entries | source/llms_models/llm_model.py:94 | one entry per memory message, same role and content, in order |
| LlmModel.GeneratePrompt | source/llms_models/llm_model.py:93-103 | the memory's window unchanged and in order, with one system entry in front exactly when there is a prompt |
| LlmModel.GenerateOutput | source/llms_models/llm_model.py:105-117 | the reply's content, or "" when the backend raised |
| LlmModel.SplitUserInput | source/llms_models/llm_model.py:119-123 | without `": "` no user and the text unchanged; otherwise user + ": " + text is the input and the user holds no `": "` |
| LlmModel.TranslateInput | source/llms_models/llm_model.py:125-138 | without a translator the input is returned unchanged; with one, the stripped input is split into user and text, only the text is translated, and a non-empty user is put back in front with `": "` |
| LlmModel.TranslateOutput | source/llms_models/llm_model.py:140-147 | the translation when a translator gives a non-empty one, otherwise the output; "" only from "" |
| LlmModel.TranslateInputIdentity | source/llms_models/llm_model.py:125-138 | with an identity translator, translating the input is exactly stripping it, unless the stripped input starts with `": "`, whose empty user is dropped |
| LlmModel.TranslateInputKeepsUser | source/llms_models/llm_model.py:131-132 | a non-empty user prefix is put back in front of the translated text |
| GeneralLlm.GetPrompt | source/llms_models/general_llm_model.py:34-46 | with memory, the translated input is appended as one user message and the prompt is built from the memory; without it, the bare prompt |
| GeneralLlm.ClearConversationIfNeeded | source/llms_models/general_llm_model.py:103-106 | empties the conversation exactly when the output equals the last response, the input or "" |
| GeneralLlm.CleanOutput | source/llms_models/general_llm_model.py:108-115 | the cleaned output is stripped and holds only characters of the raw output |
| GeneralLlm.CleanOutputFixpoint | source/llms_models/general_llm_model.py:108-115 | a stripped output without markers is left unchanged |
| GeneralLlm.MarkerAbsentAfter | source/llms_models/general_llm_model.py:110-113 | a marker removed by an earlier pass cannot start inside a later marker and run on into a marker-free text |
| GeneralLlm.PassesDropMarker | source/llms_models/general_llm_model.py:110-113 | the four replace passes turn a marker followed by a marker-free text into that text |
| GeneralLlm.CleanOutputDropsMarker | source/llms_models/general_llm_model.py:108-115 | an output that opens with any one of the four markers, and holds none after it, cleans to the rest stripped |
| GeneralLlm.RebuildingFirstPass | source/llms_models/general_llm_model.py:110 | the `"Response:"` pass leaves "Respo" + "response:" + "nse:" unchanged |
| GeneralLlm.RebuildingSecondPass | source/llms_models/general_llm_model.py:110-111 | the `"response:"` pass turns that text into "Response:" |
| GeneralLlm.RebuildingLastPasses | source/llms_models/general_llm_model.py:112-115 | "Response:" passes the last two replacements and the strip unchanged |
| GeneralLlm.MarkerRebuilt | source/llms_models/general_llm_model.py:108-115 | the cleaned output of "Respo" + "response:" + "nse:" is the marker "Response:" |
| GeneralLlm.ProcessOutput | source/llms_models/general_llm_model.py:108-119 | returns the cleaned output and records it as the last response |
| GeneralLlm.PostProcess | source/llms_models/general_llm_model.py:48-60 | with memory: the reset check, then the clean-up, then one `"Response: "` assistant message; the result is translated in both cases |
| GeneralLlm.EvaluateSync | source/llms_models/general_llm_model.py:93-101 | the prompt is built from the memory plus the input; afterwards the memory holds either the old conversation, the input and the answer, or after a self-heal only the answer |
| GeneralLlm.EvaluateStream | source/llms_models/general_llm_model.py:62-91 | one callback per chunk with the text so far and its 1-based count, then a forced one with the raw text, then a forced one with the result; the memory ends as in the synchronous turn |
| GeneralLlm.StreamChunks | source/llms_models/general_llm_model.py:76-82 | the accumulated output is the concatenation of the chunks, with one callback per prefix |
| LegacyLlmModel.Init | llms_models/llm_model.py:7-30 | both prompt sources given is the ValueError; a file or a literal is taken; with neither the template is `"{input}"` |
| LegacyLlmModel.GeneratePrompt | llms_models/llm_model.py:40-43 | the template is cut at every `{input}` into pieces without one that join back to it, and the memory's rendered history goes between them |
| LegacyLlmModel.DefaultPromptIsHistory | llms_models/llm_model.py:29-30 | with the default template the prompt is exactly the rendered history |
| LegacyLlmModel.FixedPromptIgnoresHistory | llms_models/llm_model.py:40-43 | a template without `{input}` ignores the memory |
| LegacyLlmModel.NonBlankIsStripNonEmpty | llms_models/llm_model.py:69 | an answer counts iff `len(output.strip()) > 0` |
| LegacyLlmModel.GenerateOutput | llms_models/llm_model.py:66-72 | returns the first non-blank answer, after rejecting every blank one before it; None when all are blank |
| LegacyGeneralLlm.FirstBreak | llms_models/general_llm_model.py:47 | the index of the first newline or `#` |
| LegacyGeneralLlm.FirstSegment | llms_models/general_llm_model.py:47 | `re.split(r"\n+\|#", s)[0]`: the prefix before the first newline or `#` |
| LegacyGeneralLlm.AfterColon | llms_models/general_llm_model.py:49 | the text after the first colon, or all of it when there is none |
| LegacyGeneralLlm.Unescaped | llms_models/general_llm_model.py:46-49 | the text is stripped; every character left comes from the first line of the output and is not `>` |
| LegacyGeneralLlm.TailChars | llms_models/general_llm_model.py:48-49 | dropping `>` and the text up to the first colon, then stripping, keeps only characters of the input other than `>` |
| LegacyGeneralLlm.ProcessedText | llms_models/general_llm_model.py:45-50 | escaping adds no character but backslashes and asterisks to the unescaped text |
| LegacyGeneralLlm.EscapeChars | llms_models/general_llm_model.py:50 | escaping asterisks adds only backslashes and asterisks |
| LegacyGeneralLlm.ProcessedOneLine | llms_models/general_llm_model.py:45-54 | the cleaned output holds no newline, `#` or `>` |
| LegacyGeneralLlm.ProcessedChar | llms_models/general_llm_model.py:45-54 | each character of the cleaned output is neither a newline nor `#` nor `>` |
| LegacyGeneralLlm.PiecesWithoutChar | llms_models/general_llm_model.py:50 | no piece of a split at `*` holds `*` |
| LegacyGeneralLlm.EscapeRoundTrip | llms_models/general_llm_model.py:50 | un-escaping `\*` gives back the text before escaping |
| LegacyGeneralLlm.ProcessOutput | llms_models/general_llm_model.py:45-54 | the cleaned output, recorded as the last response |
| LegacyGeneralLlm.ClearConversationIfNeeded | llms_models/general_llm_model.py:41-43 | empties the conversation exactly when the output is the last response, the input or "" |
| LegacyGeneralLlm.EvaluateSync | llms_models/general_llm_model.py:23-39 | the prompt is the template with the rendered history including the input; the answer is the backend's first non-blank one; the memory ends with the input (unless self-healed) and `"Response: "` + the cleaned answer |
| Llama.FirstLine | classes/llama_model.py:67 | the first line is the prefix of the text that holds no newline and ends at the first newline, or is the whole text |
| Llama.LlamaModel.constructor | classes/llama_model.py:7-26 | empty conversation and last response; the given size, translation flag and template text |
| Llama.LlamaModel.GeneratePrompt | classes/llama_model.py:28-41 | the template is cut at every `{input}` into pieces without one that join back to it, and the rendered window goes between them; a template without `{input}` is returned as is; the bare placeholder gives the rendered window |
| Llama.LlamaModel.Shown | classes/llama_model.py:65-67 | what the caller gets is the stripped (translated) answer up to its first newline, and holds no newline |
| Llama.LlamaModel.RecordAnswer | classes/llama_model.py:59-63 | appends `"Me: "` + answer, clears everything when the answer repeats the last response or the input, and stores the answer |
| Llama.LlamaModel.EvaluateSync | classes/llama_model.py:47-67 | the backend sees the template filled with the window including the new input; the conversation is cleared or grows by the input and the answer; the caller gets the first line |
| Config.FallbacksDeclare | source/core/config.py:20-34 | the literal defaults give every attribute a value of its annotated type |
| Config.Overridden | source/core/config.py:40-42 | overriding keeps exactly the declared attributes |
| Config.UnknownKeysIgnored | source/core/config.py:41 | a keyword argument that names no attribute makes no difference |
| Config.KnownKeyOverrides | source/core/config.py:41-42 | a keyword argument for an attribute sets it; the others keep their value |
| Config.OverriddenDeclares | source/core/config.py:40-42 | well-typed arguments keep the attributes well typed |
| Config.ChannelList | source/core/config.py:45-50 | the list is empty iff the setting is "" |
| Config.ChannelListRoundTrip | source/core/config.py:45-47 | joining the list with commas gives the setting back |
| Config.ChannelListOfJoin | source/core/config.py:45-47 | comma-free patterns written as a setting are read back unchanged |
| Config.ChannelListCommaFree | source/core/config.py:45-50 | no pattern holds a comma |
| Config.DefaultPromptAsWrittenGluesWords | source/core/config.py:57-60 | the fallback prompt as written reads "answerthe" where "answer the" belongs |
| Config.DefaultPromptSeparatesWords | source/core/config.py:57-60 | the corrected fallback prompt reads "answer the" |
| Config.BasePrompt | source/core/config.py:53-60 | the file's text when the path exists, else the fallback prompt as written, with "answerthe" |
| Config.MissingPromptFileGlues | source/core/config.py:53-60 | without the prompt file, the base prompt reads "answerthe" at offset 36 |
| Config.UseStableDiffusion | source/core/config.py:63 | enabled iff the SD URL is set and non-empty |
| Config.ApplyKwargs | source/core/config.py:40-42 | the loop's result is the overridden attributes |
| Config.Settings.constructor | source/core/config.py:36-63 | attributes overridden by the arguments; channel lists, base prompt (the as-written fallback when the file is missing) and SD flag derived from them |
| ValidChannels.NatToString | source/utils/valid_channels.py:15 | the printed id is a non-empty string of decimal digits without a leading zero whose value is the id |
| ValidChannels.NatToStringInjective | source/utils/valid_channels.py:15 | different ids print as different strings |
| ValidChannels.ChannelKeySplits | source/utils/valid_channels.py:15 | the `"guild:channel"` key splits at the colon into exactly the two ids |
| ValidChannels.IsValidChannel | source/utils/valid_channels.py:8-20 | true iff the message has a guild and a channel and some pattern is found in its key |
| EmojiOnlyChannel.NonSpaceRun | source/addons/emoji_only_channel.py:15 | the length of the leading non-whitespace run |
| EmojiOnlyChannel.LastClose | source/addons/emoji_only_channel.py:15 | the index of the last `>`, or none |
| EmojiOnlyChannel.TokenLength | source/addons/emoji_only_channel.py:15-16 | the match of `<[^\s]+>` at the start, and it is the longest one; 0 when none |
| EmojiOnlyChannel.MatchWithinRun | source/addons/emoji_only_channel.py:15 | a match ends inside the non-whitespace run after its `<` |
| EmojiOnlyChannel.RemoveTokens | source/addons/emoji_only_channel.py:16 | removing tokens never lengthens the text |
| EmojiOnlyChannel.HasClassChar | source/addons/emoji_only_channel.py:18-19 | the search succeeds iff some character is in the class |
| EmojiOnlyChannel.ShouldDelete | source/addons/emoji_only_channel.py:8-20 | deleted iff some character of the lower-cased, token-free text is in the class |
| EmojiOnlyChannel.NoTokenUnchanged | source/addons/emoji_only_channel.py:16 | without a `<` nothing is removed |
| EmojiOnlyChannel.GroupRemoved | source/addons/emoji_only_channel.py:15-16 | a whole whitespace-delimited token group goes in one match |
| EmojiOnlyChannel.EmojiOnlyResidue | source/addons/emoji_only_channel.py:16 | an emoji-only message leaves only whitespace |
| EmojiOnlyChannel.LowerEmojiOnly | source/addons/emoji_only_channel.py:13 | lower-casing keeps a message emoji-only |
| EmojiOnlyChannel.LowerSuffix | source/addons/emoji_only_channel.py:13 | lower-casing commutes with dropping a prefix |
| EmojiOnlyChannel.LowerGroup | source/addons/emoji_only_channel.py:13-15 | lower-casing keeps a token group a group |
| EmojiOnlyChannel.EmojiOnlyKept | source/addons/emoji_only_channel.py:8-20 | a message of custom emojis and whitespace is never deleted |
| EmojiOnlyChannel.LetterDeleted | source/addons/emoji_only_channel.py:8-20 | a token-free message with a letter or digit of either case is deleted |
| EmojiOnlyChannel.CaseInsensitive | source/addons/emoji_only_channel.py:13 | the decision does not depend on letter case |
| GatedEmojiChannel.ManageEmojisChannel | source/extra/emoji_only_channel.py:8-22 | outside the configured channels nothing is deleted; inside, the decision is ShouldDelete's |
| MessageHandler.InitializeStableDiffusion | source/handlers/message_handler.py:46-57 | disabled gives no client; enabled without a URL or checkpoint is the ValueError; otherwise a client with both and 15 steps |
| MessageHandler.CommandsExclusive | source/handlers/message_handler.py:64-68 | no message starts with two different commands |
| MessageHandler.ManageCommands | source/handlers/message_handler.py:70-83 | dispatches the command the message starts with; none iff it starts with none |
| MessageHandler.ShouldRespond | source/handlers/message_handler.py:99-106 | no bot user or a bot author: no; otherwise yes unless a mention is required, then iff the bot is mentioned |
| MessageHandler.WithContent | source/handlers/message_handler.py:114-119 | only messages with content are kept, never more than there were |
| MessageHandler.WithContentFrom | source/handlers/message_handler.py:114-119 | every kept message comes from the history |
| MessageHandler.Reversed | source/handlers/message_handler.py:120 | the list reversed, element by element |
| MessageHandler.Said | source/handlers/message_handler.py:126-136 | at most one line per message |
| MessageHandler.Recent | source/handlers/message_handler.py:114-116 | the newest `limit` messages of the history, or all of them |
| MessageHandler.BuildContextFromChannel | source/handlers/message_handler.py:108-137 | the loop builds exactly the context of the newest `limit` messages |
| MessageHandler.KeepWithContent | source/handlers/message_handler.py:117-119 | the loop keeps exactly the messages with content |
| MessageHandler.AppendSaid | source/handlers/message_handler.py:126-136 | the loop appends exactly the said lines |
| MessageHandler.Context | source/handlers/message_handler.py:122-137 | the system prompt comes first when there is one, then at most one line per recent message |
| MessageHandler.ContextLength | source/handlers/message_handler.py:114-137 | the context has at most the system entry plus `limit` lines |
| MessageHandler.SaidEntries | source/handlers/message_handler.py:126-136 | every line comes from a message with non-empty content |
| MessageHandler.EntryShape | source/handlers/message_handler.py:127-136 | a line reads `"<name> said: <content>"` and its role is "assistant" iff the bot wrote it, else "user" |
| MessageHandler.ReversedElements | source/handlers/message_handler.py:120 | reversing adds no element |
| MessageHandler.ContextShape | source/handlers/message_handler.py:122-137 | the context opens with the system prompt iff there is one; every other entry is a line of a recent message |
| MessageHandler.SaidLines | source/handlers/message_handler.py:120-136 | every said line is the line of some recent message with content |
| MessageHandler.SaidAll | source/handlers/message_handler.py:126-136 | messages that all have text give one line each, in order |
| MessageHandler.WithContentAll | source/handlers/message_handler.py:117-119 | when every message has content, none is dropped |
| MessageHandler.ContextOldestFirst | source/handlers/message_handler.py:114-137 | the newest-first history ends up oldest-first: the last line is the newest message |
| MessageHandler.HandleMessage | source/handlers/message_handler.py:139-163 | in order: emoji-only channels, and only they, are moderated; other channels outside the chat list are ignored; commands are dispatched; otherwise the context is answered iff the bot should respond |
| MessageHandler.EditsAppend | source/handlers/message_handler.py:174-176 | appending edits keeps a reply-then-edits effect list in that shape |
| MessageHandler.Feed | source/handlers/message_handler.py:175-176 | one chunk raises iff the reply fails or an unforced chunk meets `every == 0`; otherwise it emits only edits after the placeholder; a forced call ends with the visible buffer |
| MessageHandler.RunStream | source/handlers/message_handler.py:165-181 | fails iff the provider raises, the placeholder reply raises, or a chunk meets `every == 0`; a failure sends the error text after the effects made so far (none when `stream_chat` raises at once); otherwise the last edit shows the visible form of the whole answer |
| MessageHandler.FeedChunks | source/handlers/message_handler.py:174-175 | the loop over the chunks the provider yields accumulates every chunk, or raises at the first one when the reply or `every` fails |
| Text.IndexOf | source/llms_models/llm_model.py:121 | the first occurrence of the substring, or none when it does not occur |
| Text.Split | source/core/config.py:46 | `str.split` gives at least one piece |
| Text.SplitJoin | source/core/config.py:46 | joining the pieces with the separator gives the text back |
| Text.SplitCount | source/core/stream.py:36-37 | exactly one piece iff the separator does not occur |
| Text.SplitPiecesFree | source/core/config.py:46 | no piece contains the separator |
| Text.LastPieceSuffix | source/core/stream.py:36 | `split(sep)[-1]` is a suffix of the text |
| Text.LastPieceAfterSeparator | source/core/stream.py:36 | when the separator occurs, it sits right before the last piece |
| Text.LastPieceFree | source/core/stream.py:36 | the last piece holds no separator |
| Text.JoinFirst | memory/memory_model.py:15 | `sep.join(parts)` opens with the first part |
| Text.JoinLast | memory/memory_model.py:15 | `sep.join(parts)` of two or more parts is the join of all but the last, the separator, then the last part |
| Text.JoinSplit | source/core/config.py:46 | splitting joined separator-free pieces gives the pieces back |
| Text.SplitOnce | source/llms_models/llm_model.py:122 | `split(sep, 1)` is none iff the separator is absent; otherwise head + sep + tail is the text and the head holds no separator |
| Text.ReplaceWhole | classes/llama_model.py:39 | replacing a text that is exactly the pattern gives the replacement |
| Text.ReplaceAbsent | classes/llama_model.py:39 | replacing an absent pattern changes nothing |
| Text.ReplacePieces | classes/llama_model.py:39 | `replace` cuts the text at every occurrence into pattern-free pieces that join back to the text, and joins them with the replacement |
| Text.ReplaceLeading | source/llms_models/general_llm_model.py:110 | removing a pattern the text starts with, when it does not occur again, leaves the rest |
| Text.AbsentInConcat | source/llms_models/general_llm_model.py:110-113 | a pattern absent from the tail, whose first two characters cannot start inside the head, is absent from head + tail |
| Text.ConcatIsJoin | source/core/stream.py:47 | the chunks appended one after another with `+=` give the same text as joining them with nothing between |
| Text.ReplaceCharRemoves | llms_models/general_llm_model.py:48 | `replace(">", "")` leaves no `>` |
| Text.ReplaceChars | source/llms_models/general_llm_model.py:109-114 | every character after a replacement comes from the text or the replacement |
| Text.Strip | llms_models/llm_model.py:53 | the stripped text is the substring starting after the leading whitespace, with no whitespace at either end, and everything after it is whitespace |
| Text.StrippedIsFixpoint | source/llms_models/general_llm_model.py:115 | stripping a stripped text changes nothing |
| Text.StripChars | source/llms_models/general_llm_model.py:115 | stripping adds no character |
| Text.Lower | source/addons/emoji_only_channel.py:13 | same length; each character lower-cased |
| Text.LowerAppend | source/addons/emoji_only_channel.py:13 | lower-casing distributes over concatenation |

## Left out

The model follows the code even where a setting's name or a test suggests otherwise:

- The name `memory_size` suggests a cap on the stored conversation, but `append_conversation` only appends; `memory_size` bounds only the window `historial_conversation` reads.
- The settings `min_message_length` (source/core/config.py:26) and `safe_edit_length` (source/core/config.py:27) suggest a minimum-length gate before the first edit. `min_message_length` is stored but never read, and the stream editor stores `safe_edit_length` (source/core/stream.py:28) without reading it, so the model has no such gate and keeps both only as stored values.
- The last assertion of `tests/test_memory.py`, at line 16, expects the length to stay 3 after a fourth append. The code it tests gives 4, so the model follows the code. `TextMemory.MemorySizeScenario` proves what the code gives for four appends at size 3. The other scenario methods restate the steps of `source/tests/test_memory.py` as method bodies whose assertions are proved, and carry no contract of their own: `ChatMemory.MemorySizeScenario` (lines 11-34), `ChatMemory.LastResponseScenario` (lines 37-43), `ChannelStore.SaveScenario` with `ChannelStore.ReloadSteps` (lines 46-68), and `ChannelStore.ClearScenario` with `ChannelStore.ClearSteps` (lines 71-92).

What the model does not cover:

- I/O, logging, `print`, `asyncio` scheduling and `to_thread` are not modelled: the model runs every call sequentially. `evaluate` (a thread wrapper around `evaluate_sync`) and the abstract `evaluate_sync` of the base classes have no separate member.
- Discord, Ollama, OpenAI, gpt4all, the translator and the Stable Diffusion client are parameters. Command handlers are not modelled (`source/addons/commands.py` is not part of this model). `ManageCommands` returns the command it would schedule.
- `re.search` with a configured channel pattern is an uninterpreted predicate. The fixed patterns `<[^\s]+>`, `\n+|#` and the emoji character class are modelled exactly.
- `IsSpace` covers ASCII whitespace and `\x1c`–`\x1f`, not all of Unicode's. `Lower` maps only `A`–`Z`. The emoji check, `strip` and `lower` are exact on ASCII text only.
- Pickle bytes are abstract: a snapshot file is either a mapping of channel states or content that does not unpickle. `os.path.exists` on a directory is not modelled.
- The environment variables read when `config.py` is imported are the `defaults` argument of `Settings`. `Fallbacks` holds their literal defaults. `int()` on a malformed variable and `hasattr` on methods of `Settings` are not modelled. `get_settings` is the constructor with no arguments.
- Config.Settings.constructor: requires keyword arguments of each attribute's annotated type. With another type, the source's later `.split` or comparisons would raise, and that failure is not modelled.
- BusyLock.Lock.WaitLock: requires a positive `waitTime` whenever it would wait. With a non-positive step the source loops for ever.
- `_generate_stream_output`, which `evaluate_stream` awaits, is not defined in the repository. `EvaluateStream` takes the chunks it would yield as input.
- Stream.SanitizeVisible is not idempotent in general (a visible text can itself contain `<think>`), so no such lemma is stated.
- LegacyGeneralLlm.EvaluateSync: a backend that answers only blanks makes the source loop for ever. The model gives the backend's answers as a finite sequence and returns `None` when all of them are blank.
- GeneralLlm.CleanOutput: no "no marker remains" promise. Like the source, it removes each marker in one pass, and removing one can join its neighbours into another marker (`GeneralLlm.MarkerRebuilt`). What is stated instead is the marker-free case (`GeneralLlm.CleanOutputDropsMarker`).
- Times are integer milliseconds. The source divides by 1000.0 and compares floats, and float rounding is not modelled.

## Findings

| source | as written | input that shows it | evidently intended | confidence | as-written member | corrected member |
|---|---|---|---|---|---|---|
| source/core/config.py:57-60 | two adjacent string literals join with no space: "...Please answerthe questions..." | `Settings()` with a `base_prompt_path` that does not exist | "...Please answer the questions..." | not executed | Config.DefaultPromptAsWrittenGluesWords | Config.DefaultPromptSeparatesWords |

The model's `Config.BasePrompt` keeps the fallback text as written; `Config.DefaultPrompt` is the corrected text.
