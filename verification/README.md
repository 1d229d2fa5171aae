# telegram_openai_assistant core, in Dafny

A Dafny model of the pure logic inside the Telegram/OpenAI bot package
`telegram_openai_assistant`, with proofs of what that logic guarantees.

- `conversation.dfy` (module `Conversation`) models the bot-to-bot
  conversation state machine `ConversationManager`. It keeps the active
  conversation record, the group id, the fixed rotation `bot_order` and the
  cursor `current_bot_index`. It covers `register_bots`, `start_conversation`,
  `is_active`, `end_conversation` and `get_next_bot`. `Turn` is the decision
  part of one `handle_turn`: the guard, the speaker choice, the stripped reply
  and the pacing delay `max(15, 25 - elapsed)`. `Run` is the recursion of
  `handle_turn`: one input per turn, holding the assistant's answer, the
  elapsed time, whether `send_message` returned, and the `start`, `end` and
  `get_next_bot` calls that other handlers or other turn loops make while the
  turn awaits the send or the sleep.
- `assistant.dfy` (module `Assistant`) models the bookkeeping of
  `AssistantHandler`:
  - the message history, with a user entry and an assistant entry per
    exchange, trimmed to the last 20 entries;
  - the thread id, created once and then reused;
  - the `ValueError` raised on an empty stripped reply.

  The service's reply text and the id of a newly created thread are inputs.
- `quota.dfy` (module `Quota`) models the daily quota gate of
  `process_message`, together with the `{date, count}` record that
  `get_message_count` and `update_message_count` read and write.
- `config.dfy` (module `Config`) models the comma-list pipeline of
  `config.py`: `split(",")`, then `strip()` on each piece, then dropping the
  blank pieces.
- `text.dfy` (module `Text`) models Python's `str.strip`. Its white-space set
  is the exact code-point set of `str.isspace`.
- `wrappers.dfy` (module `Wrappers`) defines `Option` and `Result`.

## Notes on the code's behaviour

- There is ONE session for the whole process. `start_conversation` in any
  group is refused while any conversation is active
  (`SecondStartRefused`).
- `start_conversation` does not look at how many bots are registered. With
  one bot, the initiator is its own first speaker (`SingleBotAnswersItself`).
- The delay is `max(15, 25 - elapsed)`: 15 s at least and 25 s at most
  (`PacingDelay`). The comment at `conversation_manager.py:78`, which speaks
  of 5-15 seconds, does not match these constants.
- After the sleep, `handle_turn` tests `is_active(self.group_id)`, re-reading
  the group id it compares against. The loop therefore goes on whenever ANY
  conversation is active, even one started in another group during the sleep
  (`ContinuesIffSomeGroupActive`, `ContinuesIntoNewGroup`).
- `start_conversation` marks the session active BEFORE `bot_order.index`
  looks up the initiator. An unregistered initiator therefore raises
  `ValueError` but leaves the session active (`UnregisteredInitiatorBlocks`).

## Model

| member | source | states |
|---|---|---|
| Text.Strip | telegram_openai_assistant/config.py:17-18 | `strip()` never lengthens a string and leaves neither end white space; `StripShape` adds that only white space was cut and `StripEmptyIffBlank` when the result is empty |
| Text.StripShape | telegram_openai_assistant/config.py:17-18 | `strip()` removes only white space from either end, and neither end of its result is white space |
| Text.StripStripped | telegram_openai_assistant/assistant_handler.py:50 | a string with no white space at either end is returned unchanged by `strip()` |
| Text.StripIdempotent | telegram_openai_assistant/conversation_manager.py:73 | stripping twice is stripping once, so stripping an already stripped answer again changes nothing |
| Text.StripEmptyIffBlank | telegram_openai_assistant/config.py:17-18 | `not s.strip()` holds exactly when every character of `s` is white space |
| Text.StripChars | telegram_openai_assistant/config.py:17-18 | every character of the stripped string occurs in the original |
| Config.SplitPieces | telegram_openai_assistant/config.py:9 | `split(",")` yields one more piece than there are commas, and no piece contains a comma |
| Config.JoinSplit | telegram_openai_assistant/config.py:9 | `",".join(s.split(","))` gives back `s` |
| Config.SplitAppend | telegram_openai_assistant/config.py:9 | splitting `a + "," + b` gives the pieces of `a` followed by those of `b` |
| Config.Split | telegram_openai_assistant/config.py:9 | `split(",")` always yields at least one piece; `SplitPieces` gives the count and comma-freedom and `JoinSplit` the inverse |
| Config.KeepNonBlank | telegram_openai_assistant/config.py:17 | the filter never produces more items than there are pieces |
| Config.ParseList | telegram_openai_assistant/config.py:17-18 | a value yields at most one item more than it has commas; `ParseListClean` and `ParseRoundTrip` give the items' shape and the round trip |
| Config.ParseListClean | telegram_openai_assistant/config.py:17-18 | every parsed item is non-empty, comma-free and stripped, and there are at most commas + 1 items |
| Config.ParseEnv | telegram_openai_assistant/config.py:9 | an unset variable and an empty one both give the empty list |
| Config.Load | telegram_openai_assistant/config.py:9-18 | both configured lists hold only clean items, and an unset variable gives an empty list |
| Config.ParseListAppend | telegram_openai_assistant/config.py:17-18 | order is kept: the items of `a,b` are the items of `a` followed by the items of `b` |
| Config.ParseListSegment | telegram_openai_assistant/config.py:17-18 | a comma-free segment contributes nothing if blank, and its stripped form otherwise |
| Config.ParseClean | telegram_openai_assistant/config.py:17-18 | a clean item parses to exactly itself |
| Config.ParseJoin | telegram_openai_assistant/config.py:9-18 | parsing the comma-join of clean items gives back those items |
| Config.ParseRoundTrip | telegram_openai_assistant/config.py:9-18 | re-parsing `",".join` of a parsed list gives back the same list |
| Quota.Gate | telegram_openai_assistant/handlers.py:57-69 | a request is dropped exactly when a record stamped today holds a count of at least 100; a served request stores today's date with count 1 after a stale or missing record and count + 1 otherwise, never above 100 |
| Quota.After | telegram_openai_assistant/handlers.py:57-69 | the stored record is left exactly as it was precisely when today's count (0 for a missing or stale record) is at least 100; under the limit the record is stamped today and today's count goes up by exactly 1, so a count of at most 100 stays at most 100 |
| Quota.RequestsServed | telegram_openai_assistant/handlers.py:64-69 | a run of n same-day requests from a count of at most 100 answers exactly min(n, 100 - count) of them and ends with count + served, never above 100 |
| Quota.CountStaysBounded | telegram_openai_assistant/handlers.py:64-69 | starting from today's record with a count of at most 100, no run of requests stores a count above 100 |
| Quota.RequestsKeepRecord | telegram_openai_assistant/utils.py:17-20 | once today's record exists, every later same-day request keeps a record stamped today |
| Quota.FreshDayServesLimit | telegram_openai_assistant/handlers.py:64-69 | from count 0, or from no record at all, exactly min(n, 100) of n requests are answered |
| Quota.HundredFirstDropped | telegram_openai_assistant/handlers.py:64-65 | on a fresh day the 101st request is dropped |
| Quota.StaleRecordResets | telegram_openai_assistant/handlers.py:62-69 | a record from another day at the limit does not block: the request is served and count 1 is stored |
| Assistant.NewHandler | telegram_openai_assistant/assistant_handler.py:4-8 | a new handler has no thread, and its history already satisfies the user/assistant pairing that `GetAnswerPaired` preserves and the 20-entry bound |
| Assistant.Trim | telegram_openai_assistant/assistant_handler.py:63-67 | after trimming, the history length is the old length when at most 20, and 20 otherwise |
| Assistant.TrimSuffix | telegram_openai_assistant/assistant_handler.py:66-67 | the trimmed history is a suffix of the old one, so its newest entries in their original order, and a history of at most 20 is unchanged |
| Assistant.TrimIdempotent | telegram_openai_assistant/assistant_handler.py:63-67 | trimming twice is trimming once |
| Assistant.TrimAppend | telegram_openai_assistant/assistant_handler.py:55-67 | trimming along the way loses nothing the final trim would keep |
| Assistant.EnsureThread | telegram_openai_assistant/assistant_handler.py:13-15 | a thread id is always there afterwards; it is either the old id or the created one, it differs from the old one only when that was unset or empty, and it is non-empty when the created id is |
| Assistant.EnsureThreadStable | telegram_openai_assistant/assistant_handler.py:13-15 | once a non-empty thread id is set, every later call keeps it, whatever id the service would create |
| Assistant.GetAnswer | telegram_openai_assistant/assistant_handler.py:10-60 | it fails exactly when the reply is all white space, and then only the user entry has been appended; on success it returns a non-empty stripped reply, and the history is the trim of old + user + assistant, at most 20 long |
| Assistant.GetAnswerReply | telegram_openai_assistant/assistant_handler.py:50-60 | a reply that is not blank is returned as `reply.strip()` |
| Assistant.ThreadReused | telegram_openai_assistant/assistant_handler.py:13-15 | after the first call the thread id is fixed, whatever later calls would have created |
| Assistant.ReplayHistory | telegram_openai_assistant/assistant_handler.py:18-58 | after a run of answered exchanges, the history is the last 20 entries of the old history and every exchange's two entries, taken together |
| Assistant.GetAnswerPaired | telegram_openai_assistant/assistant_handler.py:18-58 | from a history of complete user/assistant pairs, a call keeps it made of complete pairs exactly when it succeeds |
| Conversation.NewManager | telegram_openai_assistant/conversation_manager.py:7-12 | a new manager satisfies the session invariant and no group is active |
| Conversation.IsActive | telegram_openai_assistant/conversation_manager.py:36-38 | in a consistent manager, a group is active exactly when the active conversation's record names that group; `End` succeeds exactly in that case, and `ContinuesIffSomeGroupActive` ties it to the test after the sleep |
| Conversation.Register | telegram_openai_assistant/conversation_manager.py:14-17 | the rotation becomes the registered names in order; the session and cursor are untouched |
| Conversation.IndexOf | telegram_openai_assistant/conversation_manager.py:31 | the position found is the first occurrence of the name, or the length when the name is absent |
| Conversation.Start | telegram_openai_assistant/conversation_manager.py:19-34 | a start is refused, with nothing changed, exactly when a session is active; an unregistered initiator leaves the session marked active; otherwise the initiator is the slot just before the cursor (its first occurrence), and the bot at the cursor is returned |
| Conversation.End | telegram_openai_assistant/conversation_manager.py:40-47 | it succeeds exactly when the session is active in that group, and then leaves the manager idle with cursor 0; otherwise nothing changes |
| Conversation.GetNextBot | telegram_openai_assistant/conversation_manager.py:49-56 | with no bots it returns None and changes nothing; otherwise the cursor moves to (cursor + 1) mod n, stays in range, and that bot is returned |
| Conversation.PacingDelay | telegram_openai_assistant/conversation_manager.py:79 | the delay is at least 15 and at least 25 - elapsed, equals one of them, and is at most 25 when elapsed is not negative |
| Conversation.Turn | telegram_openai_assistant/conversation_manager.py:58-82 | a turn does nothing exactly when there is no group id (or it is 0) or no bot; otherwise the cursor moves one slot on, and the turn stops if that bot's name is empty and fails if its `get_answer` raised; when the bot speaks, it sends the stripped answer to the session's group, then waits at least 15 s, and at most 25 s when elapsed is not negative |
| Conversation.ContinuesIffSomeGroupActive | telegram_openai_assistant/conversation_manager.py:88 | the test after the sleep holds exactly when some conversation is active, in whatever group |
| Conversation.ContinuesAfterSleep | telegram_openai_assistant/conversation_manager.py:88 | comparing the group id with itself is vacuous: the test holds exactly when a session is active |
| Conversation.ApplyOne | telegram_openai_assistant/conversation_manager.py:19-56 | a start, an end or a `get_next_bot` made while a turn awaits keeps the session invariant and the rotation |
| Conversation.Run | telegram_openai_assistant/conversation_manager.py:58-89 | the loop sends at most one message per turn and keeps the session invariant and the rotation order, whatever start, end or `get_next_bot` calls run during the awaits and whether or not each send returns |
| Conversation.RunMessagesWellFormed | telegram_openai_assistant/conversation_manager.py:63-85 | whatever start, end or `get_next_bot` calls run during the awaits, every message comes from a registered bot and is followed by at least 15 s |
| Conversation.EndTwice | telegram_openai_assistant/conversation_manager.py:42-47 | a second `end_conversation` reports failure and changes nothing |
| Conversation.SecondStartRefused | telegram_openai_assistant/conversation_manager.py:26-34 | after a start on an idle manager, every start in any group is refused |
| Conversation.UnregisteredInitiatorBlocks | telegram_openai_assistant/conversation_manager.py:26-31 | an unregistered initiator leaves the session active in its group, and blocks later starts until that group is ended |
| Conversation.SingleBotAnswersItself | telegram_openai_assistant/conversation_manager.py:31-33 | with a single bot, the initiator is also the first speaker |
| Conversation.AdvanceCursor | telegram_openai_assistant/conversation_manager.py:55 | k calls of `get_next_bot` move the cursor k slots on, mod n, and change nothing else |
| Conversation.StartThenAdvance | telegram_openai_assistant/conversation_manager.py:31-56 | after starting with `bot_order[i]` and k calls of `get_next_bot`, the cursor is (i + 1 + k) mod n |
| Conversation.RunAdvances | telegram_openai_assistant/conversation_manager.py:58-89 | an undisturbed loop (every answer present, every send returning, no other call during the awaits, every registered name non-empty) sends one message per turn and leaves the manager as that many `get_next_bot` calls would |
| Conversation.RunLength | telegram_openai_assistant/conversation_manager.py:58-89 | an undisturbed loop sends one message per turn, and the cursor ends that many slots on, mod n |
| Conversation.RunSaidAt | telegram_openai_assistant/conversation_manager.py:63-82 | in an undisturbed loop, the j-th message is the j-th answer, stripped, said by the bot j + 1 `get_next_bot` calls on, to the session's group, with that turn's delay |
| Conversation.RunSaid | telegram_openai_assistant/conversation_manager.py:63-82 | the j-th message is said by the bot j + 1 slots after the cursor, wrapping around, with the j-th answer and that turn's delay |
| Conversation.RunRotation | telegram_openai_assistant/conversation_manager.py:55-89 | the speakers of an undisturbed loop are the bots after the cursor, in registration order, wrapping around |
| Conversation.EndDuringSleepStops | telegram_openai_assistant/conversation_manager.py:85-89 | ending the conversation during the sleep makes that turn's message the last one and leaves the session idle |
| Conversation.SendFailureStops | telegram_openai_assistant/conversation_manager.py:82 | with no other call during the send, a turn whose `send_message` raises ends the loop with nothing delivered, the cursor one slot on and the session still active |
| Conversation.ContinuesIntoNewGroup | telegram_openai_assistant/conversation_manager.py:88-89 | if the conversation is ended and one is started in another group during the sleep, the loop goes on and its next message goes to the new group |
| Conversation.TurnSendsHandlerAnswer | telegram_openai_assistant/conversation_manager.py:73 | the message a turn sends is exactly what the bot's `get_answer` returned, since that is already stripped |

## Left out

- Sending to Telegram, `asyncio.sleep` and the async recursion of `handle_turn` (`conversation_manager.py:82,85,89`). `Turn` returns what would be sent and the delay. `Run` replays the recursion with one input per turn; whether the send returned is a flag of that input.
- `time.monotonic`: the elapsed time is a `real` input of each turn.
- All OpenAI client calls and their polling loops, in `assistant_handler.py` and in `get_answer` of `handlers.py`. The reply text and the id of a new thread are inputs. Exceptions the client raises are not modelled; only the empty-reply `ValueError` is.
- The `message` argument of `handle_turn` is passed to `get_answer` but is not tracked. The model takes the answer as given.
- The bot objects of `all_bots`. Only the key order is kept, as `order`.
- A name of `bot_order` missing from `all_bots` (a `KeyError` at line 67) cannot arise: both come from the same dictionary.
- JSON file I/O in `utils.py`. A malformed counter file (a `KeyError` on `"count"` or `"date"`) is not modelled; the stored record is a well-formed `Counter` or absent.
- `update_message_count` reads the date a second time. The model uses one `today` for the whole request, so a request that straddles midnight is not modelled.
- `save_qa`, called after the counter update. It passes four arguments to a five-parameter function.
- The answer call and the send inside `process_message`. The gate decides only whether a request is served and what is stored.
- `Quota.After`: assumes `get_answer` and `send_message` both return. If either raises, `handlers.py:69` is never reached and the record stays as it was, but `After` still writes count + 1.
- `Quota.RequestsServed`: requests are handled one at a time. Two `process_message` calls interleaved across the await at `handlers.py:68` can both read the old count; that interleaving is not modelled.
- `Conversation.RunMessagesWellFormed`: the calls that may run while a turn awaits are `start_conversation`, `end_conversation` and `get_next_bot`. A `register_bots` at that point is not modelled: the rotation stays fixed during a run.
- `start` and `help_command`, which send fixed text.
- `bot.py`, `setup.py` and the `deepsquare_bot` package: application wiring, packaging and a separate bot. `bot.py` imports a `telegram_token` that `config.py` does not define.
- `os.getenv`, `load_dotenv` and the debug prints of `config.py`. The environment value is an `Option<string>` input.
- `CLIENT_API_KEY`, which is read without parsing.
- `Assistant.ThreadReused`: requires the service's thread id to be non-empty. An empty id would be treated as unset and a new thread created on the next call, as `EnsureThread` states.
- `Conversation.RunAdvances`, `Conversation.RunSaidAt`, `Conversation.RunSaid`, `Conversation.RunLength` and `Conversation.RunRotation` describe undisturbed runs only: every answer present, every send returning, no other call during the awaits, and every registered name non-empty. Disturbed runs are covered by `RunMessagesWellFormed`, `EndDuringSleepStops` and `ContinuesIntoNewGroup`.
