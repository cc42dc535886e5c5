# DMbot core in Dafny

A Dafny model of the deterministic core of DMbot, a Discord bot in one file
(`DungeonMasterGPT.py`). The bot runs a Dungeons and Dragons campaign per
channel by calling a chat-completion model. The model covers:

- **History truncation.** `truncate_chat_history` and
  `truncate_progress_summary` drop the oldest entries until the
  space-joined text fits a token budget. The tokenizer is a parameter
  `tokens: string -> nat`. The generic reference `Truncation.DropOldest`
  states the result: the longest suffix that fits. `Truncation.DropOldestLoop`
  is the `while`/`pop(0)` loop itself, proved to compute it.
- **Message chunking.** `send_split_message` cuts a reply into 2000-character
  slices for Discord (`Chunking`).
- **Character records and command arguments** (`Characters`, `Stats`):
  - the defaults of a new `Character`;
  - `create_character` comma parsing and arity check;
  - the `update_character` attribute whitelist;
  - `update_stats` word-pair parsing into lower-cased stat names;
  - the `update_notes` length bound.
- **Reply post-processing** (`Replies`):
  - the loop that removes a leading echoed `"<chatbot name>: "`;
  - the `Completed: a, b, ...` summary reply, whose events are appended to
    the progress summary.
- **Prompt assembly** (`Prompt`). This covers the message list sent for a
  player reply or a progress-summary call:
  - the token budgets (200/2000 for a reply, 2500/1000 for a summary call);
  - the forced temperature 0.5 for summary calls;
  - the message order and the text of the system message;
  - the reply budget `4096 - input - 200`, sent whatever its sign. A
    separate checked assembly refuses a request with no room for the reply
    (see "## Findings").

Python's string built-ins that the core relies on are modelled in `Text`:

- `str.join` and `str.split(sep)`;
- `str.split()`, which splits on whitespace runs;
- `str.strip()`, with Python's full whitespace set;
- `str.lower()` on ASCII letters;
- `int()` on ASCII digits, with an optional sign and single underscores;
- `str(int)`.

A roster is a map from user id to a `(character, username)` pair, as in
`characters[channel_id]`. The channel dimension is left implicit, since
every handler reads one channel only. Handlers return `Result`: `Err` names
the message the bot sends instead of changing anything.

The model follows the code. Both truncation loops test the token count of
the whole remaining list, so a list holding one over-budget entry loses that
entry too and comes back empty. Two lemmas state this:
`Truncation.TruncateProgressSummaryLoneOversize` and
`Truncation.TruncateChatHistoryLoneOversize`.

## Model

| member | source | states |
|---|---|---|
| Truncation.DropOldest | DungeonMasterGPT.py:103-125 | Reference for both truncations. A result is a suffix of the input, fits the budget, and every longer suffix exceeds it. There is no result exactly when no suffix fits, not even the empty one; that is `pop(0)` on an empty list. An empty sequence costing nothing and a non-negative budget guarantee a result. |
| Truncation.DropOldestLoop | DungeonMasterGPT.py:106-112 | The loop on a copy, popping index 0 and recounting while over budget, returns exactly the reference suffix, or fails where the reference has none. |
| Truncation.DropOldestTighten | DungeonMasterGPT.py:103-125 | Truncating to a wide budget and then to a narrower one is the same as truncating once to the narrower one. |
| Truncation.TruncateChatHistory | DungeonMasterGPT.py:103-113 | The kept history is the longest suffix that fits (`LongestFittingHistory`). Its space-joined `role: content` text fits `max_tokens`. Every longer suffix's text exceeds it. A history that already fits is returned unchanged. It fails exactly when no suffix fits (`NoHistoryFits`), and never when `tokens("") == 0` and the budget is non-negative. |
| Truncation.TruncateProgressSummary | DungeonMasterGPT.py:115-125 | The same guarantees for summary lines joined by one space, through `LongestFittingSummary` and `NoSummaryFits`. |
| Truncation.TruncateChatHistoryIdempotent | DungeonMasterGPT.py:103-113 | Truncating a truncated history again changes nothing. |
| Truncation.TruncateProgressSummaryIdempotent | DungeonMasterGPT.py:115-125 | Truncating a truncated summary again changes nothing. |
| Truncation.TruncateProgressSummaryLoneOversize | DungeonMasterGPT.py:120-124 | A single summary line over budget is popped: the result is the empty list. |
| Truncation.TruncateChatHistoryLoneOversize | DungeonMasterGPT.py:108-112 | A single history entry over budget is popped: the result is the empty list. |
| Chunking.SplitMessage | DungeonMasterGPT.py:201 | There are `ceil(len/2000)` parts, and none exactly when the message is empty. Every part is non-empty and at most 2000 characters. Every part but the last has exactly 2000. |
| Chunking.SplitMessageRoundTrip | DungeonMasterGPT.py:201 | Concatenating the parts gives back the message. |
| Characters.NewCharacter | DungeonMasterGPT.py:162-175 | The five given fields are kept. Stats, inventory and spells start empty; armor class 10, hit points 0, level 1, xp 0. Absent or empty notes become "No notes yet.", and notes are never empty. |
| Characters.CreateFields | DungeonMasterGPT.py:424 | There is one more field than there are commas in the argument. |
| Characters.CreateFieldsPieces | DungeonMasterGPT.py:424 | Field `i` is piece `i` of `split(",")` with surrounding whitespace removed. No piece holds a comma, and the pieces joined with `,` give back the argument. |
| Characters.CreateCharacter | DungeonMasterGPT.py:424-438 | Fails exactly when there are fewer than four commas, i.e. fewer than five fields. Otherwise the player's entry is exactly `Character(fields 1-5, notes)` with the user's name: the notes are field 6, or the empty string when there is none, which `NewCharacter` turns into the placeholder. Every other attribute has its default. Other players are untouched. |
| Characters.CreateCharacterIgnoresExtraFields | DungeonMasterGPT.py:430-433 | Once a sixth field exists, appending further fields changes nothing. |
| Characters.AttributeField | DungeonMasterGPT.py:456-463 | An attribute selects a field exactly when its lower-cased form is `name`, `race`, `class` or `background`. `class` selects the character class. Any other attribute selects nothing. |
| Characters.SetField | DungeonMasterGPT.py:466 | The selected field takes the value; no other attribute changes. |
| Characters.UpdateCharacter | DungeonMasterGPT.py:450-468 | It succeeds exactly when the player has a character and the attribute is whitelisted. A player without a character gets "no character". A non-whitelisted attribute gets "invalid attribute" and nothing changes. Otherwise only that field of that player's character changes. |
| Characters.UpdateNotes | DungeonMasterGPT.py:588-595 | It succeeds exactly when the player has a character and the notes are at most 200 characters, measured before stripping. On success the notes become the argument with surrounding whitespace removed, within 200 characters, and nothing else changes; a refusal changes nothing. |
| Stats.ParsePairsFails | DungeonMasterGPT.py:491-492 | The dict comprehension fails exactly when the word count is odd or some value word is not an integer. |
| Stats.ParsePairsContents | DungeonMasterGPT.py:491-492 | On success pair `i` is word `2i` with the integer value of word `2i+1`. |
| Stats.DictInsert | DungeonMasterGPT.py:492 | Assigning a dict key sets its value. An existing key keeps its place in the key order; a new key goes to the end. |
| Stats.BuildDict | DungeonMasterGPT.py:492 | The dict's keys are the old keys plus the names. The key order is the old order followed by each new name once, in order of first occurrence (`NewKeys`). So for `STR 10 str 12` the order is `STR`, `str`, and line 495 writes `str` last. Keys no pair names keep their values. |
| Stats.BuildDictKeeps | DungeonMasterGPT.py:492 | A key that no pair names keeps its value. |
| Stats.BuildDictLastPair | DungeonMasterGPT.py:492 | A name that no later pair repeats ends up with this pair's value. |
| Stats.ParsePairsRender | DungeonMasterGPT.py:491-492 | Names followed by their values in decimal parse back to exactly those pairs. |
| Stats.ApplyStats | DungeonMasterGPT.py:494-495 | The written stats are the old ones plus the lower-cased keys. Unmentioned stats keep their values. A stat gets the value of the last dict key that lower-cases to it. |
| Stats.ApplyStatWords | DungeonMasterGPT.py:491-495 | Malformed words write nothing. Otherwise exactly the lower-cased names are added or overwritten, and other stats keep their values. |
| Stats.ApplyStatWordsLastPair | DungeonMasterGPT.py:491-495 | When pair `i` is the last pair with its name and no other name lower-cases to the same stat, that pair's value is the stat's value. |
| Stats.UpdateStats | DungeonMasterGPT.py:480-495 | It succeeds exactly when the player has a character and there is either no argument or the words pair up with integer values. No argument leaves everything as it was. Malformed words fail and change nothing. Otherwise only this player's stats change, as `ApplyStatWords` states. |
| Stats.CaseVariantOrder | DungeonMasterGPT.py:492-495 | For two names `a`, `b` that differ only in case, `a x b y a z` sets their stat to `y`, not `z`. `a` keeps its first place in the dict, so `b` is written last; for example `STR 1 str 2 STR 3` sets `str` to 2. |
| Stats.CaseVariantPair | DungeonMasterGPT.py:492-495 | For two names that differ only in case, one pair each, the stat takes the second pair's value: `STR 10 str 12` sets `str` to 12. |
| Replies.StripNamePrefix | DungeonMasterGPT.py:280-281 | The reply that is left is a suffix and does not start with `name: `. |
| Replies.StripNamePrefixRemovesCopies | DungeonMasterGPT.py:280-281 | What the loop removed is a whole number of copies of `name: `. |
| Replies.StripNamePrefixRepeat | DungeonMasterGPT.py:280-281 | Any number of `name: ` copies in front of a reply that lacks the prefix are exactly what is removed. |
| Replies.StripNamePrefixIdempotent | DungeonMasterGPT.py:280-281 | Stripping a stripped reply changes nothing. |
| Replies.CleanReply | DungeonMasterGPT.py:279-281 | The stripped reply is some number of whole `name: ` copies followed by the returned reply. The returned reply lacks the prefix and ends in non-whitespace. |
| Replies.CompletedEvents | DungeonMasterGPT.py:794-795 | Events are read exactly from replies starting with `Completed:`. There is at least one event and none contains `, `. Joined with `, ` they give the stripped remainder. |
| Replies.ApplySummaryReply | DungeonMasterGPT.py:794-796 | Any other reply leaves the summary as it was. A `Completed:` reply keeps the old summary as a prefix and adds at least one line. No added line contains `, `, and the added lines joined with `, ` are the stripped remainder. |
| Replies.ApplySummaryReplyRoundTrip | DungeonMasterGPT.py:794-796 | Take a list of events without `, ` inside and without whitespace at its ends. Formatted as `Completed: e1, e2, ...`, it is appended unchanged. |
| Replies.ApplySummaryReplyEmpty | DungeonMasterGPT.py:794-796 | A bare `Completed:` appends one empty line. |
| Prompt.NewChannel | DungeonMasterGPT.py:215-232 | A new channel's bot name is "DM". Both priming prompts are the defaults, the overview is "No campaign overview yet.", history and summary are empty, and the temperature is 0.8. |
| Prompt.Messages | DungeonMasterGPT.py:257-262 | The messages are the system message, the assistant history header, the history turns in order, then the user prompt. |
| Prompt.ResponseBudgetNotPositive | DungeonMasterGPT.py:267 | As written, any input of 3896 tokens or more gives a reply budget of zero or less. |
| Prompt.CheckedResponseBudget | DungeonMasterGPT.py:267 | The corrected budget is positive and fills the window with the input and the 200-token margin. Otherwise it is an error, exactly when there is no room. |
| Prompt.SystemMessage | DungeonMasterGPT.py:253-256 | The system message starts with the call's priming prompt, `Party details:` and the roster, and ends with the shown summary. A player reply's message contains the campaign overview. |
| Prompt.BuildRequest | DungeonMasterGPT.py:257-275 | The request carries the messages in order. The reply budget is `4096 - input - 200` whatever its sign, so input + budget + 200 = 4096. Summary calls use temperature 0.5, player replies use the channel's. |
| Prompt.TruncatedParts | DungeonMasterGPT.py:243-247 | The summary is truncated first and reported first when nothing fits. The kept history is the longest suffix that fits its budget. |
| Prompt.AssembleRequest | DungeonMasterGPT.py:243-267 | Summary calls use budgets 2500/1000 and player replies 200/2000. The system message shows the truncated summary, and the history between header and prompt is the longest suffix that fits. It fails exactly when a truncation has no fitting suffix, the summary's reported first. Otherwise a request is always built, and input + budget + 200 = 4096. |
| Prompt.AssembleRequestBudgetNotPositive | DungeonMasterGPT.py:265-267 | As written, a built request whose messages count 3896 tokens or more carries a reply budget of zero or less. |
| Prompt.AssembleRequestOverflowExample | DungeonMasterGPT.py:243-267 | With a tokenizer that counts any non-empty text as the whole 4096-token window, both truncations succeed for any channel, and the code sends the request with a reply budget of -200. |
| Prompt.CheckedAssembleRequest | DungeonMasterGPT.py:243-267 | With the missing check, the result is "no room" exactly when the code as written would send a budget of zero or less. The other errors are the same as written. A request that is sent is the one the code builds, and its budget is positive. |
| Prompt.AssembleRequestOnlyOverflows | DungeonMasterGPT.py:243-247 | With a tokenizer that counts nothing in the empty string, the code always builds a request. With the reply-budget check added, the only refusal is lack of reply room. |
| Text.SplitOn | DungeonMasterGPT.py:795 | `split(sep)` gives at least one piece, and no piece contains the separator. |
| Text.JoinSplitOn | DungeonMasterGPT.py:795 | Joining the pieces with the separator gives back the string. |
| Text.SplitOnJoin | DungeonMasterGPT.py:795 | Splitting a join gives back the parts. This needs a separator that cannot overlap itself, such as `, `, and parts that do not contain it. |
| Text.SplitOnCount | DungeonMasterGPT.py:424-426 | Splitting on one character gives one more piece than its occurrences. |
| Text.SplitOnAppend | DungeonMasterGPT.py:424 | Splitting `a + c + b` on `c` splits `a` and `b` separately. |
| Text.StripSlice | DungeonMasterGPT.py:592 | `strip()` returns a slice with only whitespace around it and non-whitespace at both ends. |
| Text.StripPadded | DungeonMasterGPT.py:795 | Whitespace around a text with non-whitespace ends is exactly what `strip()` removes. |
| Text.WordsAreWords | DungeonMasterGPT.py:491 | `split()` gives non-empty words without whitespace. |
| Text.WordsOfJoin | DungeonMasterGPT.py:491 | Splitting words joined by single spaces gives back the words. |
| Text.Lower | DungeonMasterGPT.py:463 | `lower()` maps each ASCII capital to its small letter (32 code points up) and keeps every other character, so no capital is left. |
| Text.LowerIdempotent | DungeonMasterGPT.py:495 | Lower-casing twice is lower-casing once. |
| Text.ParseInt | DungeonMasterGPT.py:492 | `int()` of a word fails exactly when the word without its sign is not a digit run with single underscores between digits. A parsed word ends in a digit, and its value has the sign the word shows. The value itself is fixed by the lemmas below. |
| Text.ParseIntOfDecimal | DungeonMasterGPT.py:492 | `int(str(n)) == n` for every integer. |
| Text.ParseIntOfRun | DungeonMasterGPT.py:492 | An unsigned digit run parses to the decimal value of its digits with the underscores dropped. |
| Text.ParseIntPlus | DungeonMasterGPT.py:492 | A `+` sign in front of a digit run does not change the value. |
| Text.ParseIntMinus | DungeonMasterGPT.py:492 | A `-` sign in front of a digit run negates the value. |
| Text.ParseIntLeadingZero | DungeonMasterGPT.py:492 | A leading `0` in front of a digit run does not change the value. |
| Text.ParseIntUnderscore | DungeonMasterGPT.py:492 | An underscore between two digits is ignored: removing it leaves a valid digit run with the same value. |

## Left out

- Prompt.NewChannel: the defaults of lines 215-232 are modelled, but not the `chat` command around them. `chat` sets the overview before `generate_response` runs: to `""` via `load_data` (line 330) or at lines 757-764, or by an earlier command. So the "No campaign overview yet." default never reaches a request. `chat` also adds a `system` welcome turn at line 768 when the channel has no history. `load_data` and `chat` are not modelled.
- Discord transport: commands, `ctx.send`, decorators and permission checks. Only the argument logic of handlers is modelled.
- The chat-completion call, `asyncio.to_thread`, `periodic_save` and the `print` logging: foreign calls, concurrency and output.
- The tiktoken encoding (lines 94-101) is a foreign library. It becomes the parameter `tokens`; nothing is assumed about it except where a lemma asks for `tokens("") == 0`.
- `save_data`, `load_data`, `get_data_file` and `clear_save`: JSON and file I/O.
- Temperature validation (lines 722-732): floating-point parsing. The channel temperature is an opaque `real`.
- `display_character` and the roster text built from it. The text appears as the parameter `party` of `Prompt.AssembleRequest`.
- `Prompt.AssembleRequest`: the Python list repr of the truncated summary is embedded in the system message. It is the parameter `showList`, because Python's string quoting is not modelled.
- `Prompt.AssembleRequest`: the `'\n'.join` strings computed at lines 251-252 and 132-133 are never used, so they are not modelled.
- The progress-summary prompt text (lines 134-142) reaches `AssembleRequest` as its `prompt` argument.
- The other update handlers (`update_alignment`, `update_level`, `update_xp`, `update_ac`, `update_hp`, `update_inventory`, `update_spells`) and the campaign/priming-prompt commands. They were not chosen for this model.
- The evident defects are not modelled as behaviour:
  - `update_alignment` assigns to a tuple (line 646);
  - `clear_save` resets the chat history to a dict (line 374);
  - `display_priming_prompt` reads an undefined name (line 714);
  - `chat` looks up `characters.get(user_id)` at the wrong nesting level (line 773).
- The per-channel `input_tokens[channel_id]` write (line 265): the model passes the count straight to the reply budget and stores nothing, since no other modelled code reads it.
- Text.Lower: only ASCII letters are lower-cased. Python's full Unicode case mapping is not modelled.
- Text.ParseInt: only ASCII digits are accepted, and surrounding whitespace is not allowed. `split()` never leaves whitespace in a word. Python's `int()` also accepts other Unicode decimal digits.
- Characters.UpdateNotes: Python reaches its error for a missing character by failing to unpack `None`. The handler's generic error is modelled as `NoCharacter`.

## Findings

| source | as written | input that shows it | evidently intended | confidence | as-written member | corrected member |
|---|---|---|---|---|---|---|
| DungeonMasterGPT.py:267 | `response_max_tokens = 4096 - input_tokens - 200` is sent whatever its sign | a call whose messages count 3896 tokens or more, e.g. a summary call with 2500 summary tokens, 1000 history tokens and a long party roster; in the model, any channel under a tokenizer that counts each non-empty text as 4096 tokens | a positive reply budget, or no request at all | not executed; the budgets for summary calls alone add up to 3500 tokens before the prompts and roster | Prompt.AssembleRequestOverflowExample | Prompt.CheckedAssembleRequest |
